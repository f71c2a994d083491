/** The recently-seen window in the pipeline, over all interleavings. */
module PipelineSeen {
  import opened Pipeline
  import opened RecentSeen

  type PipelineConfig = Pipeline.Config

  /** The sighting or collection that a caller's step is, if it takes place. */
  function CallerEvent(here: Caller, step: CallerStep): seq<Event> {
    match step
    case Handle(epc, now) => if here.Resting? && epc != "" then [Saw(epc, now)] else []
    case Collect(now) => if here.Collecting? then [RecentSeen.Collected(now)] else []
    case _ => []
  }

  function EventOf(s: State, a: Action): seq<Event> {
    if Blocked(s, a) || a.ByWorker? || a.i >= |s.callers| then [] else CallerEvent(s.callers[a.i], a.callerStep)
  }

  /** The sightings and collections of a schedule, in the order in which the mutex is taken. */
  function Events(c: PipelineConfig, start: State, schedule: seq<Action>): seq<Event> {
    if schedule == [] then
      []
    else
      var n := |schedule| - 1;
      Events(c, start, schedule[..n]) + EventOf(Pipeline.After(c, start, schedule[..n]), schedule[n])
  }

  lemma CallerStepIsEvent(c: PipelineConfig, s: State, i: nat, step: CallerStep)
    requires i < |s.callers|
    ensures var events := CallerEvent(s.callers[i], step);
            CallerMoves(c, s, i, step).recentSeen
            == if events == [] then s.recentSeen else RecentSeen.After(s.recentSeen, events[0], c.ttl)
  {}

  lemma WorkerStepSeesNothing(c: PipelineConfig, s: State, j: nat, step: WorkerStep)
    requires j < |s.workers|
    ensures WorkerMoves(c, s, j, step).recentSeen == s.recentSeen
  {}

  lemma MoveIsEvent(c: PipelineConfig, s: State, a: Action, history: seq<Event>)
    requires s.recentSeen == Window(history, c.ttl)
    ensures Moves(c, s, a).recentSeen == Window(history + EventOf(s, a), c.ttl)
  {
    var events := EventOf(s, a);
    assert history + [] == history;
    if !Blocked(s, a) {
      if a.ByCaller? && a.i < |s.callers| {
        CallerStepIsEvent(c, s, a.i, a.callerStep);
        if events != [] {
          assert events == [events[0]];
          WindowAfter(history, events[0], c.ttl);
        }
      } else if a.ByWorker? && a.j < |s.workers| {
        WorkerStepSeesNothing(c, s, a.j, a.workerStep);
      }
    }
  }

  /** However the threads interleave, recentSeen is the window on the events in lock order. */
  lemma {:induction false} SeenIsWindow(c: PipelineConfig, start: State, schedule: seq<Action>)
    requires Init(start)
    ensures Pipeline.After(c, start, schedule).recentSeen == Window(Events(c, start, schedule), c.ttl)
  {
    if schedule != [] {
      var n := |schedule| - 1;
      SeenIsWindow(c, start, schedule[..n]);
      MoveIsEvent(c, Pipeline.After(c, start, schedule[..n]), schedule[n], Events(c, start, schedule[..n]));
    }
  }

  /** So if the times presented in lock order never go back, eager deletion loses nothing in any
      interleaving: recentSeen is exactly what is fresh in the full record of last sightings. */
  lemma SeenRefinesHistory(c: PipelineConfig, start: State, schedule: seq<Action>)
    requires Init(start)
    requires var events := Events(c, start, schedule); events != [] && ClockAdvances(events)
    ensures var events := Events(c, start, schedule);
            Pipeline.After(c, start, schedule).recentSeen
            == Fresh(Sightings(events), events[|events| - 1].at, c.ttl)
  {
    SeenIsWindow(c, start, schedule);
    WindowRefinesHistory(Events(c, start, schedule), c.ttl);
  }
}
