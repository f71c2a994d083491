/**
 The submit pipeline comes to rest: without new input it can take only so many
 steps, whatever the schedule, and until everything is settled some thread has a
 step to take.
 */
module PipelineProgress {
  import opened Threads
  import opened Epcs
  import opened Pipeline
  import PipelineSafety
  import RecentSeen
  import Sequential

  /** The steps with which something comes in from outside. */
  predicate IsInput(a: Action) {
    a.ByCaller? && match a.callerStep
                   case Handle(_, _) => true
                   case SetScanActive(_) => true
                   case ReplaceCache(_) => true
                   case AddToCache(_) => true
                   case _ => false
  }

  predicate NoInput(schedule: seq<Action>) {
    forall a | a in schedule :: !IsInput(a)
  }

  predicate IsStop(a: Action) {
    a.ByWorker? && a.workerStep.Stop?
  }

  predicate NoStop(schedule: seq<Action>) {
    forall a | a in schedule :: !IsStop(a)
  }

  // ----- How many steps are left at most -----

  function Times(n: nat, w: nat): nat {
    if n == 0 then 0 else w + Times(n - 1, w)
  }

  lemma {:induction false} TimesGrows(m: nat, n: nat, w: nat)
    requires m <= n
    ensures Times(m, w) <= Times(n, w)
  {
    if m < n {
      TimesGrows(m, n - 1, w);
    }
  }

  /** What an EPC in the channel still costs: receiving, clearing, probing, locking, at most submitRetry + 1
      submits, removing, counting and unlocking. */
  function Slot(c: Config): nat {
    c.submitRetry + 8
  }

  /** And one that is still to be enqueued. */
  function Entry(c: Config): nat {
    Slot(c) + 3
  }

  function WorkerRank(c: Config): Worker -> nat {
    (worker: Worker) =>
      match worker
      case Stopped => 0
      case Waiting => 1
      case Unlocking(_) => 2
      case Counting(_, _) => 3
      case Failing(_, _) => 3
      case Removing(_, _) => 4
      case Submitting(_, replies) => 5 + if |replies| <= c.submitRetry then c.submitRetry - |replies| else 0
      case Present(_) => c.submitRetry + 6
      case Cleared(_) => c.submitRetry + 7
      case Received(_) => c.submitRetry + 8
  }

  /** n bounds the number of EPCs in the window. */
  function CallerRank(c: Config, n: nat): Caller -> nat {
    (caller: Caller) =>
      match caller
      case Resting => 0
      case Missing(_) => 1
      case Dropping(_, todo) => 1 + Times(|todo|, Entry(c))
      case Sending(_, todo) => Slot(c) + 2 + Times(|todo|, Entry(c))
      case Entering(_, todo) => Entry(c) + Times(|todo|, Entry(c))
      case Hitting(_) => Entry(c) + 1
      case Looking(_) => Entry(c) + 2
      case Collected(todo) => 1 + Times(|todo|, Entry(c))
      case Picking(pending, found, _) => 2 + Times(|pending|, Entry(c) + 1) + Times(|found|, Entry(c))
      case Collecting(_, _) => 3 + Times(n, Entry(c) + 1)
  }

  function Remaining(c: Config, n: nat, s: State): nat {
    Sum(s.callers, CallerRank(c, n)) + Sum(s.workers, WorkerRank(c)) + Times(|s.channel|, Slot(c))
  }

  // ----- Every step that does something lowers it -----

  lemma NextRank(c: Config, n: nat, todo: seq<Epc>)
    ensures CallerRank(c, n)(Next(todo)) == Times(|todo|, Entry(c))
  {}

  lemma {:induction false} FewerElements(a: set<Epc>, b: set<Epc>)
    requires a <= b
    ensures |a| <= |b|
  {
    if e :| e in a {
      FewerElements(a - {e}, b - {e});
    }
  }

  lemma SoughtIsBounded(c: Config, seen: map<Epc, int>, now: int, focus: set<Epc>, n: nat)
    requires |seen| <= n
    ensures var kept := RecentSeen.Fresh(seen, now, c.ttl);
            |kept| <= n && |Sought(kept, focus)| <= n
  {
    var kept := RecentSeen.Fresh(seen, now, c.ttl);
    FewerElements(kept.Keys, seen.Keys);
    FewerElements(Sought(kept, focus), kept.Keys);
    assert |kept| == |kept.Keys| && |seen| == |seen.Keys|;
  }

  /** What thread i and the channel have left. */
  function CallerLeft(c: Config, n: nat, s: State, i: nat): nat
    requires i < |s.callers|
  {
    CallerRank(c, n)(s.callers[i]) + Times(|s.channel|, Slot(c))
  }

  function WorkerLeft(c: Config, s: State, j: nat): nat
    requires j < |s.workers|
  {
    WorkerRank(c)(s.workers[j]) + Times(|s.channel|, Slot(c))
  }

  /** A step of caller i that changes something. */
  predicate CallerGetsOn(c: Config, n: nat, s: State, i: nat, t: State)
    requires i < |s.callers| && i < |t.callers|
  {
    |t.recentSeen| <= n && CallerLeft(c, n, t, i) < CallerLeft(c, n, s, i)
  }

  lemma CollectLowers(c: Config, n: nat, s: State, i: nat, now: int)
    requires i < |s.callers| && s.callers[i].Collecting? && |s.recentSeen| <= n
    ensures CallerGetsOn(c, n, s, i, CallerMoves(c, s, i, Collect(now)))
  {
    var sought := Sought(RecentSeen.Fresh(s.recentSeen, now, c.ttl), s.callers[i].focus);
    SoughtIsBounded(c, s.recentSeen, now, s.callers[i].focus, n);
    TimesGrows(|sought|, n, Entry(c) + 1);
  }

  lemma AskAboutLowers(c: Config, n: nat, s: State, i: nat, e: Epc)
    requires i < |s.callers| && s.callers[i].Picking? && e in s.callers[i].pending && |s.recentSeen| <= n
    ensures CallerGetsOn(c, n, s, i, CallerMoves(c, s, i, AskAbout(e)))
  {
    var here := s.callers[i];
    assert |here.pending - {e}| == |here.pending| - 1;
    TimesGrows(|here.found + Picked(s.cache, e)|, |here.found| + 1, Entry(c));
  }

  /** Going on with what is left to enqueue. */
  lemma OnToTheNextLowers(c: Config, n: nat, s: State, i: nat, step: CallerStep)
    requires i < |s.callers| && |s.recentSeen| <= n && CallerMoves(c, s, i, step) != s
    requires step.Release? || step.AskScanActive? || step.RollBack?
    ensures CallerGetsOn(c, n, s, i, CallerMoves(c, s, i, step))
  {
    NextRank(c, n, if step.Release? then s.callers[i].found else s.callers[i].todo);
  }

  lemma ReserveLowers(c: Config, n: nat, s: State, i: nat)
    requires i < |s.callers| && |s.recentSeen| <= n && s.callers[i].Entering?
    ensures CallerGetsOn(c, n, s, i, CallerMoves(c, s, i, Reserve))
  {
    NextRank(c, n, s.callers[i].todo);
  }

  /** What a send takes from the caller's rank is more than what it puts into the channel. */
  lemma SendLowers(c: Config, n: nat, s: State, i: nat)
    requires i < |s.callers| && |s.recentSeen| <= n && s.callers[i].Sending?
    ensures CallerGetsOn(c, n, s, i, CallerMoves(c, s, i, Send))
  {
    NextRank(c, n, s.callers[i].todo);
  }

  lemma AskingLowers(c: Config, n: nat, s: State, i: nat, step: CallerStep)
    requires i < |s.callers| && |s.recentSeen| <= n && CallerMoves(c, s, i, step) != s
    requires step.AskCache? || step.CountMiss? || step.CountHit?
    ensures CallerGetsOn(c, n, s, i, CallerMoves(c, s, i, step))
  {}

  lemma CallerStepLowers(c: Config, n: nat, s: State, i: nat, step: CallerStep)
    requires i < |s.callers| && |s.recentSeen| <= n && !IsInput(ByCaller(i, step)) && CallerMoves(c, s, i, step) != s
    ensures i < |CallerMoves(c, s, i, step).callers| && CallerGetsOn(c, n, s, i, CallerMoves(c, s, i, step))
  {
    PipelineSafety.CallerStepExchanges(c, s, i, step);
    match step
    case Collect(now) => CollectLowers(c, n, s, i, now);
    case AskAbout(e) => AskAboutLowers(c, n, s, i, e);
    case Release => OnToTheNextLowers(c, n, s, i, step);
    case AskScanActive => OnToTheNextLowers(c, n, s, i, step);
    case RollBack => OnToTheNextLowers(c, n, s, i, step);
    case Reserve => ReserveLowers(c, n, s, i);
    case Send => SendLowers(c, n, s, i);
    case _ => AskingLowers(c, n, s, i, step);
  }

  lemma WorkerStepLowers(c: Config, s: State, j: nat, step: WorkerStep)
    requires j < |s.workers|
    ensures var t := WorkerMoves(c, s, j, step);
            && t.recentSeen == s.recentSeen
            && (t == s || (j < |t.workers| && WorkerLeft(c, t, j) < WorkerLeft(c, s, j)))
  {}

  lemma MoveLowers(c: Config, n: nat, s: State, a: Action)
    requires !IsInput(a) && |s.recentSeen| <= n
    ensures var t := Moves(c, s, a);
            && |t.recentSeen| <= n
            && (t == s || Remaining(c, n, t) < Remaining(c, n, s))
  {
    var t := Moves(c, s, a);
    if t == s {
      return;
    }
    match a
    case ByCaller(i, step) =>
      PipelineSafety.CallerStepExchanges(c, s, i, step);
      SumMoves(s.callers, CallerRank(c, n), i, t.callers[i]);
      CallerStepLowers(c, n, s, i, step);
    case ByWorker(j, step) =>
      PipelineSafety.OnlyThisWorkerMoves(c, s, j, step);
      SumMoves(s.workers, WorkerRank(c), j, t.workers[j]);
      WorkerStepLowers(c, s, j, step);
  }

  /** How many steps of a schedule change something. */
  function Progress(c: Config, s: State, schedule: seq<Action>): nat {
    if schedule == [] then
      0
    else
      var n := |schedule| - 1;
      var before := After(c, s, schedule[..n]);
      Progress(c, s, schedule[..n]) + if Moves(c, before, schedule[n]) != before then 1 else 0
  }

  /** From any state, every schedule without input comes to a stand: the steps that still change something are
      bounded beforehand, by a number that depends only on the state. */
  lemma {:induction false} RunsDown(c: Config, n: nat, s: State, schedule: seq<Action>)
    requires NoInput(schedule) && |s.recentSeen| <= n
    ensures var t := After(c, s, schedule);
            && |t.recentSeen| <= n
            && Progress(c, s, schedule) + Remaining(c, n, t) <= Remaining(c, n, s)
  {
    if schedule != [] {
      var k := |schedule| - 1;
      assert schedule[k] in schedule;
      RunsDown(c, n, s, schedule[..k]);
      MoveLowers(c, n, After(c, s, schedule[..k]), schedule[k]);
    }
  }

  // ----- Until everything is settled, something can move -----

  predicate Stepping(c: Config, s: State, a: Action) {
    !IsInput(a) && !IsStop(a) && Moves(c, s, a) != s
  }

  /** All threads rest, and the channel is empty or has nobody left to receive from it. */
  predicate AtRest(s: State) {
    PipelineSafety.Quiet(s) && (s.channel == [] || forall j | 0 <= j < |s.workers| :: s.workers[j].Stopped?)
  }

  lemma PickerCanMove(c: Config, s: State, i: nat) returns (a: Action)
    requires i < |s.callers| && s.callers[i].Picking?
    ensures Stepping(c, s, a)
  {
    var here := s.callers[i];
    if e :| e in here.pending {
      a := ByCaller(i, AskAbout(e));
      assert Moves(c, s, a).callers[i].pending == here.pending - {e};
    } else {
      a := ByCaller(i, Release);
      assert !Moves(c, s, a).callers[i].Picking?;
    }
  }

  /** A caller that takes its next step is elsewhere afterwards. */
  lemma CallerCanMove(c: Config, s: State, i: nat) returns (a: Action)
    requires Sequential.Free(s, i) && !s.callers[i].Resting?
    ensures Stepping(c, s, a)
  {
    var here := s.callers[i];
    match here
    case Looking(_) => a := ByCaller(i, AskCache);
    case Missing(_) => a := ByCaller(i, CountMiss);
    case Hitting(_) => a := ByCaller(i, CountHit);
    case Collecting(_, _) => a := ByCaller(i, Collect(0));
    case Collected(_) => a := ByCaller(i, AskScanActive);
    case Entering(_, todo) =>
      a := ByCaller(i, Reserve);
      assert Next(todo) != here by {
        assert Next(todo).Entering? ==> |Next(todo).todo| < |todo|;
      }
    case Sending(_, _) => a := ByCaller(i, Send);
    case Dropping(_, _) => a := ByCaller(i, RollBack);
    assert CallerMoves(c, s, i, a.callerStep).callers[i] != here;
  }

  lemma WorkerCanMove(c: Config, s: State, j: nat) returns (a: Action)
    requires Sequential.WorkerFree(s, j) && PipelineSafety.InOrder(c, s.workers[j])
    requires !s.workers[j].Stopped? && (s.workers[j].Waiting? ==> s.channel != [])
    ensures Stepping(c, s, a)
  {
    var here := s.workers[j];
    match here
    case Waiting => a := ByWorker(j, Receive);
    case Received(_) => a := ByWorker(j, ClearQueued);
    case Cleared(_) => a := ByWorker(j, ProbeCache);
    case Present(_) => a := ByWorker(j, LockInflight);
    case Submitting(_, _) => a := ByWorker(j, Submit(Submitted));
    case Removing(_, _) => a := ByWorker(j, RemoveFromCache);
    case Counting(_, _) => a := ByWorker(j, CountResult);
    case Failing(_, _) => a := ByWorker(j, CountError);
    case Unlocking(_) => a := ByWorker(j, UnlockInflight);
    assert WorkerMoves(c, s, j, a.workerStep).workers[j] != here;
  }

  /** No deadlock: in a reachable state that is not at rest, some thread can take a step that is not an input
      and does not stop a worker. */
  lemma SomethingCanMove(c: Config, start: State, schedule: seq<Action>) returns (a: Action)
    requires Init(start) && !AtRest(After(c, start, schedule))
    ensures Stepping(c, After(c, start, schedule), a)
  {
    PipelineSafety.AlwaysInvariant(c, start, schedule);
    var s := After(c, start, schedule);
    if i :| 0 <= i < |s.callers| && s.callers[i].Picking? {
      a := PickerCanMove(c, s, i);
    } else if i :| 0 <= i < |s.callers| && !s.callers[i].Resting? {
      a := CallerCanMove(c, s, i);
    } else if j :| 0 <= j < |s.workers| && !s.workers[j].Stopped? && (s.workers[j].Waiting? ==> s.channel != []) {
      a := WorkerCanMove(c, s, j);
    } else {
      assert false;
    }
  }

  lemma RestStays(c: Config, s: State, a: Action)
    requires AtRest(s) && !IsInput(a) && !IsStop(a)
    ensures Moves(c, s, a) == s
  {}

  /** In a reachable state, nothing can move without input exactly when the pipeline is at rest. */
  lemma AtRestIff(c: Config, start: State, schedule: seq<Action>)
    requires Init(start)
    ensures var s := After(c, start, schedule);
            AtRest(s) <==> forall a :: !Stepping(c, s, a)
  {
    var s := After(c, start, schedule);
    if AtRest(s) {
      forall a ensures !Stepping(c, s, a) {
        if !IsInput(a) && !IsStop(a) {
          RestStays(c, s, a);
        }
      }
    } else {
      var a := SomethingCanMove(c, start, schedule);
    }
  }

  // ----- Draining -----

  /** Some worker has not been stopped. */
  predicate IsManned(s: State) {
    exists j :: 0 <= j < |s.workers| && !s.workers[j].Stopped?
  }

  lemma StaysManned(c: Config, s: State, a: Action)
    requires IsManned(s) && !IsStop(a)
    ensures IsManned(Moves(c, s, a))
  {
    var j :| 0 <= j < |s.workers| && !s.workers[j].Stopped?;
    var t := Moves(c, s, a);
    if t != s {
      match a
      case ByCaller(i, step) =>
        PipelineSafety.CallerStepExchanges(c, s, i, step);
        assert !t.workers[j].Stopped?;
      case ByWorker(k, step) =>
        PipelineSafety.OnlyThisWorkerMoves(c, s, k, step);
        OnlyStopStops(c, s, k, step);
        assert !t.workers[j].Stopped?;
    }
  }

  lemma OnlyStopStops(c: Config, s: State, j: nat, step: WorkerStep)
    requires j < |s.workers| && !step.Stop? && !s.workers[j].Stopped?
    ensures !WorkerMoves(c, s, j, step).workers[j].Stopped?
  {}

  /** Everything that has ever been sent is settled, and nothing is reserved or in flight. */
  predicate IsDrained(s: State) {
    && PipelineSafety.Quiet(s) && s.channel == [] && s.queued == {} && s.inflight == {}
    && s.history.queue.sends == s.history.work.skips + PipelineSafety.Settled(s.stats)
    && s.history.queue.refusals == s.stats.submits.queueDropped
    && s.stats.tags.seenTotal == PipelineSafety.Decided(s.stats)
  }

  lemma RestIsDrained(c: Config, start: State, schedule: seq<Action>)
    requires Init(start) && AtRest(After(c, start, schedule)) && IsManned(After(c, start, schedule))
    ensures IsDrained(After(c, start, schedule))
  {
    PipelineSafety.QuietStateIsSettled(c, start, schedule);
  }

  /** So does every run that has come to a stand. */
  lemma StandIsDrained(c: Config, start: State, schedule: seq<Action>)
    requires Init(start) && IsManned(After(c, start, schedule))
    requires forall a :: !Stepping(c, After(c, start, schedule), a)
    ensures IsDrained(After(c, start, schedule))
  {
    AtRestIff(c, start, schedule);
    RestIsDrained(c, start, schedule);
  }

  /** A run that leaves a worker, and at most n EPCs in the window. */
  ghost predicate LeavesAWorker(c: Config, n: nat, start: State, schedule: seq<Action>) {
    var s := After(c, start, schedule);
    Init(start) && IsManned(s) && |s.recentSeen| <= n
  }

  function LeftAfter(c: Config, n: nat, start: State, schedule: seq<Action>): nat {
    Remaining(c, n, After(c, start, schedule))
  }

  /** The threads alone can drain the pipeline. */
  ghost predicate CanDrain(c: Config, start: State, schedule: seq<Action>) {
    exists rest :: NoInput(rest) && NoStop(rest) && IsDrained(After(c, start, schedule + rest))
  }

  lemma DrainsAtRest(c: Config, n: nat, start: State, schedule: seq<Action>)
    requires LeavesAWorker(c, n, start, schedule) && AtRest(After(c, start, schedule))
    ensures CanDrain(c, start, schedule)
  {
    RestIsDrained(c, start, schedule);
    assert schedule + [] == schedule;
    assert NoInput([]) && NoStop([]);
  }

  lemma OneMoreStep(c: Config, n: nat, start: State, schedule: seq<Action>) returns (a: Action)
    requires LeavesAWorker(c, n, start, schedule) && !AtRest(After(c, start, schedule))
    ensures !IsInput(a) && !IsStop(a)
    ensures LeavesAWorker(c, n, start, schedule + [a])
    ensures LeftAfter(c, n, start, schedule + [a]) < LeftAfter(c, n, start, schedule)
  {
    var s := After(c, start, schedule);
    a := SomethingCanMove(c, start, schedule);
    MoveLowers(c, n, s, a);
    StaysManned(c, s, a);
    Sequential.AfterBoth(c, start, schedule, [a]);
    Sequential.AfterOne(c, s, a);
  }

  lemma DrainsOneEarlier(c: Config, start: State, schedule: seq<Action>, a: Action)
    requires !IsInput(a) && !IsStop(a) && CanDrain(c, start, schedule + [a])
    ensures CanDrain(c, start, schedule)
  {
    var more :| NoInput(more) && NoStop(more) && IsDrained(After(c, start, schedule + [a] + more));
    assert schedule + [a] + more == schedule + ([a] + more);
    assert NoInput([a] + more) && NoStop([a] + more);
  }

  lemma {:induction false} DrainsFrom(c: Config, n: nat, start: State, schedule: seq<Action>)
    requires LeavesAWorker(c, n, start, schedule)
    ensures CanDrain(c, start, schedule)
    decreases LeftAfter(c, n, start, schedule)
  {
    if AtRest(After(c, start, schedule)) {
      DrainsAtRest(c, n, start, schedule);
    } else {
      var a := OneMoreStep(c, n, start, schedule);
      DrainsFrom(c, n, start, schedule + [a]);
      DrainsOneEarlier(c, start, schedule, a);
    }
  }

  /** From every reachable state with a worker left, the threads alone can drain the pipeline, without any
      input. By RunsDown and StandIsDrained, they do so whichever way they go on. */
  lemma AlwaysDrains(c: Config, start: State, schedule: seq<Action>)
    requires Init(start) && IsManned(After(c, start, schedule))
    ensures CanDrain(c, start, schedule)
  {
    DrainsFrom(c, |After(c, start, schedule).recentSeen|, start, schedule);
  }
}
