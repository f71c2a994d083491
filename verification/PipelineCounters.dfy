/**
 The counters of the service, told by what has happened: in every reachable
 state, each of them is the number of steps of one kind in the schedule, less
 the threads that have taken such a step and not counted it yet.
 */
module PipelineCounters {
  import opened Threads
  import opened Pipeline
  import PipelineSafety

  datatype Kind = Seen | Inactive | Hits | Misses | Drops | Successes | NotFounds | Errors

  function Shown(stats: Stats, kind: Kind): nat {
    match kind
    case Seen => stats.tags.seenTotal
    case Inactive => stats.tags.scanInactive
    case Hits => stats.tags.cacheHits
    case Misses => stats.tags.cacheMisses
    case Drops => stats.submits.queueDropped
    case Successes => stats.submits.submittedOK
    case NotFounds => stats.submits.submitNotFound
    case Errors => stats.submits.submitErrors
  }

  // ----- What happens in a step -----

  /** A caller's tag is seen, found among the drafts or not, or finds the channel full. */
  predicate CallerDoes(c: Config, kind: Kind, s: State, here: Caller, step: CallerStep) {
    match kind
    case Seen => step.Handle? && here.Resting? && step.handled != ""
    case Inactive => step.Handle? && here.Resting? && step.handled != "" && !s.scanActive
    case Hits => step.AskCache? && here.Looking? && here.epc in s.cache
    case Misses => step.AskCache? && here.Looking? && here.epc !in s.cache
    case Drops => step.Send? && here.Sending? && |s.channel| >= c.queueSize
    case _ => false
  }

  /** A worker's submit is answered that it succeeded, or that there is no such draft, or fails for the
      last time. */
  predicate WorkerDoes(c: Config, kind: Kind, here: Worker, step: WorkerStep) {
    && step.Submit? && here.Submitting?
    && match kind
       case Successes => step.reply == Submitted
       case NotFounds => step.reply == NotFound
       case Errors => step.reply == Failure && |here.replies| == c.submitRetry
       case _ => false
  }

  predicate Happens(c: Config, kind: Kind, s: State, a: Action) {
    && !Blocked(s, a)
    && match a
       case ByCaller(i, step) => i < |s.callers| && CallerDoes(c, kind, s, s.callers[i], step)
       case ByWorker(j, step) => j < |s.workers| && WorkerDoes(c, kind, s.workers[j], step)
  }

  /** How often it happens in a run. */
  function Times(c: Config, kind: Kind, start: State, schedule: seq<Action>): nat {
    if schedule == [] then
      0
    else
      var n := |schedule| - 1;
      Times(c, kind, start, schedule[..n])
      + if Happens(c, kind, After(c, start, schedule[..n]), schedule[n]) then 1 else 0
  }

  // ----- What is still to be counted -----

  function CallerOwes(kind: Kind): Caller -> nat {
    (caller: Caller) =>
      match kind
      case Hits => if caller.Hitting? then 1 else 0
      case Misses => if caller.Missing? then 1 else 0
      case Drops => if caller.Dropping? then 1 else 0
      case _ => 0
  }

  /** The worker has this reply and has not counted it. */
  predicate Owes(worker: Worker, reply: Reply) {
    (worker.Removing? || worker.Counting?) && worker.replies != [] && worker.replies[|worker.replies| - 1] == reply
  }

  function WorkerOwes(kind: Kind): Worker -> nat {
    (worker: Worker) =>
      match kind
      case Successes => if Owes(worker, Submitted) then 1 else 0
      case NotFounds => if Owes(worker, NotFound) then 1 else 0
      case Errors => if worker.Failing? then 1 else 0
      case _ => 0
  }

  // ----- Every step counts what it should -----

  /** What a caller's step counts, and what it leaves to be counted. */
  predicate CallerSettles(c: Config, kind: Kind, s: State, i: nat, step: CallerStep, t: State)
    requires i < |s.callers| && i < |t.callers|
  {
    Shown(t.stats, kind) + CallerOwes(kind)(t.callers[i])
    == Shown(s.stats, kind) + CallerOwes(kind)(s.callers[i])
       + if CallerDoes(c, kind, s, s.callers[i], step) then 1 else 0
  }

  lemma TagIsCounted(c: Config, kind: Kind, s: State, i: nat, step: CallerStep)
    requires i < |s.callers| && i < |CallerMoves(c, s, i, step).callers| && !kind.Drops?
    ensures CallerSettles(c, kind, s, i, step, CallerMoves(c, s, i, step))
  {}

  lemma DropIsCounted(c: Config, s: State, i: nat, step: CallerStep)
    requires i < |s.callers| && i < |CallerMoves(c, s, i, step).callers|
    ensures CallerSettles(c, Drops, s, i, step, CallerMoves(c, s, i, step))
  {}

  lemma CallerCounts(c: Config, kind: Kind, s: State, i: nat, step: CallerStep)
    requires i < |s.callers| && i < |CallerMoves(c, s, i, step).callers|
    ensures CallerSettles(c, kind, s, i, step, CallerMoves(c, s, i, step))
  {
    if kind.Drops? {
      DropIsCounted(c, s, i, step);
    } else {
      TagIsCounted(c, kind, s, i, step);
    }
  }

  /** The same for a worker. */
  predicate WorkerSettles(c: Config, kind: Kind, s: State, j: nat, step: WorkerStep, t: State)
    requires j < |s.workers| && j < |t.workers|
  {
    Shown(t.stats, kind) + WorkerOwes(kind)(t.workers[j])
    == Shown(s.stats, kind) + WorkerOwes(kind)(s.workers[j])
       + if WorkerDoes(c, kind, s.workers[j], step) then 1 else 0
  }

  lemma SubmitIsOwed(c: Config, kind: Kind, s: State, j: nat, reply: Reply)
    requires j < |s.workers| && PipelineSafety.InOrder(c, s.workers[j])
    requires j < |WorkerMoves(c, s, j, Submit(reply)).workers|
    ensures WorkerSettles(c, kind, s, j, Submit(reply), WorkerMoves(c, s, j, Submit(reply)))
  {}

  lemma ResultIsCounted(c: Config, kind: Kind, s: State, j: nat, step: WorkerStep)
    requires j < |s.workers| && PipelineSafety.InOrder(c, s.workers[j]) && !step.Submit?
    requires j < |WorkerMoves(c, s, j, step).workers|
    ensures WorkerSettles(c, kind, s, j, step, WorkerMoves(c, s, j, step))
  {}

  lemma WorkerCounts(c: Config, kind: Kind, s: State, j: nat, step: WorkerStep)
    requires j < |s.workers| && PipelineSafety.InOrder(c, s.workers[j])
    requires j < |WorkerMoves(c, s, j, step).workers|
    ensures WorkerSettles(c, kind, s, j, step, WorkerMoves(c, s, j, step))
  {
    if step.Submit? {
      SubmitIsOwed(c, kind, s, j, step.reply);
    } else {
      ResultIsCounted(c, kind, s, j, step);
    }
  }

  function Owed(kind: Kind, s: State): nat {
    Sum(s.callers, CallerOwes(kind)) + Sum(s.workers, WorkerOwes(kind))
  }

  lemma MoveCounts(c: Config, kind: Kind, s: State, a: Action)
    requires PipelineSafety.Invariant(c, s)
    ensures var t := Moves(c, s, a);
            Shown(t.stats, kind) + Owed(kind, t)
            == Shown(s.stats, kind) + Owed(kind, s) + if Happens(c, kind, s, a) then 1 else 0
  {
    if Blocked(s, a) {
      return;
    }
    var t := Moves(c, s, a);
    match a
    case ByCaller(i, step) =>
      if i < |s.callers| {
        PipelineSafety.CallerStepExchanges(c, s, i, step);
        CallerCounts(c, kind, s, i, step);
        SumMoves(s.callers, CallerOwes(kind), i, t.callers[i]);
      }
    case ByWorker(j, step) =>
      if j < |s.workers| {
        PipelineSafety.OnlyThisWorkerMoves(c, s, j, step);
        WorkerCounts(c, kind, s, j, step);
        SumMoves(s.workers, WorkerOwes(kind), j, t.workers[j]);
      }
  }

  lemma NothingOwed(kind: Kind, s: State)
    requires PipelineSafety.Quiet(s)
    ensures Owed(kind, s) == 0
  {
    SumZero(s.callers, CallerOwes(kind));
    SumZero(s.workers, WorkerOwes(kind));
  }

  lemma {:induction false} CountedOrOwed(c: Config, kind: Kind, start: State, schedule: seq<Action>)
    requires Init(start)
    ensures var s := After(c, start, schedule);
            Shown(s.stats, kind) + Owed(kind, s) == Times(c, kind, start, schedule)
  {
    if schedule == [] {
      NothingOwed(kind, start);
    } else {
      var n := |schedule| - 1;
      CountedOrOwed(c, kind, start, schedule[..n]);
      PipelineSafety.AlwaysInvariant(c, start, schedule[..n]);
      MoveCounts(c, kind, After(c, start, schedule[..n]), schedule[n]);
    }
  }

  /** Each outcome of a submit has its own counter: in every reachable state it shows how many submits were
      answered that way, or failed for the last time, less the workers that have yet to count theirs. */
  lemma SubmitCountersAreExact(c: Config, start: State, schedule: seq<Action>)
    requires Init(start)
    ensures var s := After(c, start, schedule);
            var shown := s.stats.submits;
            && shown.submittedOK + Sum(s.workers, WorkerOwes(Successes)) == Times(c, Successes, start, schedule)
            && shown.submitNotFound + Sum(s.workers, WorkerOwes(NotFounds)) == Times(c, NotFounds, start, schedule)
            && shown.submitErrors + Sum(s.workers, WorkerOwes(Errors)) == Times(c, Errors, start, schedule)
            && shown.queueDropped + Sum(s.callers, CallerOwes(Drops)) == Times(c, Drops, start, schedule)
  {
    var s := After(c, start, schedule);
    forall kind ensures Shown(s.stats, kind) + Owed(kind, s) == Times(c, kind, start, schedule) {
      CountedOrOwed(c, kind, start, schedule);
    }
    SumZero(s.callers, CallerOwes(Successes));
    SumZero(s.callers, CallerOwes(NotFounds));
    SumZero(s.callers, CallerOwes(Errors));
    SumZero(s.workers, WorkerOwes(Drops));
    assert Shown(s.stats, Successes) == s.stats.submits.submittedOK;
    assert Shown(s.stats, NotFounds) == s.stats.submits.submitNotFound;
    assert Shown(s.stats, Errors) == s.stats.submits.submitErrors;
    assert Shown(s.stats, Drops) == s.stats.submits.queueDropped;
  }

  /** And so does each outcome of a tag. */
  lemma TagCountersAreExact(c: Config, start: State, schedule: seq<Action>)
    requires Init(start)
    ensures var s := After(c, start, schedule);
            var shown := s.stats.tags;
            && shown.seenTotal == Times(c, Seen, start, schedule)
            && shown.scanInactive == Times(c, Inactive, start, schedule)
            && shown.cacheHits + Sum(s.callers, CallerOwes(Hits)) == Times(c, Hits, start, schedule)
            && shown.cacheMisses + Sum(s.callers, CallerOwes(Misses)) == Times(c, Misses, start, schedule)
  {
    var s := After(c, start, schedule);
    forall kind ensures Shown(s.stats, kind) + Owed(kind, s) == Times(c, kind, start, schedule) {
      CountedOrOwed(c, kind, start, schedule);
    }
    SumZero(s.callers, CallerOwes(Seen));
    SumZero(s.callers, CallerOwes(Inactive));
    forall kind: Kind | kind.Seen? || kind.Inactive? || kind.Hits? || kind.Misses?
      ensures Sum(s.workers, WorkerOwes(kind)) == 0
    {
      SumZero(s.workers, WorkerOwes(kind));
    }
    assert Shown(s.stats, Seen) == s.stats.tags.seenTotal;
    assert Shown(s.stats, Inactive) == s.stats.tags.scanInactive;
    assert Shown(s.stats, Hits) == s.stats.tags.cacheHits;
    assert Shown(s.stats, Misses) == s.stats.tags.cacheMisses;
  }

  /** When all threads rest, every counter is the number of times that its kind has happened. */
  lemma QuietCountersAreFinal(c: Config, start: State, schedule: seq<Action>, kind: Kind)
    requires Init(start) && PipelineSafety.Quiet(After(c, start, schedule))
    ensures Shown(After(c, start, schedule).stats, kind) == Times(c, kind, start, schedule)
  {
    CountedOrOwed(c, kind, start, schedule);
    NothingOwed(kind, After(c, start, schedule));
  }
}
