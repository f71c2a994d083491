/**
 What the pipeline does not guarantee, and exactly when: an EPC queued and in
 flight at once, and a draft submitted again after it has left the cache.
 */
module PipelineLimits {
  import opened Dedup
  import opened Epcs
  import opened Pipeline
  import opened PipelineDrafts
  import PipelineSafety
  import Sequential

  // ----- Queued and in flight at once -----

  predicate Overlaps(s: State, e: Epc) {
    e in s.queued && e in s.inflight
  }

  /** The step locks e for a worker. */
  predicate IsLockOf(s: State, a: Action, e: Epc) {
    && a.ByWorker? && a.workerStep.LockInflight? && a.j < |s.workers| && s.workers[a.j] == Present(e)
    && !MutexHeld(s)
  }

  /** An EPC comes to be queued and in flight at once exactly when a worker locks it while it is queued
      again: a reservation is refused while the EPC is in flight, but a lock does not look at queued. */
  lemma OverlapBeginsIff(c: Config, s: State, a: Action, e: Epc)
    requires !Overlaps(s, e)
    ensures Overlaps(Moves(c, s, a), e) <==> IsLockOf(s, a, e) && e in s.queued
  {}

  // ----- Submitted again -----

  /** The step submits e and is answered that this succeeded. */
  predicate SubmitsNow(s: State, a: Action, e: Epc) {
    && a.ByWorker? && a.workerStep == Submit(Submitted)
    && a.j < |s.workers| && s.workers[a.j].Submitting? && s.workers[a.j].epc == e
  }

  function SubmitsSoFar(c: Config, s: State, schedule: seq<Action>): nat {
    After(c, s, schedule).history.work.submits
  }

  /** Without any new draft, e can still come to be submitted, which is counted. */
  ghost predicate CanBeSubmitted(c: Config, s: State, e: Epc) {
    exists schedule, a ::
      && NoDraftsIn(schedule) && SubmitsNow(After(c, s, schedule), a, e)
      && SubmitsSoFar(c, s, schedule + [a]) == SubmitsSoFar(c, s, schedule) + 1
  }

  lemma SubmitTakesPlace(c: Config, s: State, schedule: seq<Action>, a: Action, e: Epc)
    requires NoDraftsIn(schedule) && SubmitsNow(After(c, s, schedule), a, e)
    ensures CanBeSubmitted(c, s, e)
  {
    Sequential.AfterBoth(c, s, schedule, [a]);
    Sequential.AfterOne(c, After(c, s, schedule), a);
    assert SubmitsSoFar(c, s, schedule + [a]) == SubmitsSoFar(c, s, schedule) + 1;
  }

  predicate SomeoneMaySubmit(s: State, e: Epc) {
    exists j :: 0 <= j < |s.workers| && MaySubmit(s.workers[j], e)
  }

  lemma SubmitterIsNotNew(c: Config, s: State, schedule: seq<Action>, a: Action, e: Epc)
    requires e !in s.cache && NoDraftsIn(schedule) && SubmitsNow(After(c, s, schedule), a, e)
    ensures SomeoneMaySubmit(s, e)
  {
    PipelineSafety.ThreadsStay(c, s, schedule);
    NoNewSubmitters(c, s, schedule, e, a.j);
    assert MaySubmit(s.workers[a.j], e);
  }

  // ----- Driving the system to a submit -----

  /** The same workers, locks and cache, and the mutex is free. */
  predicate Freed(s: State, t: State) {
    t.workers == s.workers && t.inflight == s.inflight && t.cache == s.cache && !MutexHeld(t)
  }

  lemma {:induction false} AskingBringsNoDrafts(i: nat, epcs: seq<Epc>)
    ensures NoDraftsIn(Sequential.Asking(i, epcs))
  {
    if epcs != [] {
      AskingBringsNoDrafts(i, epcs[..|epcs| - 1]);
    }
  }

  /** Whoever holds the mutex can finish its loop and release it. */
  lemma FreeTheMutex(c: Config, s: State) returns (schedule: seq<Action>)
    requires PipelineSafety.OnePicker(s)
    ensures NoDraftsIn(schedule) && Freed(s, After(c, s, schedule))
  {
    if i :| 0 <= i < |s.callers| && s.callers[i].Picking? {
      var Picking(pending, found, guarded) := s.callers[i];
      var replay := Sequential.SomeOrder(set e | e in pending && Picked(s.cache, e) == [e]);
      var others := Sequential.SomeOrder(pending - Elements(replay));
      forall e | e in replay ensures Picked(s.cache, e) == [e] {
        assert e in Elements(replay);
      }
      forall e | e in others ensures Picked(s.cache, e) == [] {
        assert e in Elements(others);
      }
      assert Elements(replay) + Elements(others) == pending;
      schedule := Sequential.LoopSteps(i, replay, others);
      AskingBringsNoDrafts(i, replay);
      AskingBringsNoDrafts(i, others);
      Sequential.LoopAlone(c, s, i, found, guarded, replay, others);
      OnlyPickerDone(s, i, After(c, s, schedule));
    } else {
      schedule := [];
    }
  }

  lemma OnlyPickerDone(s: State, i: nat, t: State)
    requires i < |s.callers| && PipelineSafety.OnePicker(s) && s.callers[i].Picking?
    requires |t.callers| == |s.callers| && t.callers == s.callers[i := t.callers[i]] && !t.callers[i].Picking?
    ensures !MutexHeld(t)
  {
    forall k | 0 <= k < |t.callers| ensures !t.callers[k].Picking? {
      assert k != i ==> t.callers[k] == s.callers[k];
    }
  }

  /** A worker that holds a lock and makes no further attempt. */
  predicate WindsUp(c: Config, worker: Worker) {
    PipelineSafety.HoldsLock(worker) && !worker.Submitting? && PipelineSafety.InOrder(c, worker)
  }

  lemma FinishFrees(c: Config, s: State, k: nat)
    requires Sequential.WorkerFree(s, k) && WindsUp(c, s.workers[k])
    ensures var t := After(c, s, Sequential.FinishSteps(k));
            && t.workers == s.workers[k := Waiting] && t.callers == s.callers
            && t.inflight == s.inflight - {s.workers[k].epc}
  {
    var here := s.workers[k];
    match here
    case Removing(epc, replies) => Sequential.FinishAlone(c, s, k, epc, replies);
    case Failing(epc, replies) => Sequential.FinishAlone(c, s, k, epc, replies);
    case _ => CountAndUnlock(c, s, k);
  }

  /** The rest of the way, from a counted or uncounted result. */
  lemma CountAndUnlock(c: Config, s: State, k: nat)
    requires Sequential.WorkerFree(s, k) && WindsUp(c, s.workers[k])
    requires s.workers[k].Counting? || s.workers[k].Unlocking?
    ensures var t := After(c, s, Sequential.FinishSteps(k));
            && t.workers == s.workers[k := Waiting] && t.callers == s.callers
            && t.inflight == s.inflight - {s.workers[k].epc}
  {
    var steps := [ByWorker(k, RemoveFromCache), ByWorker(k, CountResult), ByWorker(k, CountError)];
    Sequential.WorkerUnblocked(c, s, k, RemoveFromCache);
    var a := WorkerMoves(c, s, k, RemoveFromCache);
    Sequential.WorkerUnblocked(c, a, k, CountResult);
    var b := WorkerMoves(c, a, k, CountResult);
    Sequential.WorkerUnblocked(c, b, k, CountError);
    var d := WorkerMoves(c, b, k, CountError);
    Sequential.WorkerUnblocked(c, d, k, UnlockInflight);
    Sequential.AfterThree(c, s, steps[0], steps[1], steps[2]);
    Sequential.AfterOne(c, d, ByWorker(k, UnlockInflight));
    Sequential.AfterBoth(c, s, steps, [ByWorker(k, UnlockInflight)]);
    assert a == s;
    assert d.workers[k] == Unlocking(s.workers[k].epc);
  }

  /** If nobody is about to submit e, the lock on it can be released, and the worker that has found it in
      the cache still has it in hand. */
  lemma ReleaseTheLock(c: Config, s: State, j: nat, e: Epc) returns (schedule: seq<Action>)
    requires PipelineSafety.Invariant(c, s) && Sequential.WorkerFree(s, j) && s.workers[j] == Present(e)
    requires forall k | 0 <= k < |s.workers| && s.workers[k].Submitting? :: s.workers[k].epc != e
    ensures NoDraftsIn(schedule)
    ensures var t := After(c, s, schedule);
            Sequential.WorkerFree(t, j) && t.workers[j] == Present(e) && e !in t.inflight
  {
    PipelineSafety.LockedByWhom(s, e);
    if e in s.inflight {
      var k :| 0 <= k < |s.workers| && PipelineSafety.HoldsLock(s.workers[k]) && s.workers[k].epc == e;
      schedule := Sequential.FinishSteps(k);
      FinishFrees(c, s, k);
    } else {
      schedule := [];
    }
  }

  lemma PresentCanSubmit(c: Config, s: State, j: nat, e: Epc) returns (schedule: seq<Action>, a: Action)
    requires PipelineSafety.Invariant(c, s) && Sequential.WorkerFree(s, j) && s.workers[j] == Present(e)
    ensures NoDraftsIn(schedule) && SubmitsNow(After(c, s, schedule), a, e)
  {
    if k :| 0 <= k < |s.workers| && s.workers[k].Submitting? && s.workers[k].epc == e {
      schedule, a := [], ByWorker(k, Submit(Submitted));
    } else {
      var first := ReleaseTheLock(c, s, j, e);
      var last := [ByWorker(j, LockInflight)];
      schedule, a := first + last, ByWorker(j, Submit(Submitted));
      Sequential.AfterBoth(c, s, first, last);
      Sequential.LockAlone(c, After(c, s, first), j);
      NoDraftsInBoth(first, last);
    }
  }

  lemma MaySubmitCanSubmit(c: Config, start: State, before: seq<Action>, e: Epc, j: nat)
    requires PipelineSafety.OnePicker(After(c, start, before)) && Init(start)
    requires var s := After(c, start, before); j < |s.workers| && MaySubmit(s.workers[j], e)
    ensures CanBeSubmitted(c, After(c, start, before), e)
  {
    var s := After(c, start, before);
    if s.workers[j].Submitting? {
      SubmitTakesPlace(c, s, [], ByWorker(j, Submit(Submitted)), e);
    } else {
      var first := FreeTheMutex(c, s);
      Sequential.AfterBoth(c, start, before, first);
      PipelineSafety.AlwaysInvariant(c, start, before + first);
      var rest, a := PresentCanSubmit(c, After(c, s, first), j, e);
      Sequential.AfterBoth(c, s, first, rest);
      NoDraftsInBoth(first, rest);
      SubmitTakesPlace(c, s, first + rest, a, e);
    }
  }

  /** An EPC that is out of the cache can still be submitted, without any new draft, exactly when some worker
      has found it in the cache earlier and has not yet locked it or has it under submission. So in every
      reachable state, this says whether a draft that has been settled may be submitted once more. */
  lemma SubmittedAgainIff(c: Config, start: State, before: seq<Action>, e: Epc)
    requires Init(start) && e !in After(c, start, before).cache
    ensures CanBeSubmitted(c, After(c, start, before), e) <==> SomeoneMaySubmit(After(c, start, before), e)
  {
    var s := After(c, start, before);
    if CanBeSubmitted(c, s, e) {
      var schedule, a :| NoDraftsIn(schedule) && SubmitsNow(After(c, s, schedule), a, e);
      SubmitterIsNotNew(c, s, schedule, a, e);
    }
    if SomeoneMaySubmit(s, e) {
      var j :| 0 <= j < |s.workers| && MaySubmit(s.workers[j], e);
      PipelineSafety.MutexIsExclusive(c, start, before);
      MaySubmitCanSubmit(c, start, before, e, j);
    }
  }

  // ----- It happens -----

  /** A scan that is on, a draft in the cache, one caller and some workers, none of them busy. */
  function Ready(e: Epc, workers: nat): State {
    State([], {}, {}, {e}, map[], true, NO_STATS, NO_HISTORY, [Resting], seq(workers, _ => Waiting))
  }

  /** A tag is handled and its EPC put into the empty channel. */
  lemma HandleOnce(c: Config, s: State, e: Epc) returns (steps: seq<Action>)
    requires c.queueSize > 0 && e != "" && s.scanActive && s.callers == [Resting]
    requires s.channel == [] && e in s.cache && e !in s.queued && e !in s.inflight
    ensures NoDraftsIn(steps)
    ensures var t := After(c, s, steps);
            && t.channel == [e] && t.queued == s.queued + {e} && t.inflight == s.inflight && t.cache == s.cache
            && t.scanActive && t.callers == [Resting] && t.workers == s.workers && t.stats.submits == s.stats.submits
  {
    steps := Sequential.HandleSteps(0, e, 0);
    Sequential.HandleAlone(c, s, 0, e, 0);
  }

  /** A worker receives an EPC and finds it in the cache. */
  lemma ProbeOnce(c: Config, s: State, j: nat, e: Epc)
    requires Sequential.WorkerFree(s, j) && s.workers[j] == Waiting && s.channel == [e] && e != "" && e in s.cache
    ensures var t := After(c, s, Sequential.ProbeSteps(j));
            && t.channel == [] && t.queued == s.queued - {e} && t.inflight == s.inflight && t.cache == s.cache
            && t.scanActive == s.scanActive && t.callers == s.callers && t.workers == s.workers[j := Present(e)]
            && t.stats == s.stats
  {
    Sequential.ProbeAlone(c, s, j);
  }

  /** From the point where worker 0 has found the EPC in the cache and the EPC is queued again. */
  lemma FoundAndQueuedAgain(c: Config, e: Epc, workers: nat) returns (schedule: seq<Action>)
    requires c.queueSize > 0 && e != "" && workers > 0
    ensures NoDraftsIn(schedule)
    ensures var s := After(c, Ready(e, workers), schedule);
            && s.channel == [e] && s.queued == {e} && s.inflight == {} && s.cache == {e} && s.callers == [Resting]
            && s.workers == Ready(e, workers).workers[0 := Present(e)] && s.stats.submits == NO_STATS.submits
  {
    var start := Ready(e, workers);
    var first := HandleOnce(c, start, e);
    var s := After(c, start, first);
    ProbeOnce(c, s, 0, e);
    var t := After(c, s, Sequential.ProbeSteps(0));
    var second := HandleOnce(c, t, e);
    schedule := first + (Sequential.ProbeSteps(0) + second);
    Sequential.AfterBoth(c, start, first, Sequential.ProbeSteps(0) + second);
    Sequential.AfterBoth(c, s, Sequential.ProbeSteps(0), second);
    assert {} + {e} - {e} + {e} == {e};
  }

  /** One caller and one worker are enough to queue an EPC again while it is in flight. */
  lemma OverlapHappens(c: Config, e: Epc) returns (schedule: seq<Action>)
    requires c.queueSize > 0 && e != ""
    ensures Init(Ready(e, 1)) && Overlaps(After(c, Ready(e, 1), schedule), e)
  {
    var before := FoundAndQueuedAgain(c, e, 1);
    var s := After(c, Ready(e, 1), before);
    schedule := before + [ByWorker(0, LockInflight)];
    Sequential.AfterBoth(c, Ready(e, 1), before, [ByWorker(0, LockInflight)]);
    Sequential.LockAlone(c, s, 0);
  }

  /** A worker that has found the EPC in the cache locks it and submits it at the first attempt. */
  lemma DeliverOnce(c: Config, s: State, j: nat, e: Epc) returns (steps: seq<Action>)
    requires Sequential.WorkerFree(s, j) && s.workers[j] == Present(e) && e !in s.inflight
    ensures NoDraftsIn(steps)
    ensures var t := After(c, s, steps);
            && t.workers == s.workers[j := Waiting] && t.callers == s.callers && t.inflight == s.inflight
            && t.stats.submits.submittedOK == s.stats.submits.submittedOK + 1
  {
    var erp: nat -> Reply := _ => Submitted;
    var lock := [ByWorker(j, LockInflight)];
    var deliver := Sequential.SubmitSteps(c, j, erp, 0) + Sequential.FinishSteps(j);
    steps := lock + deliver;
    Sequential.LockAlone(c, s, j);
    Sequential.DeliverAlone(c, After(c, s, lock), j, e, erp);
    Sequential.AfterBoth(c, s, lock, deliver);
    assert s.inflight + {e} - {e} == s.inflight;
  }

  /** Two workers can both submit one draft successfully, one after the other: the second one had found
      it in the cache before the first one locked it. */
  lemma DraftSubmittedTwice(c: Config, e: Epc) returns (schedule: seq<Action>)
    requires c.queueSize > 0 && e != ""
    ensures Init(Ready(e, 2)) && NoDraftsIn(schedule)
    ensures After(c, Ready(e, 2), schedule).stats.submits.submittedOK == 2
  {
    var start := Ready(e, 2);
    var before := FoundAndQueuedAgain(c, e, 2);
    var s := After(c, start, before);
    ProbeOnce(c, s, 1, e);
    var t := After(c, s, Sequential.ProbeSteps(1));
    var once := DeliverOnce(c, t, 0, e);
    var u := After(c, t, once);
    var twice := DeliverOnce(c, u, 1, e);
    schedule := before + (Sequential.ProbeSteps(1) + (once + twice));
    Sequential.AfterBoth(c, start, before, Sequential.ProbeSteps(1) + (once + twice));
    Sequential.AfterBoth(c, s, Sequential.ProbeSteps(1), once + twice);
    Sequential.AfterBoth(c, t, once, twice);
  }
}
