/**
 What the submit pipeline guarantees in every state that any schedule of any
 number of threads can reach.
 */
module PipelineSafety {
  import opened Threads
  import opened Epcs
  import opened Pipeline

  // ----- What a thread holds, and what it contributes to the ledger -----

  /** A reservation of e in queued belongs to a caller between reserving and sending or rolling back, ... */
  function CallerHolds(e: Epc): Caller -> nat {
    (caller: Caller) => if (caller.Sending? || caller.Dropping?) && caller.epc == e then 1 else 0
  }

  /** ... or to a slot of the channel, ... */
  function SlotHolds(e: Epc): Epc -> nat {
    (slot: Epc) => if slot == e then 1 else 0
  }

  /** ... or to a worker between receiving and clearing it. */
  function WorkerHolds(e: Epc): Worker -> nat {
    (worker: Worker) => if worker.Received? && worker.epc == e then 1 else 0
  }

  predicate Engaged(worker: Worker) {
    worker.Submitting? || worker.Removing? || worker.Counting? || worker.Failing?
  }

  /** Whether a worker is between lockInflight and unlockInflight for e. */
  function Locks(e: Epc): Worker -> nat {
    (worker: Worker) => if (Engaged(worker) || worker.Unlocking?) && worker.epc == e then 1 else 0
  }

  /** A handler whose tag is counted as seen but not yet as a hit or a miss. */
  function Undecided(caller: Caller): nat {
    if caller.Looking? || caller.Missing? || caller.Hitting? then 1 else 0
  }

  function Refused(caller: Caller): nat {
    if caller.Dropping? then 1 else 0
  }

  /** A worker with an EPC whose outcome is not counted yet. */
  function Unsettled(worker: Worker): nat {
    if worker.Received? || worker.Cleared? || worker.Present? || Engaged(worker) then 1 else 0
  }

  function Submittings(worker: Worker): nat {
    if Engaged(worker) then 1 else 0
  }

  function Answered(worker: Worker): nat {
    if Engaged(worker) then |worker.replies| else 0
  }

  function AttemptsLeft(c: Config): Worker -> nat {
    (worker: Worker) =>
      if worker.Submitting? && |worker.replies| <= c.submitRetry then c.submitRetry + 1 - |worker.replies| else 0
  }

  // ----- The invariant -----

  function Holders(s: State, e: Epc): nat {
    Sum(s.callers, CallerHolds(e)) + Sum(s.channel, SlotHolds(e)) + Sum(s.workers, WorkerHolds(e))
  }

  function Member(e: Epc, epcs: set<Epc>): nat {
    if e in epcs then 1 else 0
  }

  ghost predicate TokensOwned(s: State) {
    forall e :: Holders(s, e) == Member(e, s.queued)
  }

  ghost predicate LocksOwned(s: State) {
    forall e :: Sum(s.workers, Locks(e)) == Member(e, s.inflight)
  }

  function Settled(stats: Stats): nat {
    stats.submits.submittedOK + stats.submits.submitNotFound + stats.submits.submitErrors
  }

  predicate Balanced(s: State) {
    Adds(s, Sum(s.workers, Unsettled), Sum(s.workers, Submittings), Sum(s.callers, Refused), Sum(s.callers, Undecided))
  }

  /** The ledger, given how many threads are between two counts. */
  predicate Adds(s: State, unsettled: nat, submittings: nat, refused: nat, undecided: nat) {
    && s.history.queue.sends == |s.channel| + s.history.queue.receives
    && s.history.queue.receives == unsettled + s.history.work.skips + Settled(s.stats)
    && s.history.queue.refusals == s.stats.submits.queueDropped + refused
    && s.stats.tags.seenTotal == Decided(s.stats) + undecided
    && s.history.work.acquisitions == submittings + Settled(s.stats)
  }

  /** The replies of a worker: at most submitRetry + 1, and only the last one can be terminal. */
  predicate InOrder(c: Config, worker: Worker) {
    Engaged(worker) ==>
      && (forall k | 0 <= k < |worker.replies| - 1 :: !Terminal(worker.replies[k]))
      && (worker.Submitting? ==> |worker.replies| <= c.submitRetry && forall r | r in worker.replies :: !Terminal(r))
      && (worker.Removing? || worker.Counting? ==>
            0 < |worker.replies| <= c.submitRetry + 1 && Terminal(worker.replies[|worker.replies| - 1]))
      && (worker.Failing? ==>
            |worker.replies| == c.submitRetry + 1 && forall r | r in worker.replies :: !Terminal(r))
  }

  predicate EffortBounded(c: Config, s: State) {
    && (forall j | 0 <= j < |s.workers| :: InOrder(c, s.workers[j]))
    && Settled(s.stats) + Sum(s.workers, Answered) <= s.history.work.submits
    && s.history.work.submits + Sum(s.workers, AttemptsLeft(c)) <= s.history.work.acquisitions * (c.submitRetry + 1)
  }

  ghost predicate Invariant(c: Config, s: State) {
    && |s.channel| <= c.queueSize
    && TokensOwned(s)
    && LocksOwned(s)
    && Balanced(s)
    && EffortBounded(c, s)
  }

  // ----- Every step keeps it -----

  function Decided(stats: Stats): nat {
    stats.tags.scanInactive + stats.tags.cacheHits + stats.tags.cacheMisses
  }

  /** A caller's step, seen from outside: only that caller moved, and what it gave up or took on shows up
      in the channel ... */
  predicate CallerExchanges(s: State, i: nat, t: State)
    requires i < |s.callers|
  {
    && |t.callers| == |s.callers| && t.callers == s.callers[i := t.callers[i]]
    && t.workers == s.workers && t.inflight == s.inflight
    && t.channel == s.channel + Sent(s, i, t)
    && t.history.queue.sends == s.history.queue.sends + |Sent(s, i, t)|
  }

  /** ... or in a counter, of drops ... */
  predicate CallerCountsDrop(s: State, i: nat, t: State)
    requires i < |s.callers| && i < |t.callers|
  {
    t.history.queue.refusals + s.stats.submits.queueDropped + Refused(s.callers[i])
    == s.history.queue.refusals + t.stats.submits.queueDropped + Refused(t.callers[i])
  }

  /** ... or of tags. */
  predicate CallerCountsTag(s: State, i: nat, t: State)
    requires i < |s.callers| && i < |t.callers|
  {
    t.stats.tags.seenTotal + Decided(s.stats) + Undecided(s.callers[i])
    == s.stats.tags.seenTotal + Decided(t.stats) + Undecided(t.callers[i])
  }

  predicate CallerDoesNoWork(s: State, t: State) {
    && t.history.work == s.history.work && t.history.queue.receives == s.history.queue.receives
    && Settled(t.stats) == Settled(s.stats)
  }

  predicate CallerIsCounted(s: State, i: nat, t: State)
    requires i < |s.callers| && i < |t.callers|
  {
    CallerCountsDrop(s, i, t) && CallerCountsTag(s, i, t) && CallerDoesNoWork(s, t)
  }

  function Sent(s: State, i: nat, t: State): seq<Epc>
    requires i < |s.callers|
  {
    if |t.channel| == |s.channel| + 1 && s.callers[i].Sending? then [s.callers[i].epc] else []
  }

  /** The caller's reservation of e moves between queued, the caller and the channel. */
  predicate CallerPasses(s: State, i: nat, t: State, e: Epc)
    requires i < |s.callers| && i < |t.callers|
  {
    Member(e, t.queued) + CallerHolds(e)(s.callers[i])
    == Member(e, s.queued) + CallerHolds(e)(t.callers[i]) + if e in Sent(s, i, t) then 1 else 0
  }

  lemma CallerStepExchanges(c: Config, s: State, i: nat, step: CallerStep)
    requires i < |s.callers|
    ensures CallerExchanges(s, i, CallerMoves(c, s, i, step))
    ensures |s.channel| <= c.queueSize ==> |CallerMoves(c, s, i, step).channel| <= c.queueSize
  {
    assert s.channel + [] == s.channel;
  }

  lemma CallerStepCountsDrop(c: Config, s: State, i: nat, step: CallerStep)
    requires i < |s.callers|
    ensures CallerCountsDrop(s, i, CallerMoves(c, s, i, step))
  {}

  lemma CallerStepCountsTag(c: Config, s: State, i: nat, step: CallerStep)
    requires i < |s.callers|
    ensures CallerCountsTag(s, i, CallerMoves(c, s, i, step))
  {}

  lemma CallerStepDoesNoWork(c: Config, s: State, i: nat, step: CallerStep)
    requires i < |s.callers|
    ensures CallerDoesNoWork(s, CallerMoves(c, s, i, step))
  {}

  lemma CallerStepPasses(c: Config, s: State, i: nat, step: CallerStep, e: Epc)
    requires i < |s.callers| && CallerHolds(e)(s.callers[i]) <= Member(e, s.queued)
    ensures CallerPasses(s, i, CallerMoves(c, s, i, step), e)
  {
  }

  /** The same for a worker. */
  predicate WorkerExchanges(s: State, j: nat, t: State)
    requires j < |s.workers|
  {
    && |t.workers| == |s.workers| && t.workers == s.workers[j := t.workers[j]]
    && t.callers == s.callers
    && s.channel == Taken(s, j, t) + t.channel
    && t.history.queue.receives == s.history.queue.receives + |Taken(s, j, t)|
  }

  predicate WorkerCountsOutcome(s: State, j: nat, t: State)
    requires j < |s.workers| && j < |t.workers|
  {
    t.history.queue.receives + s.history.work.skips + Settled(s.stats) + Unsettled(s.workers[j])
    == s.history.queue.receives + t.history.work.skips + Settled(t.stats) + Unsettled(t.workers[j])
  }

  predicate WorkerCountsAcquisition(s: State, j: nat, t: State)
    requires j < |s.workers| && j < |t.workers|
  {
    t.history.work.acquisitions + Settled(s.stats) + Submittings(s.workers[j])
    == s.history.work.acquisitions + Settled(t.stats) + Submittings(t.workers[j])
  }

  predicate WorkerSeesNoTag(s: State, t: State) {
    && t.history.queue.sends == s.history.queue.sends && t.history.queue.refusals == s.history.queue.refusals
    && t.stats.tags == s.stats.tags && t.stats.submits.queueDropped == s.stats.submits.queueDropped
  }

  predicate WorkerIsCounted(s: State, j: nat, t: State)
    requires j < |s.workers| && j < |t.workers|
  {
    WorkerCountsOutcome(s, j, t) && WorkerCountsAcquisition(s, j, t) && WorkerSeesNoTag(s, t)
  }

  function Taken(s: State, j: nat, t: State): seq<Epc>
    requires j < |s.workers| && j < |t.workers|
  {
    if s.workers[j].Waiting? && t.workers[j].Received? then [t.workers[j].epc] else []
  }

  predicate WorkerPasses(s: State, j: nat, t: State, e: Epc)
    requires j < |s.workers| && j < |t.workers|
  {
    Member(e, t.queued) + WorkerHolds(e)(s.workers[j]) + (if e in Taken(s, j, t) then 1 else 0)
    == Member(e, s.queued) + WorkerHolds(e)(t.workers[j])
  }

  predicate WorkerRelocks(s: State, j: nat, t: State, e: Epc)
    requires j < |s.workers| && j < |t.workers|
  {
    Member(e, t.inflight) + Locks(e)(s.workers[j]) == Member(e, s.inflight) + Locks(e)(t.workers[j])
  }

  predicate WorkerWorks(c: Config, s: State, j: nat, t: State)
    requires j < |s.workers| && j < |t.workers|
  {
    && Settled(t.stats) + Answered(t.workers[j]) + s.history.work.submits
       <= Settled(s.stats) + Answered(s.workers[j]) + t.history.work.submits
    && t.history.work.acquisitions == s.history.work.acquisitions + Begun(s, j, t)
    && t.history.work.submits + AttemptsLeft(c)(t.workers[j])
       <= s.history.work.submits + AttemptsLeft(c)(s.workers[j]) + if Begun(s, j, t) == 1 then c.submitRetry + 1 else 0
  }

  /** Whether the step is an acquisition. */
  function Begun(s: State, j: nat, t: State): nat
    requires j < |s.workers| && j < |t.workers|
  {
    if s.workers[j].Present? && t.workers[j].Submitting? then 1 else 0
  }

  lemma OnlyThisWorkerMoves(c: Config, s: State, j: nat, step: WorkerStep)
    requires j < |s.workers|
    ensures var t := WorkerMoves(c, s, j, step);
            && |t.workers| == |s.workers| && t.workers == s.workers[j := t.workers[j]]
            && t.callers == s.callers
  {}

  lemma OnlyReceiveTakes(c: Config, s: State, j: nat, step: WorkerStep)
    requires j < |s.workers|
    ensures var t := WorkerMoves(c, s, j, step);
            if step.Receive? && s.workers[j].Waiting? && s.channel != [] then
              && t.workers[j] == Received(s.channel[0]) && t.channel == s.channel[1..]
              && t.history.queue.receives == s.history.queue.receives + 1
            else
              && !(s.workers[j].Waiting? && t.workers[j].Received?) && t.channel == s.channel
              && t.history.queue.receives == s.history.queue.receives
  {}

  lemma WorkerStepExchanges(c: Config, s: State, j: nat, step: WorkerStep)
    requires j < |s.workers|
    ensures WorkerExchanges(s, j, WorkerMoves(c, s, j, step))
  {
    OnlyThisWorkerMoves(c, s, j, step);
    OnlyReceiveTakes(c, s, j, step);
    TakenIsFront(s, j, WorkerMoves(c, s, j, step));
  }

  lemma TakenIsFront(s: State, j: nat, t: State)
    requires j < |s.workers| && j < |t.workers|
    requires
      if s.workers[j].Waiting? && t.workers[j].Received? then
        s.channel != [] && t.workers[j].epc == s.channel[0] && t.channel == s.channel[1..]
      else
        t.channel == s.channel
    ensures s.channel == Taken(s, j, t) + t.channel
  {}

  lemma WorkerStepCountsOutcome(c: Config, s: State, j: nat, step: WorkerStep)
    requires j < |s.workers|
    ensures WorkerCountsOutcome(s, j, WorkerMoves(c, s, j, step))
  {}

  lemma WorkerStepCountsAcquisition(c: Config, s: State, j: nat, step: WorkerStep)
    requires j < |s.workers|
    ensures WorkerCountsAcquisition(s, j, WorkerMoves(c, s, j, step))
  {}

  lemma WorkerStepSeesNoTag(c: Config, s: State, j: nat, step: WorkerStep)
    requires j < |s.workers|
    ensures WorkerSeesNoTag(s, WorkerMoves(c, s, j, step))
  {}

  lemma WorkerStepPasses(c: Config, s: State, j: nat, step: WorkerStep, e: Epc)
    requires j < |s.workers| && WorkerHolds(e)(s.workers[j]) <= Member(e, s.queued)
    ensures WorkerPasses(s, j, WorkerMoves(c, s, j, step), e)
  {}

  lemma WorkerStepRelocks(c: Config, s: State, j: nat, step: WorkerStep, e: Epc)
    requires j < |s.workers| && Locks(e)(s.workers[j]) <= Member(e, s.inflight)
    ensures WorkerRelocks(s, j, WorkerMoves(c, s, j, step), e)
  {}

  lemma WorkerStaysInOrder(c: Config, s: State, j: nat, step: WorkerStep)
    requires j < |s.workers| && InOrder(c, s.workers[j])
    ensures InOrder(c, WorkerMoves(c, s, j, step).workers[j])
  {}

  lemma WorkerStepWorks(c: Config, s: State, j: nat, step: WorkerStep)
    requires j < |s.workers| && InOrder(c, s.workers[j])
    ensures WorkerWorks(c, s, j, WorkerMoves(c, s, j, step))
  {}

  // ----- From one thread to the whole system -----

  lemma AtMostOneSlot(slots: seq<Epc>, e: Epc)
    requires |slots| <= 1
    ensures Sum(slots, SlotHolds(e)) == if e in slots then 1 else 0
  {
    if slots != [] {
      assert slots[..0] == [];
    }
  }

  lemma CallerMoveKeepsTokens(s: State, i: nat, t: State, e: Epc)
    requires i < |s.callers| && CallerExchanges(s, i, t) && CallerPasses(s, i, t, e)
    requires Holders(s, e) == Member(e, s.queued)
    ensures Holders(t, e) == Member(e, t.queued)
  {
    SumMoves(s.callers, CallerHolds(e), i, t.callers[i]);
    SumConcat(s.channel, Sent(s, i, t), SlotHolds(e));
    AtMostOneSlot(Sent(s, i, t), e);
  }

  lemma WorkerMoveKeepsTokens(s: State, j: nat, t: State, e: Epc)
    requires j < |s.workers| && WorkerExchanges(s, j, t) && WorkerPasses(s, j, t, e)
    requires Holders(s, e) == Member(e, s.queued)
    ensures Holders(t, e) == Member(e, t.queued)
  {
    SumMoves(s.workers, WorkerHolds(e), j, t.workers[j]);
    SumConcat(Taken(s, j, t), t.channel, SlotHolds(e));
    AtMostOneSlot(Taken(s, j, t), e);
  }

  lemma CallerMoveKeepsBalance(s: State, i: nat, t: State)
    requires i < |s.callers| && CallerExchanges(s, i, t) && CallerIsCounted(s, i, t) && Balanced(s)
    ensures Balanced(t)
  {
    SumMoves(s.callers, Refused, i, t.callers[i]);
    SumMoves(s.callers, Undecided, i, t.callers[i]);
  }

  lemma WorkerMoveKeepsBalance(s: State, j: nat, t: State)
    requires j < |s.workers| && WorkerExchanges(s, j, t) && WorkerIsCounted(s, j, t) && Balanced(s)
    ensures Balanced(t)
  {
    SumMoves(s.workers, Unsettled, j, t.workers[j]);
    SumMoves(s.workers, Submittings, j, t.workers[j]);
  }

  lemma WorkerMoveKeepsEffort(c: Config, s: State, j: nat, t: State)
    requires j < |s.workers| && WorkerExchanges(s, j, t) && WorkerWorks(c, s, j, t)
    requires EffortBounded(c, s) && InOrder(c, t.workers[j])
    ensures EffortBounded(c, t)
  {
    SumMoves(s.workers, Answered, j, t.workers[j]);
    SumMoves(s.workers, AttemptsLeft(c), j, t.workers[j]);
    assert (s.history.work.acquisitions + 1) * (c.submitRetry + 1)
        == s.history.work.acquisitions * (c.submitRetry + 1) + (c.submitRetry + 1);
  }

  lemma CallerMoveKeepsInvariant(c: Config, s: State, i: nat, step: CallerStep)
    requires i < |s.callers| && Invariant(c, s)
    ensures Invariant(c, CallerMoves(c, s, i, step))
  {
    var t := CallerMoves(c, s, i, step);
    CallerStepExchanges(c, s, i, step);
    CallerStepCountsDrop(c, s, i, step);
    CallerStepCountsTag(c, s, i, step);
    CallerStepDoesNoWork(c, s, i, step);
    CallerMoveKeepsBalance(s, i, t);
    forall e ensures Holders(t, e) == Member(e, t.queued) {
      SumHas(s.callers, CallerHolds(e), i);
      assert Holders(s, e) == Member(e, s.queued);
      CallerStepPasses(c, s, i, step, e);
      CallerMoveKeepsTokens(s, i, t, e);
    }
  }

  lemma WorkerMoveKeepsInvariant(c: Config, s: State, j: nat, step: WorkerStep)
    requires j < |s.workers| && Invariant(c, s)
    ensures Invariant(c, WorkerMoves(c, s, j, step))
  {
    var t := WorkerMoves(c, s, j, step);
    WorkerStepExchanges(c, s, j, step);
    WorkerStepCountsOutcome(c, s, j, step);
    WorkerStepCountsAcquisition(c, s, j, step);
    WorkerStepSeesNoTag(c, s, j, step);
    WorkerMoveKeepsBalance(s, j, t);
    WorkerStepWorks(c, s, j, step);
    WorkerStaysInOrder(c, s, j, step);
    WorkerMoveKeepsEffort(c, s, j, t);
    forall e ensures Holders(t, e) == Member(e, t.queued) {
      SumHas(s.workers, WorkerHolds(e), j);
      assert Holders(s, e) == Member(e, s.queued);
      WorkerStepPasses(c, s, j, step, e);
      WorkerMoveKeepsTokens(s, j, t, e);
    }
    forall e ensures Sum(t.workers, Locks(e)) == Member(e, t.inflight) {
      SumHas(s.workers, Locks(e), j);
      assert Sum(s.workers, Locks(e)) == Member(e, s.inflight);
      WorkerStepRelocks(c, s, j, step, e);
      SumMoves(s.workers, Locks(e), j, t.workers[j]);
    }
  }

  // ----- All reachable states -----

  lemma InitHoldsNothing(s: State, e: Epc)
    requires Init(s)
    ensures Holders(s, e) == 0 && Sum(s.workers, Locks(e)) == 0
  {
    SumOfSame(s.callers, CallerHolds(e), Resting);
    SumOfSame(s.workers, WorkerHolds(e), Waiting);
    SumOfSame(s.workers, Locks(e), Waiting);
  }

  lemma WaitingCountsNothing(workers: seq<Worker>)
    requires forall j | 0 <= j < |workers| :: workers[j] == Waiting
    ensures Sum(workers, Unsettled) == 0 && Sum(workers, Submittings) == 0
  {
    SumOfSame(workers, Unsettled, Waiting);
    SumOfSame(workers, Submittings, Waiting);
  }

  lemma RestingCountsNothing(callers: seq<Caller>)
    requires forall i | 0 <= i < |callers| :: callers[i] == Resting
    ensures Sum(callers, Refused) == 0 && Sum(callers, Undecided) == 0
  {
    SumOfSame(callers, Refused, Resting);
    SumOfSame(callers, Undecided, Resting);
  }

  lemma InitAdds(s: State)
    requires Init(s)
    ensures Adds(s, 0, 0, 0, 0)
  {}

  lemma InitIsEffortless(c: Config, s: State)
    requires Init(s)
    ensures EffortBounded(c, s)
  {
    SumOfSame(s.workers, Answered, Waiting);
    SumOfSame(s.workers, AttemptsLeft(c), Waiting);
  }

  lemma InitHasInvariant(c: Config, s: State)
    requires Init(s)
    ensures Invariant(c, s)
  {
    forall e ensures Holders(s, e) == Member(e, s.queued) && Sum(s.workers, Locks(e)) == Member(e, s.inflight) {
      InitHoldsNothing(s, e);
    }
    WaitingCountsNothing(s.workers);
    RestingCountsNothing(s.callers);
    InitAdds(s);
    InitIsEffortless(c, s);
  }

  /** Whatever the schedule, and however many threads there are, every reachable state is in order. */
  lemma {:induction false} AlwaysInvariant(c: Config, start: State, schedule: seq<Action>)
    requires Init(start)
    ensures Invariant(c, After(c, start, schedule))
  {
    if schedule == [] {
      InitHasInvariant(c, start);
    } else {
      var n := |schedule| - 1;
      AlwaysInvariant(c, start, schedule[..n]);
      MoveKeepsInvariant(c, After(c, start, schedule[..n]), schedule[n]);
    }
  }

  lemma MoveKeepsInvariant(c: Config, s: State, a: Action)
    requires Invariant(c, s)
    ensures Invariant(c, Moves(c, s, a))
  {
    if Blocked(s, a) {
      return;
    }
    match a
    case ByCaller(i, step) =>
      if i < |s.callers| {
        CallerMoveKeepsInvariant(c, s, i, step);
      }
    case ByWorker(j, step) =>
      if j < |s.workers| {
        WorkerMoveKeepsInvariant(c, s, j, step);
      }
  }

  /** The number of threads never changes. */
  lemma {:induction false} ThreadsStay(c: Config, start: State, schedule: seq<Action>)
    ensures |After(c, start, schedule).callers| == |start.callers|
    ensures |After(c, start, schedule).workers| == |start.workers|
  {
    if schedule != [] {
      ThreadsStay(c, start, schedule[..|schedule| - 1]);
      MoveKeepsThreads(c, After(c, start, schedule[..|schedule| - 1]), schedule[|schedule| - 1]);
    }
  }

  lemma MoveKeepsThreads(c: Config, s: State, a: Action)
    ensures |Moves(c, s, a).callers| == |s.callers| && |Moves(c, s, a).workers| == |s.workers|
  {
    match a
    case ByCaller(i, step) =>
      if i < |s.callers| {
        CallerStepExchanges(c, s, i, step);
      }
    case ByWorker(j, step) =>
      if j < |s.workers| {
        WorkerStepExchanges(c, s, j, step);
      }
  }

  // ----- Token ownership -----

  /** Every EPC in queued is held exactly once, by a caller, a channel slot or a worker, and no other EPC
      is held at all. So the channel has no duplicates. */
  lemma TokenOwnership(c: Config, start: State, schedule: seq<Action>)
    requires Init(start)
    ensures var s := After(c, start, schedule);
            && (forall e :: Holders(s, e) == if e in s.queued then 1 else 0)
            && (forall a, b | 0 <= a < b < |s.channel| :: s.channel[a] != s.channel[b])
            && (forall e | e in s.channel :: e in s.queued)
            && |s.channel| <= c.queueSize
  {
    AlwaysInvariant(c, start, schedule);
    var s := After(c, start, schedule);
    forall a, b | 0 <= a < b < |s.channel| ensures s.channel[a] != s.channel[b] {
      SumHasBoth(s.channel, SlotHolds(s.channel[a]), a, b);
      assert Holders(s, s.channel[a]) <= 1;
    }
    forall e | e in s.channel ensures e in s.queued {
      var a :| 0 <= a < |s.channel| && s.channel[a] == e;
      SumHas(s.channel, SlotHolds(e), a);
      assert Holders(s, e) == Member(e, s.queued);
    }
  }

  function CallerBag(caller: Caller): multiset<Epc> {
    if caller.Sending? || caller.Dropping? then multiset{caller.epc} else multiset{}
  }

  function WorkerBag(worker: Worker): multiset<Epc> {
    if worker.Received? then multiset{worker.epc} else multiset{}
  }

  function LockBag(worker: Worker): multiset<Epc> {
    if Engaged(worker) || worker.Unlocking? then multiset{worker.epc} else multiset{}
  }

  function Reserving(caller: Caller): nat { |CallerBag(caller)| }

  function Clearing(worker: Worker): nat { |WorkerBag(worker)| }

  function Locking(worker: Worker): nat { |LockBag(worker)| }

  lemma {:induction false} ChannelCounts(channel: seq<Epc>, e: Epc)
    ensures multiset(channel)[e] == Sum(channel, SlotHolds(e))
  {
    if channel != [] {
      var n := |channel| - 1;
      assert channel == channel[..n] + [channel[n]];
      ChannelCounts(channel[..n], e);
    }
  }

  /** The size of queued is exactly the channel's length plus the reservations under way, and so at most
      QueueSize plus one for each caller and each worker. */
  lemma QueuedSize(c: Config, start: State, schedule: seq<Action>)
    requires Init(start)
    ensures var s := After(c, start, schedule);
            && |s.queued| == Sum(s.callers, Reserving) + |s.channel| + Sum(s.workers, Clearing)
            && |s.queued| <= c.queueSize + |start.callers| + |start.workers|
  {
    AlwaysInvariant(c, start, schedule);
    ThreadsStay(c, start, schedule);
    TokensAreCounted(After(c, start, schedule));
  }

  lemma TokensAreCounted(s: State)
    requires TokensOwned(s)
    ensures |s.queued| == Sum(s.callers, Reserving) + |s.channel| + Sum(s.workers, Clearing)
    ensures |s.queued| <= |s.callers| + |s.channel| + |s.workers|
  {
    forall e ensures HeldTokens(s)[e] == multiset(s.queued)[e] {
      HeldIsHolders(s, e);
      assert Holders(s, e) == Member(e, s.queued);
    }
    assert HeldTokens(s) == multiset(s.queued);
    BagSize(s.callers, CallerBag, Reserving);
    BagSize(s.workers, WorkerBag, Clearing);
    SumBound(s.callers, Reserving, 1);
    SumBound(s.workers, Clearing, 1);
  }

  function HeldTokens(s: State): multiset<Epc> {
    Bag(s.callers, CallerBag) + multiset(s.channel) + Bag(s.workers, WorkerBag)
  }

  lemma HeldIsHolders(s: State, e: Epc)
    ensures HeldTokens(s)[e] == Holders(s, e)
  {
    BagCounts(s.callers, CallerBag, CallerHolds(e), e);
    BagCounts(s.workers, WorkerBag, WorkerHolds(e), e);
    ChannelCounts(s.channel, e);
  }

  // ----- Mutual exclusion -----

  predicate HoldsLock(worker: Worker) {
    Engaged(worker) || worker.Unlocking?
  }

  /** inflight is exactly the set of EPCs that workers have locked, and no two workers have the same one. */
  lemma InflightExclusion(c: Config, start: State, schedule: seq<Action>)
    requires Init(start)
    ensures var s := After(c, start, schedule);
            && (forall e :: e in s.inflight <==>
                  exists j :: 0 <= j < |s.workers| && HoldsLock(s.workers[j]) && s.workers[j].epc == e)
            && (forall i, j | 0 <= i < j < |s.workers| && HoldsLock(s.workers[i]) && HoldsLock(s.workers[j]) ::
                  s.workers[i].epc != s.workers[j].epc)
            && |s.inflight| == Sum(s.workers, Locking)
            && |s.inflight| <= |start.workers|
  {
    AlwaysInvariant(c, start, schedule);
    ThreadsStay(c, start, schedule);
    var s := After(c, start, schedule);
    forall e ensures e in s.inflight <==>
                       exists j :: 0 <= j < |s.workers| && HoldsLock(s.workers[j]) && s.workers[j].epc == e {
      LockedByWhom(s, e);
    }
    forall i, j | 0 <= i < j < |s.workers| && HoldsLock(s.workers[i]) && HoldsLock(s.workers[j])
      ensures s.workers[i].epc != s.workers[j].epc
    {
      var e := s.workers[i].epc;
      SumHasBoth(s.workers, Locks(e), i, j);
      assert Sum(s.workers, Locks(e)) == Member(e, s.inflight);
    }
    LocksAreCounted(s);
  }

  lemma LockedByWhom(s: State, e: Epc)
    requires LocksOwned(s)
    ensures e in s.inflight <==>
            exists j :: 0 <= j < |s.workers| && HoldsLock(s.workers[j]) && s.workers[j].epc == e
  {
    assert Sum(s.workers, Locks(e)) == Member(e, s.inflight);
    if e in s.inflight {
      SumHasSome(s.workers, Locks(e));
    }
    if j :| 0 <= j < |s.workers| && HoldsLock(s.workers[j]) && s.workers[j].epc == e {
      SumHas(s.workers, Locks(e), j);
    }
  }

  lemma LocksAreCounted(s: State)
    requires LocksOwned(s)
    ensures |s.inflight| == Sum(s.workers, Locking) <= |s.workers|
  {
    forall e ensures Bag(s.workers, LockBag)[e] == multiset(s.inflight)[e] {
      BagCounts(s.workers, LockBag, Locks(e), e);
      assert Sum(s.workers, Locks(e)) == Member(e, s.inflight);
    }
    assert Bag(s.workers, LockBag) == multiset(s.inflight);
    BagSize(s.workers, LockBag, Locking);
    SumBound(s.workers, Locking, 1);
  }

  // ----- The ledger -----

  /** Nothing is lost or counted twice, in any reachable state. */
  lemma LedgerConservation(c: Config, start: State, schedule: seq<Action>)
    requires Init(start)
    ensures var s := After(c, start, schedule);
            && s.history.queue.sends == |s.channel| + s.history.queue.receives
            && s.history.queue.receives == Sum(s.workers, Unsettled) + s.history.work.skips + Settled(s.stats)
            && s.history.queue.refusals == s.stats.submits.queueDropped + Sum(s.callers, Refused)
            && s.stats.tags.seenTotal == Decided(s.stats) + Sum(s.callers, Undecided)
            && s.history.work.acquisitions == Sum(s.workers, Submittings) + Settled(s.stats)
  {
    AlwaysInvariant(c, start, schedule);
  }

  /** A worker submits an EPC that it has locked between once and submitRetry + 1 times, and stops at the
      first terminal reply; over all, the calls are bounded by the acquisitions from both sides. */
  lemma SubmitEffort(c: Config, start: State, schedule: seq<Action>)
    requires Init(start)
    ensures var s := After(c, start, schedule);
            && (forall j | 0 <= j < |s.workers| :: InOrder(c, s.workers[j]))
            && Settled(s.stats) <= s.history.work.submits <= s.history.work.acquisitions * (c.submitRetry + 1)
  {
    AlwaysInvariant(c, start, schedule);
  }

  predicate Quiet(s: State) {
    && (forall i | 0 <= i < |s.callers| :: s.callers[i].Resting?)
    && (forall j | 0 <= j < |s.workers| :: s.workers[j].Waiting? || s.workers[j].Stopped?)
  }

  /** When every thread rests, queued is the content of the channel, nothing is in flight, and every
      counter is final. */
  lemma QuietStateIsSettled(c: Config, start: State, schedule: seq<Action>)
    requires Init(start) && Quiet(After(c, start, schedule))
    ensures var s := After(c, start, schedule);
            && s.queued == (set e | e in s.channel)
            && s.inflight == {}
            && s.history.queue.sends == |s.channel| + s.history.work.skips + Settled(s.stats)
            && s.history.queue.refusals == s.stats.submits.queueDropped
            && s.stats.tags.seenTotal == Decided(s.stats)
            && s.history.work.acquisitions == Settled(s.stats)
  {
    AlwaysInvariant(c, start, schedule);
    var s := After(c, start, schedule);
    SumZero(s.workers, Unsettled);
    SumZero(s.workers, Submittings);
    SumZero(s.callers, Refused);
    SumZero(s.callers, Undecided);
    forall e ensures e in s.queued <==> e in s.channel {
      SumZero(s.callers, CallerHolds(e));
      SumZero(s.workers, WorkerHolds(e));
      ChannelCounts(s.channel, e);
      assert Holders(s, e) == Member(e, s.queued);
    }
    forall e ensures e !in s.inflight {
      LockedByWhom(s, e);
    }
  }

  // ----- The mutex -----

  predicate OnePicker(s: State) {
    forall i, j | 0 <= i < j < |s.callers| :: !(s.callers[i].Picking? && s.callers[j].Picking?)
  }

  lemma CallerMoveKeepsOnePicker(c: Config, s: State, i: nat, step: CallerStep)
    requires i < |s.callers| && OnePicker(s) && !Blocked(s, ByCaller(i, step))
    ensures OnePicker(CallerMoves(c, s, i, step))
  {
    var t := CallerMoves(c, s, i, step);
    CallerStepExchanges(c, s, i, step);
    PickingBegins(c, s, i, step);
    forall k | 0 <= k < |t.callers| && k != i ensures t.callers[k] == s.callers[k] {}
  }

  /** Only Collect begins to pick. */
  lemma PickingBegins(c: Config, s: State, i: nat, step: CallerStep)
    requires i < |s.callers|
    ensures CallerMoves(c, s, i, step).callers[i].Picking? ==> s.callers[i].Picking? || step.Collect?
  {}

  /** The mutex is held by at most one caller at a time. */
  lemma {:induction false} MutexIsExclusive(c: Config, start: State, schedule: seq<Action>)
    requires Init(start)
    ensures OnePicker(After(c, start, schedule))
  {
    if schedule != [] {
      var n := |schedule| - 1;
      MutexIsExclusive(c, start, schedule[..n]);
      var s, a := After(c, start, schedule[..n]), schedule[n];
      if !Blocked(s, a) {
        if a.ByCaller? && a.i < |s.callers| {
          CallerMoveKeepsOnePicker(c, s, a.i, a.callerStep);
        } else if a.ByWorker? && a.j < |s.workers| {
          OnlyThisWorkerMoves(c, s, a.j, a.workerStep);
        }
      }
    }
  }
}
