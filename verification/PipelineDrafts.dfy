/**
 The draft cache in the submit pipeline: nothing but drafts is ever reserved or
 submitted, and what is settled leaves the cache.
 */
module PipelineDrafts {
  import opened Dedup
  import opened Epcs
  import opened Pipeline
  import opened PipelineSafety

  /** The drafts that a step brings into the cache. */
  function Brought(a: Action): set<Epc> {
    if a.ByCaller? && a.callerStep.ReplaceCache? then NonEmpty(a.callerStep.drafts)
    else if a.ByCaller? && a.callerStep.AddToCache? then NonEmpty(a.callerStep.drafts)
    else {}
  }

  /** Everything that was ever a draft. */
  function Drafted(start: State, schedule: seq<Action>): set<Epc> {
    if schedule == [] then
      start.cache
    else
      Drafted(start, schedule[..|schedule| - 1]) + Brought(schedule[|schedule| - 1])
  }

  // ----- Only drafts get anywhere -----

  /** The EPCs that a caller has found in the cache and may still reserve. */
  function Carried(caller: Caller): set<Epc> {
    match caller
    case Hitting(epc) => {epc}
    case Picking(_, found, _) => Elements(found)
    case Collected(todo) => Elements(todo)
    case Entering(epc, todo) => {epc} + Elements(todo)
    case Sending(epc, todo) => {epc} + Elements(todo)
    case Dropping(epc, todo) => {epc} + Elements(todo)
    case _ => {}
  }

  function AtWork(worker: Worker): set<Epc> {
    if worker.Waiting? || worker.Stopped? then {} else {worker.epc}
  }

  ghost predicate OnlyDrafts(s: State, drafts: set<Epc>) {
    && s.cache <= drafts && s.queued <= drafts && Elements(s.channel) <= drafts
    && (forall i | 0 <= i < |s.callers| :: Carried(s.callers[i]) <= drafts)
    && (forall j | 0 <= j < |s.workers| :: AtWork(s.workers[j]) <= drafts)
  }

  lemma NextCarries(todo: seq<Epc>)
    ensures Carried(Next(todo)) == Elements(todo)
  {
    if todo != [] {
      assert todo == [todo[0]] + todo[1..];
    }
  }

  /** What a caller has in hand comes from the cache. */
  lemma CallerStepCarries(c: Config, s: State, i: nat, step: CallerStep)
    requires i < |s.callers|
    ensures Carried(CallerMoves(c, s, i, step).callers[i]) <= Carried(s.callers[i]) + s.cache
  {
    var here := s.callers[i];
    match here
    case Picking(_, found, _) => NextCarries(found);
    case Collected(todo) => NextCarries(todo);
    case Entering(_, todo) => NextCarries(todo);
    case Sending(_, todo) => NextCarries(todo);
    case Dropping(_, todo) => NextCarries(todo);
    case _ => NextCarries([]);
  }

  /** And what it reserves, sends or drafts is what it has in hand. */
  lemma CallerStepHandsOn(c: Config, s: State, i: nat, step: CallerStep)
    requires i < |s.callers|
    ensures var t := CallerMoves(c, s, i, step);
            && t.queued <= s.queued + Carried(s.callers[i])
            && Elements(t.channel) <= Elements(s.channel) + Carried(s.callers[i])
            && t.cache <= s.cache + Brought(ByCaller(i, step))
  {}

  lemma WorkerStepWorksOn(c: Config, s: State, j: nat, step: WorkerStep)
    requires j < |s.workers|
    ensures var t := WorkerMoves(c, s, j, step);
            && AtWork(t.workers[j]) <= AtWork(s.workers[j]) + Elements(s.channel)
            && t.queued <= s.queued && Elements(t.channel) <= Elements(s.channel) && t.cache <= s.cache
  {}

  lemma MoveKeepsOnlyDrafts(c: Config, s: State, a: Action, drafts: set<Epc>)
    requires OnlyDrafts(s, drafts)
    ensures OnlyDrafts(Moves(c, s, a), drafts + Brought(a))
  {
    if !Blocked(s, a) {
      if a.ByCaller? && a.i < |s.callers| {
        CallerStepExchanges(c, s, a.i, a.callerStep);
        CallerStepCarries(c, s, a.i, a.callerStep);
        CallerStepHandsOn(c, s, a.i, a.callerStep);
      } else if a.ByWorker? && a.j < |s.workers| {
        OnlyThisWorkerMoves(c, s, a.j, a.workerStep);
        WorkerStepWorksOn(c, s, a.j, a.workerStep);
      }
    }
  }

  lemma {:induction false} AlwaysOnlyDrafts(c: Config, start: State, schedule: seq<Action>)
    requires Init(start)
    ensures OnlyDrafts(After(c, start, schedule), Drafted(start, schedule))
  {
    if schedule != [] {
      var n := |schedule| - 1;
      AlwaysOnlyDrafts(c, start, schedule[..n]);
      MoveKeepsOnlyDrafts(c, After(c, start, schedule[..n]), schedule[n], Drafted(start, schedule[..n]));
    }
  }

  /** Only what was a draft at some time is ever reserved, sent or received. */
  lemma OnlyDraftsAreReserved(c: Config, start: State, schedule: seq<Action>)
    requires Init(start)
    ensures var s := After(c, start, schedule);
            && s.queued <= Drafted(start, schedule)
            && Elements(s.channel) <= Drafted(start, schedule)
            && forall j | 0 <= j < |s.workers| :: AtWork(s.workers[j]) <= Drafted(start, schedule)
  {
    AlwaysOnlyDrafts(c, start, schedule);
  }

  // ----- What is settled -----

  /** Without new drafts, an EPC with a terminal reply is out of the cache before the reply is counted. */
  ghost predicate SettledIsOut(s: State) {
    forall j | 0 <= j < |s.workers| && s.workers[j].Counting? :: s.workers[j].epc !in s.cache
  }

  predicate NoDraftsIn(schedule: seq<Action>) {
    forall a | a in schedule :: Brought(a) == {}
  }

  lemma NoDraftsInBoth(a: seq<Action>, b: seq<Action>)
    requires NoDraftsIn(a) && NoDraftsIn(b)
    ensures NoDraftsIn(a + b)
  {}

  lemma CallerAddsNothing(c: Config, s: State, i: nat, step: CallerStep)
    requires i < |s.callers| && Brought(ByCaller(i, step)) == {}
    ensures CallerMoves(c, s, i, step).cache <= s.cache
  {
    CallerStepHandsOn(c, s, i, step);
  }

  lemma WorkerSettles(c: Config, s: State, j: nat, step: WorkerStep)
    requires j < |s.workers| && (s.workers[j].Counting? ==> s.workers[j].epc !in s.cache)
    ensures var t := WorkerMoves(c, s, j, step);
            t.cache <= s.cache && (t.workers[j].Counting? ==> t.workers[j].epc !in t.cache)
  {}

  lemma MoveKeepsSettledOut(c: Config, s: State, a: Action)
    requires SettledIsOut(s) && Brought(a) == {}
    ensures SettledIsOut(Moves(c, s, a))
    ensures Moves(c, s, a).cache <= s.cache
  {
    if !Blocked(s, a) {
      if a.ByCaller? && a.i < |s.callers| {
        CallerStepExchanges(c, s, a.i, a.callerStep);
        CallerAddsNothing(c, s, a.i, a.callerStep);
      } else if a.ByWorker? && a.j < |s.workers| {
        OnlyThisWorkerMoves(c, s, a.j, a.workerStep);
        WorkerSettles(c, s, a.j, a.workerStep);
      }
    }
  }

  lemma {:induction false} SettledStaysOut(c: Config, start: State, schedule: seq<Action>)
    requires SettledIsOut(start) && NoDraftsIn(schedule)
    ensures SettledIsOut(After(c, start, schedule))
    ensures After(c, start, schedule).cache <= start.cache
  {
    if schedule != [] {
      var n := |schedule| - 1;
      assert schedule[n] in schedule;
      SettledStaysOut(c, start, schedule[..n]);
      MoveKeepsSettledOut(c, After(c, start, schedule[..n]), schedule[n]);
    }
  }

  // ----- Who may still submit -----

  /** A worker that has found e in the cache and has no final outcome for it yet. */
  predicate MaySubmit(worker: Worker, e: Epc) {
    (worker.Present? || worker.Submitting?) && worker.epc == e
  }

  lemma WorkerMoveAddsNoSubmitter(c: Config, s: State, j: nat, step: WorkerStep, e: Epc)
    requires e !in s.cache && j < |s.workers|
    ensures var t := WorkerMoves(c, s, j, step);
            e !in t.cache && (MaySubmit(t.workers[j], e) ==> MaySubmit(s.workers[j], e))
  {}

  lemma MoveAddsNoSubmitter(c: Config, s: State, a: Action, e: Epc, j: nat)
    requires e !in s.cache && Brought(a) == {} && j < |s.workers|
    ensures var t := Moves(c, s, a);
            e !in t.cache && j < |t.workers| && (MaySubmit(t.workers[j], e) ==> MaySubmit(s.workers[j], e))
  {
    if !Blocked(s, a) {
      if a.ByCaller? && a.i < |s.callers| {
        CallerStepExchanges(c, s, a.i, a.callerStep);
        CallerAddsNothing(c, s, a.i, a.callerStep);
      } else if a.ByWorker? && a.j < |s.workers| {
        OnlyThisWorkerMoves(c, s, a.j, a.workerStep);
        WorkerMoveAddsNoSubmitter(c, s, a.j, a.workerStep, e);
      }
    }
  }

  /** Once an EPC is out of the cache and no new draft arrives, no worker comes to submit it that could not
      before. */
  lemma {:induction false} NoNewSubmitters(c: Config, s: State, schedule: seq<Action>, e: Epc, j: nat)
    requires e !in s.cache && NoDraftsIn(schedule) && j < |s.workers|
    ensures var t := After(c, s, schedule);
            && e !in t.cache && |t.workers| == |s.workers|
            && (MaySubmit(t.workers[j], e) ==> MaySubmit(s.workers[j], e))
  {
    ThreadsStay(c, s, schedule);
    if schedule != [] {
      var n := |schedule| - 1;
      assert schedule[n] in schedule;
      ThreadsStay(c, s, schedule[..n]);
      NoNewSubmitters(c, s, schedule[..n], e, j);
      MoveAddsNoSubmitter(c, After(c, s, schedule[..n]), schedule[n], e, j);
    }
  }

  // ----- While the scan is off -----

  predicate StaysOff(schedule: seq<Action>) {
    forall a | a in schedule :: !(a.ByCaller? && a.callerStep == SetScanActive(true))
  }

  /** A caller that reserves nothing as long as the scan is off. */
  predicate Harmless(caller: Caller) {
    || caller.Resting? || caller.Collected?
    || (caller.Collecting? && caller.guarded)
    || (caller.Picking? && caller.guarded)
  }

  predicate AllOff(s: State) {
    && !s.scanActive && s.channel == [] && s.queued == {} && s.inflight == {}
    && s.stats.submits == NO_STATS.submits
    && (forall i | 0 <= i < |s.callers| :: Harmless(s.callers[i]))
    && (forall j | 0 <= j < |s.workers| :: s.workers[j].Waiting? || s.workers[j].Stopped?)
  }

  lemma CallerKeepsOff(c: Config, s: State, i: nat, step: CallerStep)
    requires i < |s.callers| && AllOff(s) && step != SetScanActive(true)
    ensures AllOff(CallerMoves(c, s, i, step))
  {
    assert Harmless(s.callers[i]);
  }

  lemma MoveKeepsOff(c: Config, s: State, a: Action)
    requires AllOff(s) && StaysOff([a])
    ensures AllOff(Moves(c, s, a))
  {
    assert a in [a];
    if !Blocked(s, a) && a.ByCaller? && a.i < |s.callers| {
      CallerKeepsOff(c, s, a.i, a.callerStep);
    }
  }

  /** As long as nobody switches the scan on, nothing is reserved, sent, submitted or counted as a submit,
      whatever tags and drafts come in. */
  lemma {:induction false} NothingIsReservedWhileOff(c: Config, start: State, schedule: seq<Action>)
    requires Init(start) && !start.scanActive && StaysOff(schedule)
    ensures AllOff(After(c, start, schedule))
  {
    if schedule != [] {
      var n := |schedule| - 1;
      assert schedule[n] in schedule;
      NothingIsReservedWhileOff(c, start, schedule[..n]);
      MoveKeepsOff(c, After(c, start, schedule[..n]), schedule[n]);
    }
  }
}
