/**
 The EPC submit pipeline as a transition system. Any number of callers handle
 tags, replay and enqueue; any number of workers take EPCs off one bounded
 channel and submit them. Every section under the service mutex, every channel
 operation, every cache call and every submit is a step of its own, and the
 scheduler may interleave the steps of all threads in any way.
 */
module Pipeline {
  import opened Folds
  import opened Epcs
  import RecentSeen

  datatype Config = Config(queueSize: nat, submitRetry: nat, ttl: int)

  datatype Reply = Submitted | NotFound | Failure

  predicate Terminal(reply: Reply) {
    reply != Failure
  }

  // ----- State -----

  /** Where a caller is. todo holds the EPCs that its replay has still to enqueue. */
  datatype Caller =
    | Resting
    | Looking(epc: Epc)                    // HandleEPC, before cache.Has
    | Missing(epc: Epc)                    // before CacheMisses is counted
    | Hitting(epc: Epc)                    // before CacheHits is counted
    | Collecting(focus: set<Epc>, guarded: bool)  // before collectReplayCandidates
    | Picking(pending: set<Epc>, found: seq<Epc>, guarded: bool)  // in its loop, holding the mutex
    | Collected(todo: seq<Epc>)            // before ScanActive is asked
    | Entering(epc: Epc, todo: seq<Epc>)   // in enqueue, before the reservation
    | Sending(epc: Epc, todo: seq<Epc>)    // reserved, before the channel operation
    | Dropping(epc: Epc, todo: seq<Epc>)   // channel full, before the rollback

  /** Where a worker is. replies holds what the ERP answered for the EPC it has in flight. */
  datatype Worker =
    | Waiting
    | Stopped
    | Received(epc: Epc)                   // before queued is cleared
    | Cleared(epc: Epc)                    // before cache.Has
    | Present(epc: Epc)                    // before lockInflight
    | Submitting(epc: Epc, replies: seq<Reply>)  // before the next SubmitByEPC
    | Removing(epc: Epc, replies: seq<Reply>)    // terminal reply, before cache.Remove
    | Counting(epc: Epc, replies: seq<Reply>)    // before the result is counted
    | Failing(epc: Epc, replies: seq<Reply>)     // retries used up, before the error is counted
    | Unlocking(epc: Epc)                  // before unlockInflight

  datatype Tags = Tags(seenTotal: nat, scanInactive: nat, cacheHits: nat, cacheMisses: nat)

  datatype Submits = Submits(submittedOK: nat, submitNotFound: nat, submitErrors: nat, queueDropped: nat)

  /** The counters of the service. */
  datatype Stats = Stats(tags: Tags, submits: Submits) {
    function CountSeen(scanActive: bool): Stats {
      this.(tags := tags.(seenTotal := tags.seenTotal + 1,
                          scanInactive := if scanActive then tags.scanInactive else tags.scanInactive + 1))
    }

    function CountHit(): Stats { this.(tags := tags.(cacheHits := tags.cacheHits + 1)) }

    function CountMiss(): Stats { this.(tags := tags.(cacheMisses := tags.cacheMisses + 1)) }

    function CountSubmitted(): Stats { this.(submits := submits.(submittedOK := submits.submittedOK + 1)) }

    function CountNotFound(): Stats { this.(submits := submits.(submitNotFound := submits.submitNotFound + 1)) }

    function CountError(): Stats { this.(submits := submits.(submitErrors := submits.submitErrors + 1)) }

    function CountDrop(): Stats { this.(submits := submits.(queueDropped := submits.queueDropped + 1)) }
  }

  datatype Queueing = Queueing(sends: nat, refusals: nat, receives: nat)

  datatype Work = Work(skips: nat, acquisitions: nat, submits: nat)

  /** What has happened so far, in numbers that the service itself does not keep. */
  datatype History = History(queue: Queueing, work: Work) {
    function CountSend(): History { this.(queue := queue.(sends := queue.sends + 1)) }

    function CountRefusal(): History { this.(queue := queue.(refusals := queue.refusals + 1)) }

    function CountReceive(): History { this.(queue := queue.(receives := queue.receives + 1)) }

    function CountSkip(): History { this.(work := work.(skips := work.skips + 1)) }

    function CountAcquisition(): History { this.(work := work.(acquisitions := work.acquisitions + 1)) }

    function CountSubmit(): History { this.(work := work.(submits := work.submits + 1)) }
  }

  const NO_STATS := Stats(Tags(0, 0, 0, 0), Submits(0, 0, 0, 0))
  const NO_HISTORY := History(Queueing(0, 0, 0), Work(0, 0, 0))

  datatype State = State(
    channel: seq<Epc>,
    queued: set<Epc>,
    inflight: set<Epc>,
    cache: set<Epc>,
    recentSeen: map<Epc, int>,
    scanActive: bool,
    stats: Stats,
    history: History,
    callers: seq<Caller>,
    workers: seq<Worker>)

  predicate Init(s: State) {
    && s.channel == [] && s.queued == {} && s.inflight == {} && s.recentSeen == map[]
    && s.stats == NO_STATS && s.history == NO_HISTORY
    && (forall i | 0 <= i < |s.callers| :: s.callers[i] == Resting)
    && (forall j | 0 <= j < |s.workers| :: s.workers[j] == Waiting)
  }

  // ----- Steps of callers -----

  datatype CallerStep =
    | Handle(handled: Epc, seenAt: int)
    | AskCache
    | CountMiss
    | CountHit
    | SetScanActive(active: bool)
    | ReplaceCache(drafts: seq<Epc>)
    | AddToCache(drafts: seq<Epc>)
    | Collect(collectedAt: int)
    | AskAbout(asked: Epc)
    | Release
    | AskScanActive
    | Reserve
    | Send
    | RollBack

  /** After one EPC of a replay is dealt with, the next one is enqueued. */
  function Next(todo: seq<Epc>): Caller {
    if todo == [] then Resting else Entering(todo[0], todo[1..])
  }

  /** What the loop of collectReplayCandidates goes through: the seen EPCs in focus, in any order. */
  function Sought(seen: map<Epc, int>, focus: set<Epc>): set<Epc> {
    set e | e in seen && (focus == {} || e in focus)
  }

  function Picked(cache: set<Epc>, epc: Epc): seq<Epc> {
    if epc != "" && epc in cache then [epc] else []
  }

  function CallerMoves(c: Config, s: State, i: nat, step: CallerStep): State
    requires i < |s.callers|
  {
    var here := s.callers[i];
    match step
    case Handle(epc, now) =>
      if here.Resting? && epc != "" then
        s.(recentSeen := RecentSeen.Fresh(s.recentSeen[epc := now], now, c.ttl),
           stats := s.stats.CountSeen(s.scanActive),
           callers := s.callers[i := if s.scanActive then Looking(epc) else Resting])
      else s
    case AskCache =>
      if here.Looking? then
        s.(callers := s.callers[i := if here.epc in s.cache then Hitting(here.epc) else Missing(here.epc)])
      else s
    case CountMiss =>
      if here.Missing? then
        s.(stats := s.stats.CountMiss(), callers := s.callers[i := Resting])
      else s
    case CountHit =>
      if here.Hitting? then
        s.(stats := s.stats.CountHit(), callers := s.callers[i := Entering(here.epc, [])])
      else s
    case SetScanActive(active) =>
      if here.Resting? && s.scanActive != active then
        s.(scanActive := active, callers := s.callers[i := if active then Collecting({}, false) else Resting])
      else s
    case ReplaceCache(drafts) =>
      if here.Resting? then
        s.(cache := NonEmpty(drafts), callers := s.callers[i := Collecting(NonEmpty(drafts), true)])
      else s
    case AddToCache(drafts) =>
      if here.Resting? then
        s.(cache := s.cache + NonEmpty(drafts), callers := s.callers[i := Collecting(NonEmpty(drafts), true)])
      else s
    case Collect(now) =>
      if here.Collecting? then
        var seen := RecentSeen.Fresh(s.recentSeen, now, c.ttl);
        s.(recentSeen := seen, callers := s.callers[i := Picking(Sought(seen, here.focus), [], here.guarded)])
      else s
    case AskAbout(epc) =>
      if here.Picking? && epc in here.pending then
        s.(callers := s.callers[i := Picking(here.pending - {epc}, here.found + Picked(s.cache, epc), here.guarded)])
      else s
    case Release =>
      if here.Picking? && here.pending == {} then
        s.(callers := s.callers[i := if here.guarded then Collected(here.found) else Next(here.found)])
      else s
    case AskScanActive =>
      if here.Collected? then
        s.(callers := s.callers[i := if s.scanActive then Next(here.todo) else Resting])
      else s
    case Reserve =>
      if !here.Entering? then
        s
      else if here.epc == "" || here.epc in s.queued || here.epc in s.inflight then
        s.(callers := s.callers[i := Next(here.todo)])
      else
        s.(queued := s.queued + {here.epc}, callers := s.callers[i := Sending(here.epc, here.todo)])
    case Send =>
      if !here.Sending? then
        s
      else if |s.channel| < c.queueSize then
        s.(channel := s.channel + [here.epc],
           history := s.history.CountSend(),
           callers := s.callers[i := Next(here.todo)])
      else
        s.(history := s.history.CountRefusal(),
           callers := s.callers[i := Dropping(here.epc, here.todo)])
    case RollBack =>
      if here.Dropping? then
        s.(queued := s.queued - {here.epc},
           stats := s.stats.CountDrop(),
           callers := s.callers[i := Next(here.todo)])
      else s
  }

  // ----- Steps of workers -----

  datatype WorkerStep =
    | Receive
    | Stop
    | ClearQueued
    | ProbeCache
    | LockInflight
    | Submit(reply: Reply)
    | RemoveFromCache
    | CountResult
    | CountError
    | UnlockInflight

  function WorkerMoves(c: Config, s: State, j: nat, step: WorkerStep): State
    requires j < |s.workers|
  {
    var here := s.workers[j];
    match step
    case Receive =>
      if here.Waiting? && s.channel != [] then
        s.(channel := s.channel[1..],
           history := s.history.CountReceive(),
           workers := s.workers[j := Received(s.channel[0])])
      else s
    case Stop =>
      if here.Waiting? then s.(workers := s.workers[j := Stopped]) else s
    case ClearQueued =>
      if here.Received? then
        s.(queued := s.queued - {here.epc}, workers := s.workers[j := Cleared(here.epc)])
      else s
    case ProbeCache =>
      if !here.Cleared? then
        s
      else if here.epc != "" && here.epc in s.cache then
        s.(workers := s.workers[j := Present(here.epc)])
      else
        s.(history := s.history.CountSkip(), workers := s.workers[j := Waiting])
    case LockInflight =>
      if !here.Present? then
        s
      else if here.epc in s.inflight then
        s.(history := s.history.CountSkip(), workers := s.workers[j := Waiting])
      else
        s.(inflight := s.inflight + {here.epc},
           history := s.history.CountAcquisition(),
           workers := s.workers[j := Submitting(here.epc, [])])
    case Submit(reply) =>
      if here.Submitting? then
        s.(history := s.history.CountSubmit(),
           workers := s.workers[j := Replied(c, here.epc, here.replies + [reply])])
      else s
    case RemoveFromCache =>
      if here.Removing? then
        s.(cache := s.cache - {here.epc}, workers := s.workers[j := Counting(here.epc, here.replies)])
      else s
    case CountResult =>
      if here.Counting? && here.replies != [] then
        var submitted := here.replies[|here.replies| - 1] == Submitted;
        s.(stats := if submitted then s.stats.CountSubmitted()
                    else s.stats.CountNotFound(),
           workers := s.workers[j := Unlocking(here.epc)])
      else s
    case CountError =>
      if here.Failing? then
        s.(stats := s.stats.CountError(), workers := s.workers[j := Unlocking(here.epc)])
      else s
    case UnlockInflight =>
      if here.Unlocking? then
        s.(inflight := s.inflight - {here.epc}, workers := s.workers[j := Waiting])
      else s
  }

  /** The retry loop after a reply: the attempt number is the number of replies before it. */
  function Replied(c: Config, epc: Epc, replies: seq<Reply>): Worker
    requires replies != []
  {
    if Terminal(replies[|replies| - 1]) then
      Removing(epc, replies)
    else if |replies| - 1 < c.submitRetry then
      Submitting(epc, replies)
    else
      Failing(epc, replies)
  }

  // ----- Runs -----

  datatype Action = ByCaller(i: nat, callerStep: CallerStep) | ByWorker(j: nat, workerStep: WorkerStep)

  /** The steps that are sections under the service mutex. Those of the loop of collectReplayCandidates
      belong to the section that Collect has begun and Release ends. */
  predicate TakesMutex(a: Action) {
    match a
    case ByCaller(_, step) =>
      !step.AskCache? && !step.Send? && !step.ReplaceCache? && !step.AddToCache? && !step.AskAbout? && !step.Release?
    case ByWorker(_, step) =>
      step.ClearQueued? || step.LockInflight? || step.CountResult? || step.CountError? || step.UnlockInflight?
  }

  predicate MutexHeld(s: State) {
    exists i :: 0 <= i < |s.callers| && s.callers[i].Picking?
  }

  predicate Blocked(s: State, a: Action) {
    TakesMutex(a) && MutexHeld(s)
  }

  /** The scheduler picks a thread and a step; a step that is not the thread's next one, or that needs the
      mutex while another thread holds it, does nothing. */
  function Moves(c: Config, s: State, a: Action): State {
    if Blocked(s, a) then
      s
    else
      match a
      case ByCaller(i, step) => if i < |s.callers| then CallerMoves(c, s, i, step) else s
      case ByWorker(j, step) => if j < |s.workers| then WorkerMoves(c, s, j, step) else s
  }

  function Scheduler(c: Config): (State, Action) -> State {
    (s: State, a: Action) => Moves(c, s, a)
  }

  /** The state after a schedule. */
  function After(c: Config, start: State, schedule: seq<Action>): State {
    FoldLeft(Scheduler(c), start, schedule)
  }
}
