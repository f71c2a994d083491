/**
 The life cycle of the scan manager as a transition system: any number of calls
 of Start and Stop and the scan loops that they start and stop, interleaved in
 any way. Loop k owns the k-th context and the k-th done channel.
 */
module ScanManager {
  import opened Folds

  datatype Option<T> = None | Some(value: T)

  /** Where a scan loop is. The two deferred calls run last in, first out: finishStopped, then close. */
  datatype Place =
    | Pending                    // started, but its goroutine has not run yet
    | Checking                   // at the top of the loop
    | Connecting                 // in connectAndStart
    | Consuming                  // in consumeTags, marked as connected
    | Stopping(reconnect: bool)  // before StopInventory is called
    | Awaiting(reconnect: bool)  // in StopInventory, until the inventory run has ended
    | Leaving(reconnect: bool)   // before Connected is cleared
    | Sleeping                   // between two attempts
    | Finishing                  // returned, before finishStopped
    | Finished                   // before the done channel is closed
    | Closed

  /** The inventory run of the loop's latest client: whether the client says that it is on, and whether its
      goroutine has closed the channel that StopInventory waits for. */
  datatype Inventory = NeverStarted | Run(on: bool, ended: bool)

  datatype Loop = Loop(place: Place, cancelled: bool, closes: nat, inventory: Inventory)

  /** Where a call of Stop is. */
  datatype Stopper =
    | Idle
    | Holding(cancel: Option<nat>, done: Option<nat>)  // before cancel is called
    | Waiting(done: Option<nat>)                       // before the done channel is received from
    | Returned(done: Option<nat>)

  datatype State = State(
    running: bool,
    cancel: Option<nat>,
    done: Option<nat>,
    statusRunning: bool,
    connected: bool,
    loops: seq<Loop>,
    stoppers: seq<Stopper>)

  predicate Init(s: State) {
    && !s.running && s.cancel == None && s.done == None && !s.statusRunning && !s.connected
    && s.loops == [] && forall j | 0 <= j < |s.stoppers| :: s.stoppers[j] == Idle
  }

  // ----- Steps -----

  datatype LoopStep =
    | Spawn
    | Check
    | FailToConnect
    | MarkConnected
    | StopConsuming(reconnect: bool)
    | StopInventory
    | InventoryStopped
    | MarkDisconnected
    | Wake(cut: bool)
    | FinishStopped
    | CloseDone

  datatype StopStep = Grab | Cancel | Wait

  /** The goroutines of an inventory run: the client is marked as off, for whatever reason, and some time
      after that the run's channel is closed. */
  datatype InventoryStep = MarkOff | CloseRun

  datatype Action =
    | Start(parentCancelled: bool)
    | CancelParent(k: nat)
    | ByLoop(n: nat, loopStep: LoopStep)
    | ByInventory(m: nat, inventoryStep: InventoryStep)
    | ByStopper(j: nat, stopStep: StopStep)

  function Started(s: State, parentCancelled: bool): State {
    if s.running then
      s
    else
      s.(running := true, cancel := Some(|s.loops|), done := Some(|s.loops|), statusRunning := true,
         loops := s.loops + [Loop(Pending, parentCancelled, 0, NeverStarted)])
  }

  /** The place after a step of the loop itself; a step that is not its next one leaves it there. Only a
      cancelled loop leaves consumeTags for good or has its sleep cut short. */
  function Proceeds(loop: Loop, step: LoopStep): Place {
    match step
    case Spawn => if loop.place.Pending? then Checking else loop.place
    case Check => if loop.place.Checking? then (if loop.cancelled then Finishing else Connecting) else loop.place
    case FailToConnect => if loop.place.Connecting? then Sleeping else loop.place
    case MarkConnected => if loop.place.Connecting? then Consuming else loop.place
    case StopConsuming(reconnect) =>
      if loop.place.Consuming? && (reconnect || loop.cancelled) then Stopping(reconnect) else loop.place
    case StopInventory =>
      if loop.place.Stopping? then
        var reconnect := loop.place.reconnect;
        if loop.inventory.Run? && loop.inventory.on then Awaiting(reconnect) else Leaving(reconnect)
      else loop.place
    case InventoryStopped =>
      if loop.place.Awaiting? && loop.inventory.Run? && loop.inventory.ended then Leaving(loop.place.reconnect)
      else loop.place
    case MarkDisconnected =>
      if loop.place.Leaving? then (if loop.place.reconnect then Sleeping else Finishing) else loop.place
    case Wake(cut) =>
      if loop.place.Sleeping? && (!cut || loop.cancelled) then (if cut then Finishing else Checking) else loop.place
    case FinishStopped => if loop.place.Finishing? then Finished else loop.place
    case CloseDone => if loop.place.Finished? then Closed else loop.place
  }

  /** What the step does to the client's inventory run: connecting starts a new one, and StopInventory marks
      it as off. */
  function InventoryAfter(loop: Loop, step: LoopStep): Inventory {
    match step
    case MarkConnected => Run(true, false)
    case StopInventory => if loop.inventory.Run? then loop.inventory.(on := false) else loop.inventory
    case _ => loop.inventory
  }

  function LoopMoves(s: State, n: nat, step: LoopStep): State
    requires n < |s.loops|
  {
    var loop := s.loops[n];
    var place := Proceeds(loop, step);
    if place == loop.place then
      s
    else
      var closes := loop.closes + if step.CloseDone? then 1 else 0;
      var inventory := InventoryAfter(loop, step);
      var t := s.(loops := s.loops[n := loop.(place := place, closes := closes, inventory := inventory)]);
      match step
      case MarkConnected => t.(connected := true)
      case MarkDisconnected => t.(connected := false)
      case FinishStopped =>
        t.(running := false, cancel := None, done := None, statusRunning := false, connected := false)
      case _ => t
  }

  /** Where the run of a loop goes on its own; it closes its channel once. */
  function RunsOn(inventory: Inventory, step: InventoryStep): Inventory {
    match step
    case MarkOff => if inventory.Run? then inventory.(on := false) else inventory
    case CloseRun => if inventory.Run? && !inventory.on then inventory.(ended := true) else inventory
  }

  function InventoryMoves(s: State, m: nat, step: InventoryStep): State
    requires m < |s.loops|
  {
    s.(loops := s.loops[m := s.loops[m].(inventory := RunsOn(s.loops[m].inventory, step))])
  }

  function Cancelled(loops: seq<Loop>, cancel: Option<nat>): seq<Loop> {
    if cancel.Some? && cancel.value < |loops| then
      loops[cancel.value := loops[cancel.value].(cancelled := true)]
    else
      loops
  }

  predicate IsClosed(loops: seq<Loop>, done: Option<nat>) {
    done.Some? ==> done.value < |loops| && loops[done.value].closes > 0
  }

  function StopperMoves(s: State, j: nat, step: StopStep): State
    requires j < |s.stoppers|
  {
    var here := s.stoppers[j];
    match step
    case Grab =>
      if here.Idle? || here.Returned? then
        s.(cancel := None, stoppers := s.stoppers[j := Holding(s.cancel, s.done)])
      else s
    case Cancel =>
      if here.Holding? then
        s.(loops := Cancelled(s.loops, here.cancel), stoppers := s.stoppers[j := Waiting(here.done)])
      else s
    case Wait =>
      if here.Waiting? && IsClosed(s.loops, here.done) then
        s.(stoppers := s.stoppers[j := Returned(here.done)])
      else s
  }

  function Moves(s: State, a: Action): State {
    match a
    case Start(parentCancelled) => Started(s, parentCancelled)
    case CancelParent(k) => s.(loops := Cancelled(s.loops, Some(k)))
    case ByLoop(n, step) => if n < |s.loops| then LoopMoves(s, n, step) else s
    case ByInventory(m, step) => if m < |s.loops| then InventoryMoves(s, m, step) else s
    case ByStopper(j, step) => if j < |s.stoppers| then StopperMoves(s, j, step) else s
  }

  function After(start: State, schedule: seq<Action>): State {
    FoldLeft(Moves, start, schedule)
  }

  // ----- The invariant -----

  /** Before its finishStopped. */
  predicate Live(loop: Loop) {
    !loop.place.Finished? && !loop.place.Closed?
  }

  predicate IsConnected(loop: Loop) {
    loop.place.Consuming? || loop.place.Stopping? || loop.place.Awaiting? || loop.place.Leaving?
  }

  predicate LastIsLive(s: State) {
    s.loops != [] && Live(s.loops[|s.loops| - 1])
  }

  predicate LoopsInOrder(s: State) {
    && (forall i | 0 <= i < |s.loops| - 1 :: !Live(s.loops[i]))
    && (forall i | 0 <= i < |s.loops| :: s.loops[i].closes == if s.loops[i].place.Closed? then 1 else 0)
    && (forall i | 0 <= i < |s.loops| :: AwaitsARun(s.loops[i]))
  }

  /** StopInventory waits only for a run, and only after marking it as off. */
  predicate AwaitsARun(loop: Loop) {
    loop.place.Awaiting? ==> loop.inventory.Run? && !loop.inventory.on
  }

  predicate FieldsInOrder(s: State) {
    && s.running == s.statusRunning == LastIsLive(s)
    && s.done == (if s.running then Some(|s.loops| - 1) else None)
    && (s.cancel.Some? ==> s.cancel == s.done)
    && s.connected == (s.loops != [] && IsConnected(s.loops[|s.loops| - 1]))
  }

  function Target(stopper: Stopper): Option<nat> {
    if stopper.Idle? then None else stopper.done
  }

  predicate StopperInOrder(s: State, stopper: Stopper) {
    && (Target(stopper).Some? ==> Target(stopper).value < |s.loops| && s.cancel != Target(stopper))
    && (stopper.Holding? && stopper.cancel.Some? ==> stopper.cancel == stopper.done)
    && (stopper.Returned? && stopper.done.Some? ==> s.loops[stopper.done.value].place.Closed?)
  }

  predicate StoppersInOrder(s: State) {
    forall j | 0 <= j < |s.stoppers| :: StopperInOrder(s, s.stoppers[j])
  }

  /** The cancel function of loop k is on its way to being called. */
  predicate CancelHeld(stoppers: seq<Stopper>, k: nat) {
    exists j :: 0 <= j < |stoppers| && stoppers[j].Holding? && stoppers[j].cancel == Some(k)
  }

  predicate CancelNotLost(s: State) {
    s.running && s.cancel == None && s.loops != [] ==>
      s.loops[|s.loops| - 1].cancelled || CancelHeld(s.stoppers, |s.loops| - 1)
  }

  predicate Invariant(s: State) {
    LoopsInOrder(s) && FieldsInOrder(s) && StoppersInOrder(s) && CancelNotLost(s)
  }

  // ----- Every step keeps it -----

  lemma StartKeeps(s: State, parentCancelled: bool)
    requires Invariant(s)
    ensures Invariant(Started(s, parentCancelled))
  {
    var t := Started(s, parentCancelled);
    forall j | 0 <= j < |t.stoppers| ensures StopperInOrder(t, t.stoppers[j]) {
      assert StopperInOrder(s, s.stoppers[j]);
    }
  }

  lemma LoopMoveKeepsFields(s: State, n: nat, step: LoopStep)
    requires n < |s.loops| && LoopsInOrder(s) && FieldsInOrder(s)
    ensures LoopsInOrder(LoopMoves(s, n, step)) && FieldsInOrder(LoopMoves(s, n, step))
  {}

  lemma LoopMoveKeepsStops(s: State, n: nat, step: LoopStep)
    requires n < |s.loops| && Invariant(s)
    ensures StoppersInOrder(LoopMoves(s, n, step)) && CancelNotLost(LoopMoves(s, n, step))
  {
    var t := LoopMoves(s, n, step);
    assert t.stoppers == s.stoppers;
    assert t.cancel == s.cancel || t.cancel == None;
    forall j | 0 <= j < |t.stoppers| ensures StopperInOrder(t, t.stoppers[j]) {
      assert StopperInOrder(s, s.stoppers[j]);
    }
  }

  lemma CancellingKeeps(s: State, k: Option<nat>)
    requires Invariant(s)
    ensures Invariant(s.(loops := Cancelled(s.loops, k)))
  {
    var t := s.(loops := Cancelled(s.loops, k));
    forall j | 0 <= j < |t.stoppers| ensures StopperInOrder(t, t.stoppers[j]) {
      assert StopperInOrder(s, s.stoppers[j]);
    }
  }

  lemma InventoryMoveKeeps(s: State, m: nat, step: InventoryStep)
    requires m < |s.loops| && Invariant(s)
    ensures Invariant(InventoryMoves(s, m, step))
  {
    var t := InventoryMoves(s, m, step);
    forall j | 0 <= j < |t.stoppers| ensures StopperInOrder(t, t.stoppers[j]) {
      assert StopperInOrder(s, s.stoppers[j]);
    }
  }

  lemma StopperMoveKeeps(s: State, j: nat, step: StopStep)
    requires j < |s.stoppers| && Invariant(s)
    ensures Invariant(StopperMoves(s, j, step))
  {
    var here := s.stoppers[j];
    assert StopperInOrder(s, here);
    match step
    case Grab =>
      if here.Idle? || here.Returned? {
        GrabKeeps(s, j);
      }
    case Cancel =>
      if here.Holding? {
        CancellingKeeps(s, here.cancel);
        CancelKeeps(s, j);
      }
    case Wait =>
      if here.Waiting? && IsClosed(s.loops, here.done) {
        Moved(s, s, j, Returned(here.done));
      }
  }

  /** A stopper that does not hold a cancel function moves on. */
  lemma Moved(s: State, t: State, j: nat, there: Stopper)
    requires j < |s.stoppers| && StoppersInOrder(s) && StopperInOrder(t, there)
    requires s.loops == t.loops && s.stoppers == t.stoppers && (t.cancel == s.cancel || t.cancel == None)
    requires s.stoppers[j].Holding? ==> s.stoppers[j].cancel == None
    ensures StoppersInOrder(t.(stoppers := t.stoppers[j := there]))
    ensures forall k: nat | CancelHeld(s.stoppers, k) :: CancelHeld(t.stoppers[j := there], k)
  {
    var u := t.(stoppers := t.stoppers[j := there]);
    forall i | 0 <= i < |u.stoppers| ensures StopperInOrder(u, u.stoppers[i]) {
      assert StopperInOrder(s, s.stoppers[i]);
    }
    forall k: nat | CancelHeld(s.stoppers, k) ensures CancelHeld(u.stoppers, k) {
      var i :| 0 <= i < |s.stoppers| && s.stoppers[i].Holding? && s.stoppers[i].cancel == Some(k);
      assert u.stoppers[i] == s.stoppers[i];
    }
  }

  lemma GrabKeeps(s: State, j: nat)
    requires j < |s.stoppers| && Invariant(s) && !s.stoppers[j].Holding?
    ensures Invariant(s.(cancel := None, stoppers := s.stoppers[j := Holding(s.cancel, s.done)]))
  {
    var there := Holding(s.cancel, s.done);
    var t := s.(cancel := None);
    assert s.done.Some? ==> s.done.value < |s.loops|;
    Moved(s, t, j, there);
    assert s.stoppers[j := there][j] == there;
  }

  lemma CancelKeeps(s: State, j: nat)
    requires j < |s.stoppers| && s.stoppers[j].Holding? && Invariant(s)
    requires Invariant(s.(loops := Cancelled(s.loops, s.stoppers[j].cancel)))
    ensures Invariant(StopperMoves(s, j, Cancel))
  {
    var t := StopperMoves(s, j, Cancel);
    var here := s.stoppers[j];
    assert StopperInOrder(s, here);
    var u := s.(loops := Cancelled(s.loops, here.cancel));
    forall i | 0 <= i < |t.stoppers| ensures StopperInOrder(t, t.stoppers[i]) {
      assert StopperInOrder(u, u.stoppers[i]);
    }
    if t.running && t.cancel == None && !t.loops[|t.loops| - 1].cancelled {
      var last := |s.loops| - 1;
      assert CancelHeld(s.stoppers, last);
      var i :| 0 <= i < |s.stoppers| && s.stoppers[i].Holding? && s.stoppers[i].cancel == Some(last);
      assert i != j;
      assert t.stoppers[i] == s.stoppers[i];
    }
  }

  lemma MoveKeepsInvariant(s: State, a: Action)
    requires Invariant(s)
    ensures Invariant(Moves(s, a))
  {
    match a
    case Start(parentCancelled) => StartKeeps(s, parentCancelled);
    case CancelParent(k) => CancellingKeeps(s, Some(k));
    case ByLoop(n, step) =>
      if n < |s.loops| {
        LoopMoveKeepsFields(s, n, step);
        LoopMoveKeepsStops(s, n, step);
      }
    case ByInventory(m, step) =>
      if m < |s.loops| {
        InventoryMoveKeeps(s, m, step);
      }
    case ByStopper(j, step) =>
      if j < |s.stoppers| {
        StopperMoveKeeps(s, j, step);
      }
  }

  lemma {:induction false} AlwaysInvariant(start: State, schedule: seq<Action>)
    requires Init(start)
    ensures Invariant(After(start, schedule))
  {
    if schedule != [] {
      var n := |schedule| - 1;
      AlwaysInvariant(start, schedule[..n]);
      MoveKeepsInvariant(After(start, schedule[..n]), schedule[n]);
    }
  }

  // ----- What it means -----

  /** At most one loop is before its finishStopped; running holds exactly when there is one, and then
      m.done is its channel, not yet closed. No channel is ever closed twice. */
  lemma OneLoopAtATime(start: State, schedule: seq<Action>)
    requires Init(start)
    ensures var s := After(start, schedule);
            && (forall i, j | 0 <= i < |s.loops| && 0 <= j < |s.loops| && Live(s.loops[i]) && Live(s.loops[j]) ::
                  i == j)
            && (s.running <==> exists i :: 0 <= i < |s.loops| && Live(s.loops[i]))
            && (forall i | 0 <= i < |s.loops| && Live(s.loops[i]) :: s.done == Some(i) && s.loops[i].closes == 0)
            && (!s.running ==> s.done == None && s.cancel == None)
            && (forall i | 0 <= i < |s.loops| :: s.loops[i].closes <= 1)
  {
    AlwaysInvariant(start, schedule);
    var s := After(start, schedule);
    if s.running {
      assert Live(s.loops[|s.loops| - 1]);
    }
  }

  /** The status never says connected without running, and says it exactly while the running loop is
      between its two writes. */
  lemma ConnectedImpliesRunning(start: State, schedule: seq<Action>)
    requires Init(start)
    ensures var s := After(start, schedule);
            && s.statusRunning == s.running
            && (s.connected ==> s.running)
            && (s.connected <==> exists i :: 0 <= i < |s.loops| && IsConnected(s.loops[i]))
  {
    AlwaysInvariant(start, schedule);
    var s := After(start, schedule);
    if s.connected {
      assert IsConnected(s.loops[|s.loops| - 1]);
    }
  }

  /** A Stop that waited for a loop returns only after that loop has run finishStopped and closed its
      channel; if the manager runs again by then, it is a later loop that runs. */
  lemma StopReturnsAfterTheLoop(start: State, schedule: seq<Action>, j: nat)
    requires Init(start)
    requires j < |After(start, schedule).stoppers|
    requires After(start, schedule).stoppers[j].Returned? && After(start, schedule).stoppers[j].done.Some?
    ensures var s := After(start, schedule);
            var k := s.stoppers[j].done.value;
            && k < |s.loops| && s.loops[k].place == Closed && s.loops[k].closes == 1
            && (s.running ==> s.done.Some? && s.done.value > k)
  {
    AlwaysInvariant(start, schedule);
    var s := After(start, schedule);
    assert StopperInOrder(s, s.stoppers[j]);
  }

  /** No Stop waits for a loop that nobody cancels: from the moment it has taken the fields, the loop is
      cancelled, or the cancel function is in the hands of a Stop that is about to call it, or the loop
      is past finishStopped. */
  lemma NobodyWaitsInVain(start: State, schedule: seq<Action>, j: nat)
    requires Init(start)
    requires j < |After(start, schedule).stoppers| && Target(After(start, schedule).stoppers[j]).Some?
    ensures var s := After(start, schedule);
            var k := Target(s.stoppers[j]).value;
            k < |s.loops| && (Live(s.loops[k]) ==> s.loops[k].cancelled || CancelHeld(s.stoppers, k))
  {
    AlwaysInvariant(start, schedule);
    var s := After(start, schedule);
    assert StopperInOrder(s, s.stoppers[j]);
  }

  // ----- A cancelled loop comes to its end -----

  /** How many steps a cancelled loop can still take. */
  function Rank(place: Place): nat {
    match place
    case Connecting => 11
    case Consuming => 8
    case Stopping(_) => 7
    case Awaiting(_) => 6
    case Leaving(_) => 5
    case Sleeping => 4
    case Pending => 4
    case Checking => 3
    case Finishing => 2
    case Finished => 1
    case Closed => 0
  }

  /** How many steps its inventory run can still take. */
  function RunRank(inventory: Inventory): nat {
    if inventory.NeverStarted? then 0
    else (if inventory.on then 1 else 0) + if inventory.ended then 0 else 1
  }

  function TotalRank(loop: Loop): nat {
    Rank(loop.place) + RunRank(loop.inventory)
  }

  /** How many steps of loop k and of its inventory run in a schedule change something. */
  function Progress(start: State, schedule: seq<Action>, k: nat): nat {
    if schedule == [] then
      0
    else
      var n := |schedule| - 1;
      Progress(start, schedule[..n], k) + if Advances(After(start, schedule[..n]), schedule[n], k) then 1 else 0
  }

  predicate Advances(s: State, a: Action, k: nat) {
    && k < |s.loops|
    && match a
       case ByLoop(n, step) => n == k && Proceeds(s.loops[k], step) != s.loops[k].place
       case ByInventory(m, step) => m == k && RunsOn(s.loops[k].inventory, step) != s.loops[k].inventory
       case _ => false
  }

  lemma ProceedingLowersRank(loop: Loop, step: LoopStep)
    requires loop.cancelled
    ensures var place := Proceeds(loop, step);
            place == loop.place
            || Rank(place) + RunRank(InventoryAfter(loop, step)) < TotalRank(loop)
  {}

  lemma RunningOnLowersRank(inventory: Inventory, step: InventoryStep)
    ensures RunsOn(inventory, step) == inventory || RunRank(RunsOn(inventory, step)) < RunRank(inventory)
  {}

  lemma MoveLowersRank(s: State, a: Action, k: nat)
    requires k < |s.loops| && s.loops[k].cancelled
    ensures var t := Moves(s, a);
            && k < |t.loops| && t.loops[k].cancelled
            && TotalRank(t.loops[k]) + (if Advances(s, a, k) then 1 else 0) <= TotalRank(s.loops[k])
  {
    match a
    case ByLoop(n, step) => ProceedingLowersRank(s.loops[k], step);
    case ByInventory(m, step) => RunningOnLowersRank(s.loops[k].inventory, step);
    case _ =>
  }

  /** Once cancelled, a loop and its inventory run move at most thirteen more times together, whatever the
      other threads do, and each time the loop comes closer to closing its channel. */
  lemma {:induction false} CancelledLoopEnds(start: State, schedule: seq<Action>, k: nat)
    requires k < |start.loops| && start.loops[k].cancelled
    ensures var s := After(start, schedule);
            && k < |s.loops| && s.loops[k].cancelled
            && Progress(start, schedule, k) + TotalRank(s.loops[k]) <= TotalRank(start.loops[k]) <= 13
  {
    if schedule != [] {
      var n := |schedule| - 1;
      CancelledLoopEnds(start, schedule[..n], k);
      MoveLowersRank(After(start, schedule[..n]), schedule[n], k);
    }
  }

  /** Until a cancelled loop has closed its channel, it has a step to take itself, unless it waits in
      StopInventory for an inventory run that has not ended: then that run has one. No third thread is
      needed. */
  lemma CancelledLoopCanMove(start: State, schedule: seq<Action>, k: nat) returns (a: Action)
    requires Init(start)
    requires var s := After(start, schedule);
             k < |s.loops| && s.loops[k].cancelled && !s.loops[k].place.Closed?
    ensures var s := After(start, schedule);
            && Advances(s, a, k)
            && (a.ByInventory? <==> s.loops[k].place.Awaiting? && !s.loops[k].inventory.ended)
  {
    AlwaysInvariant(start, schedule);
    var loop := After(start, schedule).loops[k];
    assert AwaitsARun(loop);
    match loop.place
    case Pending => a := ByLoop(k, Spawn);
    case Checking => a := ByLoop(k, Check);
    case Connecting => a := ByLoop(k, FailToConnect);
    case Consuming => a := ByLoop(k, StopConsuming(false));
    case Stopping(_) => a := ByLoop(k, StopInventory);
    case Awaiting(_) => a := if loop.inventory.ended then ByLoop(k, InventoryStopped) else ByInventory(k, CloseRun);
    case Leaving(_) => a := ByLoop(k, MarkDisconnected);
    case Sleeping => a := ByLoop(k, Wake(true));
    case Finishing => a := ByLoop(k, FinishStopped);
    case Finished => a := ByLoop(k, CloseDone);
  }
}
