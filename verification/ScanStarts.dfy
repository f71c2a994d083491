/**
 What a Start of the scan manager achieves. It returns at once, without an error,
 when a scan loop is running; so one that comes while a Stop is under way leaves
 nothing behind but the loop that is about to end.
 */
module ScanStarts {
  import opened Folds
  import opened ScanManager

  /** The cancel function of loop k has been called, or a Stop is about to call it. */
  predicate Ending(s: State, k: nat)
    requires k < |s.loops|
  {
    s.loops[k].cancelled || CancelHeld(s.stoppers, k)
  }

  /** A Stop has taken the channel of loop k, to wait for it. */
  predicate BeingStopped(s: State, k: nat) {
    exists j :: 0 <= j < |s.stoppers| && Target(s.stoppers[j]) == Some(k)
  }

  /** No Start, no further call of Stop, and no cancellation from outside. */
  predicate LeftAlone(schedule: seq<Action>) {
    forall a | a in schedule ::
      !a.Start? && !a.CancelParent? && !(a.ByStopper? && a.stopStep.Grab?)
  }

  lemma LeftAloneBoth(a: seq<Action>, b: seq<Action>)
    ensures LeftAlone(a + b) <==> LeftAlone(a) && LeftAlone(b)
  {
    assert LeftAlone(a + b) ==> forall x | x in a :: x in a + b;
    assert LeftAlone(a + b) ==> forall x | x in b :: x in a + b;
  }

  // ----- A running loop without a cancel function is being stopped -----

  predicate TakenByStop(s: State) {
    s.running && s.cancel == None && s.loops != [] ==> BeingStopped(s, |s.loops| - 1)
  }

  lemma StopperMoveKeepsTaken(s: State, j: nat, step: StopStep)
    requires j < |s.stoppers| && FieldsInOrder(s) && TakenByStop(s)
    ensures TakenByStop(StopperMoves(s, j, step))
  {
    var t := StopperMoves(s, j, step);
    if t.running && t.cancel == None && t.loops != [] {
      if step.Grab? && !s.stoppers[j].Holding? && !s.stoppers[j].Waiting? {
        assert Target(t.stoppers[j]) == s.done;
      } else {
        var i :| 0 <= i < |s.stoppers| && Target(s.stoppers[i]) == Some(|s.loops| - 1);
        assert Target(t.stoppers[i]) == Target(s.stoppers[i]);
      }
    }
  }

  lemma MoveKeepsTaken(s: State, a: Action)
    requires FieldsInOrder(s) && TakenByStop(s)
    ensures TakenByStop(Moves(s, a))
  {
    if a.ByStopper? && a.j < |s.stoppers| {
      StopperMoveKeepsTaken(s, a.j, a.stopStep);
    } else {
      assert Moves(s, a).stoppers == s.stoppers;
    }
  }

  lemma {:induction false} AlwaysTaken(start: State, schedule: seq<Action>)
    requires Init(start)
    ensures TakenByStop(After(start, schedule))
  {
    if schedule != [] {
      var n := |schedule| - 1;
      AlwaysTaken(start, schedule[..n]);
      AlwaysInvariant(start, schedule[..n]);
      MoveKeepsTaken(After(start, schedule[..n]), schedule[n]);
    }
  }

  /** After a Start, some loop is running; a Stop is already waiting for it exactly when the Start found the
      manager running without a cancel function. Then the Start has changed nothing, and the loop has been
      cancelled or is about to be. */
  lemma StartIsLostIff(start: State, schedule: seq<Action>, parentCancelled: bool)
    requires Init(start)
    ensures var s := After(start, schedule);
            var t := Started(s, parentCancelled);
            && t.running && t.loops != [] && Live(t.loops[|t.loops| - 1])
            && (BeingStopped(t, |t.loops| - 1) <==> s.running && s.cancel == None)
            && (BeingStopped(t, |t.loops| - 1) ==> t == s && Ending(t, |t.loops| - 1))
  {
    AlwaysInvariant(start, schedule);
    AlwaysTaken(start, schedule);
    var s := After(start, schedule);
    var t := Started(s, parentCancelled);
    if j :| 0 <= j < |t.stoppers| && Target(t.stoppers[j]) == Some(|t.loops| - 1) {
      assert StopperInOrder(s, s.stoppers[j]);
    }
  }

  // ----- A loop that is not cancelled never ends -----

  /** The loop has no reason to end, and is not on its way out. */
  predicate Steady(loop: Loop) {
    && !loop.cancelled
    && match loop.place
       case Stopping(reconnect) => reconnect
       case Awaiting(reconnect) => reconnect
       case Leaving(reconnect) => reconnect
       case _ => !loop.place.Finishing? && !loop.place.Finished? && !loop.place.Closed?
  }

  /** A loop is on its way out only if it has been cancelled. */
  predicate LeavesForAReason(s: State) {
    forall i | 0 <= i < |s.loops| :: s.loops[i].cancelled || Steady(s.loops[i])
  }

  lemma ProceedingNeedsAReason(loop: Loop, step: LoopStep)
    requires Steady(loop)
    ensures Steady(loop.(place := Proceeds(loop, step)))
  {}

  lemma LoopMoveKeepsReason(s: State, n: nat, step: LoopStep)
    requires n < |s.loops| && LeavesForAReason(s)
    ensures LeavesForAReason(LoopMoves(s, n, step))
  {
    var t := LoopMoves(s, n, step);
    assert t.loops[n].place == Proceeds(s.loops[n], step) && t.loops[n].cancelled == s.loops[n].cancelled;
    if Steady(s.loops[n]) {
      ProceedingNeedsAReason(s.loops[n], step);
    }
  }

  lemma MoveKeepsReason(s: State, a: Action)
    requires LeavesForAReason(s)
    ensures LeavesForAReason(Moves(s, a))
  {
    if a.ByLoop? && a.n < |s.loops| {
      LoopMoveKeepsReason(s, a.n, a.loopStep);
    }
  }

  lemma {:induction false} AlwaysAReason(start: State, schedule: seq<Action>)
    requires Init(start)
    ensures LeavesForAReason(After(start, schedule))
  {
    if schedule != [] {
      var n := |schedule| - 1;
      AlwaysAReason(start, schedule[..n]);
      MoveKeepsReason(After(start, schedule[..n]), schedule[n]);
    }
  }

  /** Nobody has a cancel function for the loop in hand. */
  predicate Safe(s: State, k: nat) {
    k < |s.loops| && Steady(s.loops[k]) && !CancelHeld(s.stoppers, k)
  }

  lemma StopperKeepsSafe(s: State, j: nat, step: StopStep, k: nat)
    requires j < |s.stoppers| && Safe(s, k) && !step.Grab?
    ensures Safe(StopperMoves(s, j, step), k)
  {
    var t := StopperMoves(s, j, step);
    forall i | 0 <= i < |t.stoppers| && t.stoppers[i].Holding? ensures t.stoppers[i] == s.stoppers[i] {}
    if step.Cancel? && s.stoppers[j].Holding? {
      assert s.stoppers[j].cancel != Some(k);
    }
  }

  lemma LoopKeepsSafe(s: State, n: nat, step: LoopStep, k: nat)
    requires n < |s.loops| && Safe(s, k)
    ensures Safe(LoopMoves(s, n, step), k)
  {
    ProceedingNeedsAReason(s.loops[k], step);
    assert LoopMoves(s, n, step).stoppers == s.stoppers;
  }

  lemma MoveKeepsSafe(s: State, a: Action, k: nat)
    requires Safe(s, k) && LeftAlone([a])
    ensures Safe(Moves(s, a), k)
  {
    assert a in [a];
    match a
    case ByLoop(n, step) =>
      if n < |s.loops| {
        LoopKeepsSafe(s, n, step, k);
      }
    case ByInventory(m, step) =>
    case ByStopper(j, step) =>
      if j < |s.stoppers| {
        StopperKeepsSafe(s, j, step, k);
      }
  }

  lemma {:induction false} SafeLoopStays(s: State, schedule: seq<Action>, k: nat)
    requires Safe(s, k) && LeftAlone(schedule)
    ensures Safe(After(s, schedule), k)
  {
    if schedule != [] {
      var n := |schedule| - 1;
      assert schedule == schedule[..n] + [schedule[n]];
      LeftAloneBoth(schedule[..n], [schedule[n]]);
      SafeLoopStays(s, schedule[..n], k);
      MoveKeepsSafe(After(s, schedule[..n]), schedule[n], k);
    }
  }

  // ----- A cancelled one can always be brought to its end -----

  lemma AfterOneMore(start: State, schedule: seq<Action>, a: Action)
    ensures After(start, schedule + [a]) == Moves(After(start, schedule), a)
  {
    assert (schedule + [a])[..|schedule|] == schedule;
  }

  lemma {:induction false} BringToItsEnd(start: State, schedule: seq<Action>, k: nat) returns (rest: seq<Action>)
    requires Init(start) && k < |After(start, schedule).loops| && After(start, schedule).loops[k].cancelled
    ensures LeftAlone(rest)
    ensures var t := After(start, schedule + rest); k < |t.loops| && t.loops[k].place.Closed?
    decreases TotalRank(After(start, schedule).loops[k])
  {
    var s := After(start, schedule);
    if s.loops[k].place.Closed? {
      rest := [];
      assert schedule + [] == schedule;
    } else {
      var a := CancelledLoopCanMove(start, schedule, k);
      MoveLowersRank(s, a, k);
      AfterOneMore(start, schedule, a);
      var more := BringToItsEnd(start, schedule + [a], k);
      rest := [a] + more;
      assert schedule + [a] + more == schedule + rest;
    }
  }

  /** The Stop that has the cancel function calls it, and the loop comes to its end. */
  lemma CancelAndEnd(start: State, schedule: seq<Action>, k: nat) returns (rest: seq<Action>)
    requires Init(start) && k < |After(start, schedule).loops| && Ending(After(start, schedule), k)
    ensures LeftAlone(rest)
    ensures var t := After(start, schedule + rest); k < |t.loops| && t.loops[k].place.Closed?
  {
    var s := After(start, schedule);
    if s.loops[k].cancelled {
      rest := BringToItsEnd(start, schedule, k);
    } else {
      var j :| 0 <= j < |s.stoppers| && s.stoppers[j].Holding? && s.stoppers[j].cancel == Some(k);
      var a := ByStopper(j, Cancel);
      AfterOneMore(start, schedule, a);
      var more := BringToItsEnd(start, schedule + [a], k);
      rest := [a] + more;
      assert schedule + [a] + more == schedule + rest;
    }
  }

  ghost predicate CanEnd(s: State, k: nat) {
    exists rest :: LeftAlone(rest) && k < |After(s, rest).loops| && After(s, rest).loops[k].place.Closed?
  }

  /** In every reachable state, a loop can come to its end when left alone exactly when it has been cancelled
      or a Stop is about to cancel it. */
  lemma CanEndIff(start: State, schedule: seq<Action>, k: nat)
    requires Init(start) && k < |After(start, schedule).loops|
    ensures CanEnd(After(start, schedule), k) <==> Ending(After(start, schedule), k)
  {
    var s := After(start, schedule);
    AlwaysAReason(start, schedule);
    if Ending(s, k) {
      var rest := CancelAndEnd(start, schedule, k);
      FoldAppend(Moves, start, schedule, rest);
    } else {
      forall rest | LeftAlone(rest) ensures Safe(After(s, rest), k) {
        SafeLoopStays(s, rest, k);
      }
    }
  }

  /** After a Start, the latest loop runs for as long as it is left alone, except exactly when the Start found
      a running loop that had been cancelled or was about to be, or found none and its own context was
      cancelled already; and it finds a loop about to end whenever it comes while a Stop is under way. */
  lemma StartLastsIff(start: State, schedule: seq<Action>, parentCancelled: bool)
    requires Init(start)
    ensures var s := After(start, schedule);
            var t := After(start, schedule + [Start(parentCancelled)]);
            && t.loops != [] && (s.running ==> s.loops != [])
            && (CanEnd(t, |t.loops| - 1) <==> if s.running then Ending(s, |s.loops| - 1) else parentCancelled)
            && (s.running && s.cancel == None ==> CanEnd(t, |t.loops| - 1))
  {
    var a := Start(parentCancelled);
    var s := After(start, schedule);
    var t := After(start, schedule + [a]);
    AfterOneMore(start, schedule, a);
    StartIsLostIff(start, schedule, parentCancelled);
    CanEndIff(start, schedule + [a], |t.loops| - 1);
    AlwaysInvariant(start, schedule);
  }

  /** Cancelling the context of a Start from outside ends its loop as a Stop would. */
  lemma OutsideCancelEnds(start: State, schedule: seq<Action>, k: nat)
    requires Init(start) && k < |After(start, schedule).loops|
    ensures CanEnd(After(start, schedule + [CancelParent(k)]), k)
  {
    AfterOneMore(start, schedule, CancelParent(k));
    CanEndIff(start, schedule + [CancelParent(k)], k);
  }

  // ----- A loop that is not cancelled can always connect, again if need be -----

  /** How many steps it is from being connected. */
  function Distance(loop: Loop): nat {
    match loop.place
    case Consuming => 0
    case Connecting => 1
    case Checking => 2
    case Pending => 3
    case Sleeping => 3
    case Leaving(_) => 4
    case Awaiting(_) => if loop.inventory.Run? && loop.inventory.ended then 5 else 6
    case Stopping(_) => 7
    case _ => 8
  }

  /** The next step of a loop on its way to a connection. */
  function Onward(loop: Loop): LoopStep {
    match loop.place
    case Pending => Spawn
    case Checking => Check
    case Connecting => MarkConnected
    case Stopping(_) => StopInventory
    case Awaiting(_) => InventoryStopped
    case Leaving(_) => MarkDisconnected
    case _ => Wake(false)
  }

  /** It has to wait for the inventory run of its client. */
  predicate HasToWait(loop: Loop) {
    loop.place.Awaiting? && !(loop.inventory.Run? && loop.inventory.ended)
  }

  lemma OnwardIsCloser(loop: Loop)
    requires Steady(loop) && !loop.place.Consuming? && !HasToWait(loop)
    ensures var place := Proceeds(loop, Onward(loop));
            var next := loop.(place := place, inventory := InventoryAfter(loop, Onward(loop)));
            place != loop.place && Steady(next) && Distance(next) < Distance(loop)
  {}

  lemma SteadyCanAdvance(s: State, k: nat) returns (a: Action)
    requires k < |s.loops| && Steady(s.loops[k]) && !s.loops[k].place.Consuming? && AwaitsARun(s.loops[k])
    ensures LeftAlone([a])
    ensures var t := Moves(s, a);
            k < |t.loops| && Steady(t.loops[k]) && Distance(t.loops[k]) < Distance(s.loops[k])
  {
    var loop := s.loops[k];
    if HasToWait(loop) {
      a := ByInventory(k, CloseRun);
    } else {
      a := ByLoop(k, Onward(loop));
      OnwardIsCloser(loop);
      LoopGoesOnward(s, k);
    }
  }

  lemma LoopGoesOnward(s: State, k: nat)
    requires k < |s.loops| && Proceeds(s.loops[k], Onward(s.loops[k])) != s.loops[k].place
    ensures var step := Onward(s.loops[k]);
            var t := LoopMoves(s, k, step);
            && k < |t.loops|
            && t.loops[k].place == Proceeds(s.loops[k], step)
            && t.loops[k].inventory == InventoryAfter(s.loops[k], step)
            && t.loops[k].cancelled == s.loops[k].cancelled
  {}

  lemma ConsumingIsConnected(start: State, schedule: seq<Action>, k: nat)
    requires Init(start) && k < |After(start, schedule).loops| && After(start, schedule).loops[k].place.Consuming?
    ensures After(start, schedule).connected && After(start, schedule).running
  {
    AlwaysInvariant(start, schedule);
    assert IsConnected(After(start, schedule).loops[k]);
  }

  lemma OneStepOnward(start: State, schedule: seq<Action>, k: nat) returns (a: Action)
    requires Init(start) && k < |After(start, schedule).loops|
    requires !After(start, schedule).loops[k].cancelled && !After(start, schedule).loops[k].place.Consuming?
    ensures LeftAlone([a])
    ensures var t := After(start, schedule + [a]);
            && k < |t.loops| && !t.loops[k].cancelled
            && Distance(t.loops[k]) < Distance(After(start, schedule).loops[k])
  {
    var s := After(start, schedule);
    AlwaysAReason(start, schedule);
    AlwaysInvariant(start, schedule);
    assert AwaitsARun(s.loops[k]);
    a := SteadyCanAdvance(s, k);
    AfterOneMore(start, schedule, a);
  }

  /** In every reachable state, a loop that has not been cancelled can come to be connected, without anything
      from outside: a failed connect or a lost connection is tried again. */
  lemma {:induction false} CanConnect(start: State, schedule: seq<Action>, k: nat) returns (rest: seq<Action>)
    requires Init(start) && k < |After(start, schedule).loops| && !After(start, schedule).loops[k].cancelled
    ensures LeftAlone(rest)
    ensures var t := After(start, schedule + rest);
            k < |t.loops| && t.loops[k].place.Consuming? && t.connected && t.running
    decreases Distance(After(start, schedule).loops[k])
  {
    if After(start, schedule).loops[k].place.Consuming? {
      rest := [];
      assert schedule + [] == schedule;
      ConsumingIsConnected(start, schedule, k);
    } else {
      var a := OneStepOnward(start, schedule, k);
      var more := CanConnect(start, schedule + [a], k);
      rest := [a] + more;
      LeftAloneBoth([a], more);
      assert schedule + [a] + more == schedule + rest;
    }
  }

  // ----- Every Stop can return -----

  lemma WaitingStays(s: State, a: Action, j: nat, done: Option<nat>)
    requires LeftAlone([a]) && j < |s.stoppers|
    requires s.stoppers[j] == Waiting(done) || s.stoppers[j] == Returned(done)
    ensures var t := Moves(s, a);
            j < |t.stoppers| && (t.stoppers[j] == Waiting(done) || t.stoppers[j] == Returned(done))
  {
    assert a in [a];
    if !a.ByStopper? {
      assert Moves(s, a).stoppers == s.stoppers;
    }
  }

  lemma {:induction false} WaitingGoesOn(s: State, schedule: seq<Action>, j: nat, done: Option<nat>)
    requires LeftAlone(schedule) && j < |s.stoppers| && s.stoppers[j] == Waiting(done)
    ensures var t := After(s, schedule);
            j < |t.stoppers| && (t.stoppers[j] == Waiting(done) || t.stoppers[j] == Returned(done))
  {
    if schedule != [] {
      var n := |schedule| - 1;
      assert schedule == schedule[..n] + [schedule[n]];
      LeftAloneBoth(schedule[..n], [schedule[n]]);
      WaitingGoesOn(s, schedule[..n], j, done);
      WaitingStays(After(s, schedule[..n]), schedule[n], j, done);
    }
  }

  /** What a waiting Stop waits for is cancelled, or about to be. */
  lemma AwaitedIsEnding(start: State, schedule: seq<Action>, j: nat, k: nat)
    requires Init(start) && j < |After(start, schedule).stoppers|
    requires After(start, schedule).stoppers[j] == Waiting(Some(k))
    ensures k < |After(start, schedule).loops| && Ending(After(start, schedule), k)
  {
    NobodyWaitsInVain(start, schedule, j);
    AlwaysAReason(start, schedule);
  }

  /** The loop of a waiting Stop can be brought to its end. */
  lemma EndTheAwaited(start: State, schedule: seq<Action>, j: nat, done: Option<nat>) returns (rest: seq<Action>)
    requires Init(start) && j < |After(start, schedule).stoppers|
    requires After(start, schedule).stoppers[j] == Waiting(done)
    ensures LeftAlone(rest)
    ensures IsClosed(After(start, schedule + rest).loops, done)
  {
    if done == None {
      rest := [];
      assert schedule + [] == schedule;
    } else {
      AwaitedIsEnding(start, schedule, j, done.value);
      rest := CancelAndEnd(start, schedule, done.value);
      AlwaysInvariant(start, schedule + rest);
    }
  }

  lemma WaitingCanReturn(start: State, schedule: seq<Action>, j: nat, done: Option<nat>) returns (rest: seq<Action>)
    requires Init(start) && j < |After(start, schedule).stoppers|
    requires After(start, schedule).stoppers[j] == Waiting(done)
    ensures LeftAlone(rest)
    ensures var t := After(start, schedule + rest); j < |t.stoppers| && t.stoppers[j] == Returned(done)
  {
    var ended := EndTheAwaited(start, schedule, j, done);
    FoldAppend(Moves, start, schedule, ended);
    WaitingGoesOn(After(start, schedule), ended, j, done);
    AfterOneMore(start, schedule + ended, ByStopper(j, Wait));
    rest := ended + [ByStopper(j, Wait)];
    assert schedule + ended + [ByStopper(j, Wait)] == schedule + rest;
    LeftAloneBoth(ended, [ByStopper(j, Wait)]);
  }

  /** In every reachable state, a call of Stop that is under way can return, without any further call. */
  lemma StopCanReturn(start: State, schedule: seq<Action>, j: nat) returns (rest: seq<Action>)
    requires Init(start) && j < |After(start, schedule).stoppers| && !After(start, schedule).stoppers[j].Idle?
    ensures LeftAlone(rest)
    ensures var t := After(start, schedule + rest); j < |t.stoppers| && t.stoppers[j].Returned?
  {
    match After(start, schedule).stoppers[j]
    case Holding(_, done) =>
      var a := ByStopper(j, Cancel);
      AfterOneMore(start, schedule, a);
      var more := WaitingCanReturn(start, schedule + [a], j, done);
      rest := [a] + more;
      assert schedule + [a] + more == schedule + rest;
      LeftAloneBoth([a], more);
    case Waiting(done) => rest := WaitingCanReturn(start, schedule, j, done);
    case Returned(_) =>
      rest := [];
      assert schedule + [] == schedule;
  }

  // ----- Inventory runs do not outlive their connection -----

  /** No inventory run goes off by itself. */
  predicate RunsStayOn(schedule: seq<Action>) {
    forall a | a in schedule :: !(a.ByInventory? && a.inventoryStep.MarkOff?)
  }

  /** The run is on while the loop is connected, and has ended wherever the loop is without a connection. */
  predicate InventoryFits(loop: Loop) {
    match loop.place
    case Consuming => loop.inventory == Run(true, false)
    case Stopping(_) => loop.inventory == Run(true, false)
    case Awaiting(_) => loop.inventory.Run? && !loop.inventory.on
    case _ => loop.inventory == NeverStarted || loop.inventory == Run(false, true)
  }

  predicate InventoriesFit(s: State) {
    forall i | 0 <= i < |s.loops| :: InventoryFits(s.loops[i])
  }

  lemma LoopMoveKeepsInventory(s: State, n: nat, step: LoopStep)
    requires n < |s.loops| && InventoriesFit(s)
    ensures InventoriesFit(LoopMoves(s, n, step))
  {
    var t := LoopMoves(s, n, step);
    assert InventoryFits(s.loops[n]);
    assert InventoryFits(t.loops[n]);
  }

  lemma MoveKeepsInventory(s: State, a: Action)
    requires InventoriesFit(s) && RunsStayOn([a])
    ensures InventoriesFit(Moves(s, a))
  {
    assert a in [a];
    if a.ByLoop? && a.n < |s.loops| {
      LoopMoveKeepsInventory(s, a.n, a.loopStep);
    } else if a.ByInventory? && a.m < |s.loops| {
      assert InventoryFits(s.loops[a.m]);
    }
  }

  /** As long as no inventory run goes off by itself, every loop has waited for the run of its last connection
      before it sleeps, connects again or ends. */
  lemma {:induction false} RunsEndWithTheConnection(start: State, schedule: seq<Action>)
    requires Init(start) && RunsStayOn(schedule)
    ensures InventoriesFit(After(start, schedule))
  {
    if schedule != [] {
      var n := |schedule| - 1;
      assert schedule[n] in schedule;
      RunsEndWithTheConnection(start, schedule[..n]);
      MoveKeepsInventory(After(start, schedule[..n]), schedule[n]);
    }
  }

  // ----- It happens -----

  /** One Stop that takes the cancel function, and a Start before it calls it. */
  lemma StartDuringStop() returns (start: State, schedule: seq<Action>)
    ensures Init(start) && schedule == [Start(false), ByStopper(0, Grab), Start(false)]
    ensures var s := After(start, schedule);
            && s.running && |s.loops| == 1 && BeingStopped(s, 0) && CanEnd(s, 0)
  {
    start := State(false, None, None, false, false, [], [Idle]);
    var first, second := [Start(false)], [Start(false), ByStopper(0, Grab)];
    AfterOneMore(start, [], Start(false));
    AfterOneMore(start, first, ByStopper(0, Grab));
    AfterOneMore(start, second, Start(false));
    assert [] + [Start(false)] == first && first + [ByStopper(0, Grab)] == second;
    schedule := second + [Start(false)];
    var s := After(start, schedule);
    assert Target(s.stoppers[0]) == Some(0) && s.stoppers[0].cancel == Some(0);
    CanEndIff(start, schedule, 0);
  }
}
