/**
 Walking a connect plan: one endpoint after the other until one connects or none
 is left. The model is a value in the gateway: a method works on a copy of it, and
 what it changes counts only if its caller adopts the copy that it returns.
 */
module ConnectWalk {
  import opened Effects
  import opened Endpoints
  import opened ConnectPlan

  /** The plan, which of its endpoints is attempted, and whether that connect is still under way. */
  datatype Walk = Walk(queue: seq<Endpoint>, attempt: nat, connecting: bool)

  predicate InOrder(w: Walk) {
    w.queue != [] ==> w.attempt < |w.queue|
  }

  /** The events are the endpoints that a connection is attempted to. */
  type Outcome = Effect<Walk, Endpoint>

  const RESTING := Walk([], 0, false)

  function Begun(plan: seq<Endpoint>): Outcome {
    if plan == [] then Effect(RESTING, []) else Effect(Walk(plan, 0, true), [plan[0]])
  }

  /** The next endpoint of the plan, if there is one. */
  function Retried(w: Walk): Outcome {
    if w.queue == [] then
      Effect(w, [])
    else if w.attempt + 1 >= |w.queue| then
      Effect(RESTING, [])
    else
      Effect(Walk(w.queue, w.attempt + 1, true), [w.queue[w.attempt + 1]])
  }

  /** The walk after Retried is adopted only if it goes on. */
  function Finished(w: Walk, failed: bool): Outcome {
    var here := w.(connecting := false);
    if !failed then
      Effect(RESTING, [])
    else if Retried(here).events != [] then
      Retried(here)
    else
      Effect(here, [])
  }

  class Model {
    var connectQueue: seq<Endpoint>
    var connectAttempt: nat
    var connecting: bool

    function View(): Walk
      reads this
    {
      Walk(connectQueue, connectAttempt, connecting)
    }

    constructor ()
      ensures View() == RESTING
    {
      connectQueue, connectAttempt, connecting := [], 0, false;
    }

    method BeginConnectPlan(candidates: seq<Candidate>, preferredIndex: int, scanPorts: seq<int>)
      returns (cmd: seq<Endpoint>)
      modifies this
      ensures Effect(View(), cmd) == Begun(Plan(candidates, preferredIndex, scanPorts))
      ensures InOrder(View())
    {
      var plan := BuildConnectPlan(candidates, preferredIndex, scanPorts);
      if |plan| == 0 {
        connectQueue, connectAttempt, connecting := [], 0, false;
        return [];
      }
      connectQueue, connectAttempt, connecting := plan, 0, true;
      return [plan[0]];
    }

    /** The walk that the copy is left with, for the caller to adopt or not. */
    method RetryNextConnect() returns (next: Walk, cmd: seq<Endpoint>, ok: bool)
      requires InOrder(View())
      ensures Effect(next, cmd) == Retried(View()) && InOrder(next)
      ensures ok == (cmd != [])
    {
      next := View();
      if |next.queue| == 0 {
        return next, [], false;
      }
      var attempt := next.attempt + 1;
      var total := |next.queue|;
      if attempt >= total {
        next := Walk([], 0, false);
        return next, [], false;
      }
      next := next.(attempt := attempt);
      var endpoint := next.queue[attempt];
      next := next.(connecting := true);
      return next, [endpoint], true;
    }

    method OnConnectFinished(failed: bool) returns (cmd: seq<Endpoint>)
      requires InOrder(View())
      modifies this
      ensures Effect(View(), cmd) == Finished(old(View()), failed) && InOrder(View())
    {
      connecting := false;
      if failed {
        var next, retry, ok := RetryNextConnect();
        if ok {
          connectQueue, connectAttempt, connecting := next.queue, next.attempt, next.connecting;
          return retry;
        }
        return [];
      }
      connectQueue, connectAttempt := [], 0;
      return [];
    }
  }

  // ----- Whole walks -----

  /** From the beginning of a plan, through the outcomes of its connects. */
  function WalkThrough(plan: seq<Endpoint>, outcomes: seq<bool>): Outcome {
    var rest := RunAll(Finished, Begun(plan).state, outcomes);
    Effect(rest.state, Begun(plan).events + rest.events)
  }

  predicate AllFailed(outcomes: seq<bool>) {
    forall i | 0 <= i < |outcomes| :: outcomes[i]
  }

  function Min(a: nat, b: nat): nat {
    if a < b then a else b
  }

  /** Where k failures lead: when all endpoints have failed, the walk stays at the last one. */
  function Failed(plan: seq<Endpoint>, k: nat): Walk {
    if plan == [] then RESTING
    else if k < |plan| then Walk(plan, k, true)
    else Walk(plan, |plan| - 1, false)
  }

  /** After k failures, the first k + 1 endpoints of the plan have been attempted, each once and in order;
      when all have failed, further failures change nothing, and the plan is still there. */
  lemma {:induction false} FailuresWalkThePlan(plan: seq<Endpoint>, outcomes: seq<bool>)
    requires AllFailed(outcomes)
    ensures var k := |outcomes|;
            WalkThrough(plan, outcomes) == Effect(Failed(plan, k), plan[..Min(k + 1, |plan|)])
  {
    if outcomes == [] {
      assert Begun(plan).events + [] == Begun(plan).events;
    } else {
      var n := |outcomes| - 1;
      var before := RunAll(Finished, Begun(plan).state, outcomes[..n]);
      var after := Finished(before.state, true);
      FailuresWalkThePlan(plan, outcomes[..n]);
      assert Begun(plan).events + (before.events + after.events) == (Begun(plan).events + before.events) + after.events;
      if n + 1 < |plan| {
        assert plan[..n + 1] + [plan[n + 1]] == plan[..n + 2];
      }
    }
  }

  /** If every connect fails, every entry of the plan is attempted exactly once, in order. */
  lemma ExhaustedWalk(candidates: seq<Candidate>, preferred: int, scanPorts: seq<int>, outcomes: seq<bool>)
    requires AllFailed(outcomes) && |outcomes| >= |Plan(candidates, preferred, scanPorts)|
    ensures var plan := Plan(candidates, preferred, scanPorts);
            WalkThrough(plan, outcomes) == Effect(Failed(plan, |plan|), plan)
  {
    var plan := Plan(candidates, preferred, scanPorts);
    FailuresWalkThePlan(plan, outcomes);
    assert plan[..|plan|] == plan;
  }

  /** The control page shows the plan as long as the queue is not empty. */
  predicate ShowsPlan(w: Walk) {
    w.queue != []
  }

  lemma {:induction false} SuccessClearsThePlan(plan: seq<Endpoint>, outcomes: seq<bool>)
    requires !AllFailed(outcomes)
    ensures WalkThrough(plan, outcomes).state == RESTING
  {
    var n := |outcomes| - 1;
    if outcomes[n] {
      SuccessClearsThePlan(plan, outcomes[..n]);
    }
  }

  /** The plan is cleared only by a success; and a plan is shown with no connect under way exactly when
      there is one and each of its endpoints has failed. */
  lemma PlanIsKeptIff(plan: seq<Endpoint>, outcomes: seq<bool>)
    ensures var w := WalkThrough(plan, outcomes).state;
            && (ShowsPlan(w) <==> plan != [] && AllFailed(outcomes))
            && (ShowsPlan(w) && !w.connecting <==>
                  plan != [] && AllFailed(outcomes) && |outcomes| >= |plan|)
  {
    if AllFailed(outcomes) {
      FailuresWalkThePlan(plan, outcomes);
    } else {
      SuccessClearsThePlan(plan, outcomes);
    }
  }

  /** A plan of one endpoint: when its connect has failed, the plan is still there. */
  lemma LonePlanIsKept(e: Endpoint)
    ensures WalkThrough([e], [true]) == Effect(Walk([e], 0, false), [e])
  {
    FailuresWalkThePlan([e], [true]);
    assert [e][..1] == [e];
  }

  /** A success after k failures ends the walk: exactly the first k + 1 endpoints have been attempted. */
  lemma SuccessEndsTheWalk(plan: seq<Endpoint>, failures: seq<bool>, later: seq<bool>)
    requires AllFailed(failures)
    ensures WalkThrough(plan, failures + [false] + later) == Effect(RESTING, plan[..Min(|failures| + 1, |plan|)])
  {
    var start := Begun(plan).state;
    FailuresWalkThePlan(plan, failures);
    RunConcat(Finished, start, failures + [false], later);
    RunConcat(Finished, start, failures, [false]);
    assert [false][..0] == [];
    RestingStays(later);
    var failed := RunAll(Finished, start, failures);
    assert Begun(plan).events + ((failed.events + ([] + [])) + []) == Begun(plan).events + failed.events;
  }

  lemma {:induction false} RestingStays(outcomes: seq<bool>)
    ensures RunAll(Finished, RESTING, outcomes) == Effect(RESTING, [])
  {
    if outcomes != [] {
      RestingStays(outcomes[..|outcomes| - 1]);
    }
  }
}
