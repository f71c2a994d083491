/** Steps that change a state and produce events, and runs of such steps. */
module Effects {

  datatype Effect<S, E> = Effect(state: S, events: seq<E>)

  type Step<!S, !I, !E> = (S, I) -> Effect<S, E>

  /** Taking one step per input, in order, and collecting the events. */
  function RunAll<S, I, E>(step: Step<S, I, E>, s: S, inputs: seq<I>): Effect<S, E> {
    if inputs == [] then
      Effect(s, [])
    else
      Then(step, RunAll(step, s, inputs[..|inputs| - 1]), inputs[|inputs| - 1])
  }

  function Then<S, I, E>(step: Step<S, I, E>, before: Effect<S, E>, input: I): Effect<S, E> {
    var after := step(before.state, input);
    Effect(after.state, before.events + after.events)
  }

  lemma RunLast<S, I, E>(step: Step<S, I, E>, s: S, inputs: seq<I>, k: nat)
    requires k < |inputs|
    ensures RunAll(step, s, inputs[..k + 1]) == Then(step, RunAll(step, s, inputs[..k]), inputs[k])
  {
    assert inputs[..k + 1][..k] == inputs[..k];
  }

  lemma {:induction false} RunConcat<S, I, E>(step: Step<S, I, E>, s: S, a: seq<I>, b: seq<I>)
    ensures var first := RunAll(step, s, a);
            var second := RunAll(step, first.state, b);
            RunAll(step, s, a + b) == Effect(second.state, first.events + second.events)
  {
    if b == [] {
      assert a + b == a;
    } else {
      var n := |b| - 1;
      RunConcat(step, s, a, b[..n]);
      assert (a + b)[..|a + b| - 1] == a + b[..n];
    }
  }

  /** A relation between a state and all events so far that every step keeps. */
  ghost predicate Keeps<S(!new), I(!new), E(!new)>(step: Step<S, I, E>, inv: (S, seq<E>) -> bool) {
    forall s: S, log: seq<E>, i: I | inv(s, log) :: inv(step(s, i).state, log + step(s, i).events)
  }

  lemma {:induction false} RunKeeps<S(!new), I(!new), E(!new)>(
      step: Step<S, I, E>, inv: (S, seq<E>) -> bool, s: S, log: seq<E>, inputs: seq<I>)
    requires Keeps(step, inv) && inv(s, log)
    ensures inv(RunAll(step, s, inputs).state, log + RunAll(step, s, inputs).events)
  {
    if inputs == [] {
      assert log + [] == log;
    } else {
      var before := RunAll(step, s, inputs[..|inputs| - 1]);
      RunKeeps(step, inv, s, log, inputs[..|inputs| - 1]);
      var after := step(before.state, inputs[|inputs| - 1]);
      assert log + (before.events + after.events) == (log + before.events) + after.events;
    }
  }

  /** A function of the inputs so far that every step extends correctly is what the run computes. */
  lemma {:induction false} RunIsWhole<S(!new), I(!new), E(!new)>(
      step: Step<S, I, E>, s: S, whole: seq<I> -> Effect<S, E>, good: I -> bool, inputs: seq<I>)
    requires whole([]) == Effect(s, [])
    requires forall before: seq<I>, i: I | good(i) :: Then(step, whole(before), i) == whole(before + [i])
    requires forall i | i in inputs :: good(i)
    ensures RunAll(step, s, inputs) == whole(inputs)
  {
    if inputs != [] {
      var n := |inputs| - 1;
      RunIsWhole(step, s, whole, good, inputs[..n]);
      assert inputs == inputs[..n] + [inputs[n]] && inputs[n] in inputs;
    }
  }
}
