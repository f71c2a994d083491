/** Summing what the threads of a system hold, and how one thread's move changes the sum. */
module Threads {

  /** Everything the threads hold, with repetition. */
  function Bag<T, E>(threads: seq<T>, held: T -> multiset<E>): multiset<E> {
    if threads == [] then
      multiset{}
    else
      Bag(threads[..|threads| - 1], held) + held(threads[|threads| - 1])
  }

  function Sum<T>(threads: seq<T>, share: T -> nat): nat {
    if threads == [] then 0 else Sum(threads[..|threads| - 1], share) + share(threads[|threads| - 1])
  }

  lemma {:induction false} SumMoves<T>(threads: seq<T>, share: T -> nat, i: nat, t: T)
    requires i < |threads|
    ensures Sum(threads[i := t], share) + share(threads[i]) == Sum(threads, share) + share(t)
  {
    var n := |threads| - 1;
    if i == n {
      assert threads[i := t][..n] == threads[..n];
    } else {
      assert threads[i := t][..n] == threads[..n][i := t];
      SumMoves(threads[..n], share, i, t);
    }
  }

  lemma {:induction false} SumConcat<T>(a: seq<T>, b: seq<T>, share: T -> nat)
    ensures Sum(a + b, share) == Sum(a, share) + Sum(b, share)
  {
    if b == [] {
      assert a + b == a;
    } else {
      assert (a + b)[..|a + b| - 1] == a + b[..|b| - 1];
      SumConcat(a, b[..|b| - 1], share);
    }
  }

  lemma {:induction false} SumHas<T>(threads: seq<T>, share: T -> nat, i: nat)
    requires i < |threads|
    ensures share(threads[i]) <= Sum(threads, share)
  {
    var n := |threads| - 1;
    if i < n {
      SumHas(threads[..n], share, i);
    }
  }

  /** Two threads both count. */
  lemma {:induction false} SumHasBoth<T>(threads: seq<T>, share: T -> nat, i: nat, j: nat)
    requires i < j < |threads|
    ensures share(threads[i]) + share(threads[j]) <= Sum(threads, share)
  {
    var n := |threads| - 1;
    if j < n {
      SumHasBoth(threads[..n], share, i, j);
    } else {
      SumHas(threads[..n], share, i);
    }
  }

  /** A positive sum has a thread that contributes. */
  lemma {:induction false} SumHasSome<T>(threads: seq<T>, share: T -> nat)
    requires Sum(threads, share) > 0
    ensures exists i :: 0 <= i < |threads| && share(threads[i]) > 0
  {
    var n := |threads| - 1;
    if share(threads[n]) == 0 {
      SumHasSome(threads[..n], share);
      var i :| 0 <= i < n && share(threads[..n][i]) > 0;
      assert share(threads[i]) > 0;
    }
  }

  /** Threads that are all in one place where there is nothing to count. */
  lemma {:induction false} SumOfSame<T>(threads: seq<T>, share: T -> nat, t: T)
    requires share(t) == 0 && forall i | 0 <= i < |threads| :: threads[i] == t
    ensures Sum(threads, share) == 0
  {
    if threads != [] {
      SumOfSame(threads[..|threads| - 1], share, t);
    }
  }

  lemma {:induction false} BagCounts<T, E>(threads: seq<T>, held: T -> multiset<E>, share: T -> nat, e: E)
    requires forall i | 0 <= i < |threads| :: held(threads[i])[e] == share(threads[i])
    ensures Bag(threads, held)[e] == Sum(threads, share)
  {
    if threads != [] {
      BagCounts(threads[..|threads| - 1], held, share, e);
    }
  }

  lemma {:induction false} BagSize<T, E>(threads: seq<T>, held: T -> multiset<E>, share: T -> nat)
    requires forall i | 0 <= i < |threads| :: |held(threads[i])| == share(threads[i])
    ensures |Bag(threads, held)| == Sum(threads, share)
  {
    if threads != [] {
      BagSize(threads[..|threads| - 1], held, share);
    }
  }

  lemma {:induction false} SumBound<T>(threads: seq<T>, share: T -> nat, bound: nat)
    requires forall i | 0 <= i < |threads| :: share(threads[i]) <= bound
    ensures Sum(threads, share) <= |threads| * bound
  {
    if threads != [] {
      SumBound(threads[..|threads| - 1], share, bound);
    }
  }

  lemma {:induction false} SumZero<T>(threads: seq<T>, share: T -> nat)
    requires forall i | 0 <= i < |threads| :: share(threads[i]) == 0
    ensures Sum(threads, share) == 0
  {
    if threads != [] {
      SumZero(threads[..|threads| - 1], share);
    }
  }
}
