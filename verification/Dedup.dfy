/** Sequences without repetition, and the first occurrences of a sequence. */
module Dedup {

  predicate Distinct<T(==)>(a: seq<T>) {
    forall i, j | 0 <= i < j < |a| :: a[i] != a[j]
  }

  function Elements<T(==)>(a: seq<T>): set<T> {
    set x | x in a
  }

  /** The items of a in order, each where it occurs first. */
  function Firsts<T(==)>(a: seq<T>): seq<T> {
    if a == [] then [] else WithNew(Firsts(a[..|a| - 1]), a[|a| - 1])
  }

  function WithNew<T(==)>(distinct: seq<T>, x: T): seq<T> {
    if x in distinct then distinct else distinct + [x]
  }

  function Filter<T>(keep: T -> bool, a: seq<T>): seq<T> {
    if a == [] then
      []
    else
      Filter(keep, a[..|a| - 1]) + if keep(a[|a| - 1]) then [a[|a| - 1]] else []
  }

  function Map<A, B>(f: A -> B, a: seq<A>): seq<B> {
    seq(|a|, i requires 0 <= i < |a| => f(a[i]))
  }

  lemma MapHas<A, B(!new)>(f: A -> B, a: seq<A>)
    ensures forall y :: y in Map(f, a) <==> exists i :: 0 <= i < |a| && f(a[i]) == y
  {
    forall y ensures y in Map(f, a) <==> exists i :: 0 <= i < |a| && f(a[i]) == y {
      if i :| 0 <= i < |a| && f(a[i]) == y {
        assert Map(f, a)[i] == y;
      }
    }
  }

  /** Where x occurs first. */
  function FirstIndex<T(==)>(a: seq<T>, x: T): (i: nat)
    requires x in a
    ensures i < |a| && a[i] == x && x !in a[..i]
  {
    if x in a[..|a| - 1] then
      var i := FirstIndex(a[..|a| - 1], x);
      assert a[..|a| - 1][..i] == a[..i];
      i
    else
      |a| - 1
  }

  lemma FirstIndexOfConcat<T>(a: seq<T>, b: seq<T>, x: T)
    requires x in a + b
    ensures FirstIndex(a + b, x) == if x in a then FirstIndex(a, x) else |a| + FirstIndex(b, x)
  {
    var all := a + b;
    var i := if x in a then FirstIndex(a, x) else |a| + FirstIndex(b, x);
    if x in a {
      assert all[..i] == a[..i];
    } else {
      assert all[..i] == a + b[..i - |a|];
    }
    FirstIndexIs(all, x, i);
  }

  lemma FirstIndexIs<T>(a: seq<T>, x: T, i: nat)
    requires i < |a| && a[i] == x && x !in a[..i]
    ensures FirstIndex(a, x) == i
  {
    var k := FirstIndex(a, x);
    forall j | 0 <= j < i ensures a[j] != x {
      assert a[..i][j] == a[j];
    }
    forall j | 0 <= j < k ensures a[j] != x {
      assert a[..k][j] == a[j];
    }
  }

  lemma FrontComesFirst<T>(front: seq<T>, last: seq<T>, x: T, y: T)
    requires x in front && y in last && y !in front
    ensures FirstIndex(front + last, x) < FirstIndex(front + last, y)
  {
    FirstIndexOfConcat(front, last, x);
    FirstIndexOfConcat(front, last, y);
  }

  lemma FrontStaysInOrder<T>(front: seq<T>, last: seq<T>, x: T, y: T)
    requires x in front && y in front
    ensures FirstIndex(front + last, x) < FirstIndex(front + last, y) <==> FirstIndex(front, x) < FirstIndex(front, y)
  {
    FirstIndexOfConcat(front, last, x);
    FirstIndexOfConcat(front, last, y);
  }

  /** Filtering keeps the order of first occurrences. */
  lemma {:induction false} FilterKeepsOrder<T(!new)>(keep: T -> bool, a: seq<T>, x: T, y: T)
    requires x in a && y in a && keep(x) && keep(y)
    requires FirstIndex(a, x) < FirstIndex(a, y)
    ensures x in Filter(keep, a) && y in Filter(keep, a)
    ensures FirstIndex(Filter(keep, a), x) < FirstIndex(Filter(keep, a), y)
  {
    var n := |a| - 1;
    var front := a[..n];
    assert a == front + [a[n]];
    FilterHas(keep, a);
    FilterHas(keep, front);
    FirstIndexOfConcat(front, [a[n]], x);
    if x !in front {
      assert false;
    } else if y in front {
      FrontStaysInOrder(front, [a[n]], x, y);
      FilterKeepsOrder(keep, front, x, y);
      FrontStaysInOrder(Filter(keep, front), if keep(a[n]) then [a[n]] else [], x, y);
    } else {
      FrontComesFirst(Filter(keep, front), [a[n]], x, y);
    }
  }

  /** No item is lost, none is repeated, and the order is that of the first occurrences. */
  lemma {:induction false} FirstsAreExact<T(!new)>(a: seq<T>)
    ensures Distinct(Firsts(a))
    ensures forall x :: x in Firsts(a) <==> x in a
    ensures forall i, j | 0 <= i < j < |Firsts(a)| ::
              Firsts(a)[i] in a && Firsts(a)[j] in a && FirstIndex(a, Firsts(a)[i]) < FirstIndex(a, Firsts(a)[j])
  {
    if a != [] {
      var n := |a| - 1;
      FirstsAreExact(a[..n]);
      assert a == a[..n] + [a[n]];
      var f, g := Firsts(a[..n]), Firsts(a);
      forall i, j | 0 <= i < j < |g|
        ensures g[i] in a && g[j] in a && FirstIndex(a, g[i]) < FirstIndex(a, g[j])
      {
        assert g[i] == f[i] && f[i] in f;
        if j < |f| {
          assert f[j] in f;
        }
      }
    }
  }

  lemma FirstsOfOneMore<T>(a: seq<T>, x: T)
    ensures Firsts(a + [x]) == WithNew(Firsts(a), x)
    ensures a + [] == a
  {
    assert (a + [x])[..|a|] == a;
  }

  lemma {:induction false} FirstStaysFirst<T>(a: seq<T>)
    requires a != []
    ensures Firsts(a) != [] && Firsts(a)[0] == a[0]
  {
    if |a| == 1 {
      assert a[..0] == [];
      assert Firsts(a) == WithNew([], a[0]);
    } else {
      FirstStaysFirst(a[..|a| - 1]);
    }
  }

  lemma FilterLast<T>(keep: T -> bool, a: seq<T>, k: nat)
    requires k < |a|
    ensures Filter(keep, a[..k + 1]) == Filter(keep, a[..k]) + if keep(a[k]) then [a[k]] else []
  {
    assert a[..k + 1][..k] == a[..k];
  }

  lemma {:induction false} FilterConcat<T>(keep: T -> bool, a: seq<T>, b: seq<T>)
    ensures Filter(keep, a + b) == Filter(keep, a) + Filter(keep, b)
  {
    if b == [] {
      assert a + b == a;
    } else {
      assert (a + b)[..|a + b| - 1] == a + b[..|b| - 1];
      FilterConcat(keep, a, b[..|b| - 1]);
    }
  }

  lemma {:induction false} FilterHas<T(!new)>(keep: T -> bool, a: seq<T>)
    ensures forall x :: x in Filter(keep, a) <==> x in a && keep(x)
  {
    if a != [] {
      var n := |a| - 1;
      FilterHas(keep, a[..n]);
      assert a == a[..n] + [a[n]];
    }
  }

  lemma {:induction false} FilterStaysDistinct<T(!new)>(keep: T -> bool, a: seq<T>)
    requires Distinct(a)
    ensures Distinct(Filter(keep, a))
  {
    if a != [] {
      var n := |a| - 1;
      FilterStaysDistinct(keep, a[..n]);
      FilterHas(keep, a[..n]);
    }
  }

  lemma {:induction false} DistinctSize<T(!new)>(a: seq<T>)
    requires Distinct(a)
    ensures |Elements(a)| == |a|
  {
    if a != [] {
      var n := |a| - 1;
      DistinctSize(a[..n]);
      assert a == a[..n] + [a[n]];
      assert Elements(a) == Elements(a[..n]) + {a[n]};
    }
  }
}
