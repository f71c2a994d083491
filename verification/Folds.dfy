/** Iterating a function, folding one over a sequence, and what both keep. */
module Folds {

  function Iterate<S>(f: S -> S, s: S, n: nat): S {
    if n == 0 then s else f(Iterate(f, s, n - 1))
  }

  function FoldLeft<S, B>(step: (S, B) -> S, s: S, items: seq<B>): S {
    if items == [] then s else step(FoldLeft(step, s, items[..|items| - 1]), items[|items| - 1])
  }

  function Zip<A>(op: (A, A) -> A, a: seq<A>, b: seq<A>): seq<A>
    requires |a| == |b|
  {
    seq(|a|, i requires 0 <= i < |a| => op(a[i], b[i]))
  }

  lemma {:induction false} IterateKeepsOperation<S(!new)>(f: S -> S, op: (S, S) -> S, x: S, y: S, n: nat)
    requires forall u, v :: f(op(u, v)) == op(f(u), f(v))
    ensures Iterate(f, op(x, y), n) == op(Iterate(f, x, n), Iterate(f, y, n))
  {
    if n > 0 {
      IterateKeepsOperation(f, op, x, y, n - 1);
    }
  }

  /** If g turns one step of f into two, it turns n steps into 2 * n. */
  lemma {:induction false} IterateDoubles<S(!new)>(f: S -> S, g: S -> S, s: S, n: nat)
    requires g(s) == s && forall u :: g(f(u)) == f(f(g(u)))
    ensures Iterate(f, s, 2 * n) == g(Iterate(f, s, n))
  {
    if n > 0 {
      IterateDoubles(f, g, s, n - 1);
      assert Iterate(f, s, 2 * n - 1) == f(Iterate(f, s, 2 * (n - 1)));
    }
  }

  lemma {:induction false} IterateAdds<S>(f: S -> S, s: S, m: nat, n: nat)
    ensures Iterate(f, s, m + n) == Iterate(f, Iterate(f, s, m), n)
  {
    if n > 0 {
      IterateAdds(f, s, m, n - 1);
    }
  }

  lemma {:induction false} IterateReaches<S(!new)>(f: S -> S, z: S, x: S, n: nat)
    requires forall u :: f(u) == z <==> u == z
    ensures Iterate(f, x, n) == z <==> x == z
  {
    if n > 0 {
      IterateReaches(f, z, x, n - 1);
    }
  }

  lemma IterateEight<S>(f: S -> S, s: S)
    ensures Iterate(f, s, 8) == f(f(f(f(f(f(f(f(s))))))))
  {
    assert Iterate(f, s, 4) == f(f(f(f(s))));
  }

  lemma {:induction false} FoldKeepsOperation<S(!new), B(!new)>(
      step: (S, B) -> S, opS: (S, S) -> S, opB: (B, B) -> B, x: S, y: S, a: seq<B>, b: seq<B>)
    requires |a| == |b|
    requires forall u, v, c, d :: step(opS(u, v), opB(c, d)) == opS(step(u, c), step(v, d))
    ensures FoldLeft(step, opS(x, y), Zip(opB, a, b)) == opS(FoldLeft(step, x, a), FoldLeft(step, y, b))
  {
    if a != [] {
      var n := |a| - 1;
      FoldKeepsOperation(step, opS, opB, x, y, a[..n], b[..n]);
      assert Zip(opB, a, b)[..n] == Zip(opB, a[..n], b[..n]);
    }
  }

  lemma {:induction false} FoldAppend<S, B>(step: (S, B) -> S, s: S, a: seq<B>, b: seq<B>)
    ensures FoldLeft(step, s, a + b) == FoldLeft(step, FoldLeft(step, s, a), b)
  {
    if b == [] {
      assert a + b == a;
    } else {
      var n := |b| - 1;
      FoldAppend(step, s, a, b[..n]);
      assert (a + b)[..|a + b| - 1] == a + b[..n];
    }
  }

  /** Folding the first item first. */
  lemma FoldFirst<S, B>(step: (S, B) -> S, s: S, items: seq<B>)
    requires items != []
    ensures FoldLeft(step, s, items) == FoldLeft(step, step(s, items[0]), items[1..])
  {
    FoldAppend(step, s, items[..1], items[1..]);
    assert items == items[..1] + items[1..];
    assert items[..1][..0] == [];
  }
}
