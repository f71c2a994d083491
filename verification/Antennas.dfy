/**
 The antenna rotation of the inventory loop, and why it is fair.
 */
module Antennas {
  import opened Bytes
  import opened Modular

  const PORTS: nat := 8

  // ----- One choice -----

  /** byte(1) << i */
  function Single(i: nat): Octet
    requires i < PORTS
  {
    match i
    case 0 => 0x01 case 1 => 0x02 case 2 => 0x04 case 3 => 0x08
    case 4 => 0x10 case 5 => 0x20 case 6 => 0x40 case 7 => 0x80
  }

  predicate IsSet(m: Octet, i: nat)
    requires i < PORTS
  {
    m & Single(i) != 0
  }

  /** The enabled ports of a mask; the empty mask stands for the first port. */
  function Ports(mask: Octet): (on: seq<bool>)
    ensures |on| == PORTS
  {
    var m := if mask == 0 then 0x01 else mask;
    seq(PORTS, i requires 0 <= i < PORTS => IsSet(m, i))
  }

  /** Port i stands for bit i. */
  lemma SingleIsBit(i: nat)
    requires i < PORTS
    ensures Value(Single(0)) == 1
    ensures i > 0 ==> Value(Single(i)) == 2 * Value(Single(i - 1))
  {}

  /** The enabled ports are the bits of the mask; an empty mask enables the first one alone. */
  lemma PortsAreBits(mask: Octet, i: nat)
    requires i < PORTS
    ensures Ports(mask)[i] <==> if mask == 0 then i == 0 else mask & Single(i) != 0
  {
    FirstBit(i);
    var m := if mask == 0 then 0x01 else mask;
    assert Ports(mask)[i] == IsSet(m, i);
  }

  lemma FirstBit(i: nat)
    requires i < PORTS
    ensures 0x01 & Single(i) != 0 <==> i == 0
  {
    assert Single(i) == if i == 0 then 0x01 else Single(i);
  }

  lemma SomeBitSet(m: Octet)
    requires m != 0
    ensures IsSet(m, 0) || IsSet(m, 1) || IsSet(m, 2) || IsSet(m, 3)
         || IsSet(m, 4) || IsSet(m, 5) || IsSet(m, 6) || IsSet(m, 7)
  {}

  /** The fallback behind the loop of NextInventoryAntenna is never reached. */
  lemma SomePortEnabled(mask: Octet)
    ensures true in Ports(mask)
  {
    var m := if mask == 0 then 0x01 else mask;
    var on := Ports(mask);
    SomeBitSet(m);
    assert on[0] || on[1] || on[2] || on[3] || on[4] || on[5] || on[6] || on[7];
  }

  /** The first enabled port at or behind i, or |on| if there is none. */
  function FirstFrom(on: seq<bool>, i: nat): (c: nat)
    requires i <= |on|
    ensures i <= c <= |on|
    ensures c < |on| ==> on[c]
    ensures forall j | i <= j < c :: !on[j]
    decreases |on| - i
  {
    if i == |on| || on[i] then i else FirstFrom(on, i + 1)
  }

  /** The next enabled port at or behind s, going round. */
  function Choose(on: seq<bool>, s: nat): (c: nat)
    requires s < |on| && true in on
    ensures c < |on| && on[c]
  {
    var c := FirstFrom(on, s);
    if c < |on| then c else FirstFrom(on, 0)
  }

  /** Go's remainder operator, which truncates toward zero. */
  function TruncRem(a: int, b: int): int
    requires b > 0
  {
    if a >= 0 then a % b else -((-a) % b)
  }

  lemma NormalizedStart(start: int)
    ensures TruncRem(TruncRem(start, 8) + 8, 8) == start % 8
  {}

  method Normalized(start: int) returns (s: nat)
    ensures s == start % 8
  {
    NormalizedStart(start);
    s := TruncRem(TruncRem(start, 8) + 8, 8);
  }

  method NextInventoryAntenna(mask: Octet, start: int) returns (port: Byte, next: nat)
    ensures var on := Ports(mask);
            if true in on then
              port as int == 0x80 + Choose(on, start % 8) && next == (Choose(on, start % 8) + 1) % 8
            else
              port == 0x80 && next == start % 8
  {
    var m := if mask == 0 then 0x01 else mask;
    var s := Normalized(start);
    ghost var on := Ports(mask);
    for i := 0 to 8
      invariant forall j: nat | j < i :: !on[Around(s, j)]
    {
      var idx := Around(s, i);
      if IsSet(m, idx) {
        ChosenAtDistance(on, s, i);
        return 0x80 + idx, (idx + 1) % 8;
      }
    }
    NothingEnabled(on, s);
    return 0x80, s;
  }

  function Around(s: nat, j: nat): (p: nat)
    ensures p < 8
  {
    (s + j) % 8
  }

  lemma ChosenAtDistance(on: seq<bool>, s: nat, i: nat)
    requires |on| == 8 && s < 8 && i < 8 && on[Around(s, i)]
    requires forall j: nat | j < i :: !on[Around(s, j)]
    ensures true in on && Choose(on, s) == Around(s, i)
  {
    forall p: nat | s <= p < 8 && p < s + i ensures !on[p] {
      assert Around(s, p - s) == p;
    }
    forall p: nat | s + i >= 8 && p < s + i - 8 ensures !on[p] {
      assert Around(s, p + 8 - s) == p;
    }
  }

  lemma NothingEnabled(on: seq<bool>, s: nat)
    requires |on| == 8 && s < 8
    requires forall j: nat | j < 8 :: !on[Around(s, j)]
    ensures true !in on
  {
    forall p: nat | p < 8 ensures !on[p] {
      assert Around(s, if p >= s then p - s else p + 8 - s) == p;
    }
  }

  // ----- Many rounds -----

  /** How many ports in front of i are enabled. */
  function Rank(on: seq<bool>, i: nat): nat
    requires i <= |on|
  {
    if i == 0 then 0 else Rank(on, i - 1) + if on[i - 1] then 1 else 0
  }

  function Count(on: seq<bool>): nat {
    Rank(on, |on|)
  }

  /** The start index after n rounds. */
  function StartAfter(on: seq<bool>, s: nat, n: nat): (t: nat)
    requires s < |on| && true in on
    ensures t < |on|
  {
    if n == 0 then s else (Choose(on, StartAfter(on, s, n - 1)) + 1) % |on|
  }

  /** The port chosen in round j. */
  function Chosen(on: seq<bool>, s: nat, j: nat): (c: nat)
    requires s < |on| && true in on
    ensures c < |on| && on[c]
  {
    Choose(on, StartAfter(on, s, j))
  }

  /** In how many of the rounds from a up to b a rotation picks p. */
  function Turns(pick: nat -> nat, a: nat, b: nat, p: nat): nat
    requires a <= b
    decreases b - a
  {
    if a == b then 0 else Turns(pick, a, b - 1, p) + if pick(b - 1) == p then 1 else 0
  }

  lemma {:induction false} RankGrows(on: seq<bool>, i: nat, j: nat)
    requires i <= j <= |on|
    ensures Rank(on, i) <= Rank(on, j)
    ensures (forall x | i <= x < j :: !on[x]) <==> Rank(on, i) == Rank(on, j)
  {
    if i < j {
      RankGrows(on, i, j - 1);
    }
  }

  lemma CountIsPositive(on: seq<bool>)
    requires true in on
    ensures Count(on) > 0
  {
    RankGrows(on, 0, |on|);
  }

  lemma RankIsInjective(on: seq<bool>, a: nat, b: nat)
    requires a < |on| && b < |on| && on[a] && on[b] && Rank(on, a) == Rank(on, b)
    ensures a == b
  {
    RankGrows(on, a, if a < b then b else a);
    RankGrows(on, b, if a < b then b else a);
  }

  lemma RankBelowCount(on: seq<bool>, a: nat)
    requires a < |on| && on[a]
    ensures Rank(on, a) < Count(on)
  {
    RankGrows(on, a, |on|);
  }

  /** A choice moves to the enabled port whose rank is that of the start, modulo their number. */
  lemma RankOfChoice(on: seq<bool>, s: nat)
    requires s < |on| && true in on
    ensures Count(on) > 0
    ensures Rank(on, Choose(on, s)) == Rank(on, s) % Count(on)
  {
    CountIsPositive(on);
    var c := FirstFrom(on, s);
    RankGrows(on, s, c);
    if c < |on| {
      RankBelowCount(on, c);
      ModSmall(Rank(on, s), Count(on));
    } else {
      RankGrows(on, 0, FirstFrom(on, 0));
      ModPeriod(0, Count(on));
      ModSmall(0, Count(on));
    }
  }

  lemma RankOfNext(on: seq<bool>, c: nat)
    requires c < |on| && on[c]
    ensures Count(on) > 0
    ensures Rank(on, (c + 1) % |on|) % Count(on) == (Rank(on, c) + 1) % Count(on)
  {
    RankBelowCount(on, c);
    assert Rank(on, c + 1) == Rank(on, c) + 1;
    if c + 1 == |on| {
      ModPeriod(0, |on|);
      ModPeriod(0, Count(on));
    } else {
      ModSmall(c + 1, |on|);
    }
  }

  /** One round takes the rank of the start one further, going round. */
  lemma RankAfterRound(on: seq<bool>, t: nat)
    requires t < |on| && true in on
    ensures Count(on) > 0
    ensures Rank(on, (Choose(on, t) + 1) % |on|) % Count(on) == (Rank(on, t) % Count(on) + 1) % Count(on)
  {
    CountIsPositive(on);
    RankOfChoice(on, t);
    RankOfNext(on, Choose(on, t));
  }

  lemma {:induction false} RankOfStart(on: seq<bool>, s: nat, n: nat)
    requires s < |on| && true in on
    ensures Count(on) > 0
    ensures Rank(on, StartAfter(on, s, n)) % Count(on) == (Rank(on, s) + n) % Count(on)
  {
    CountIsPositive(on);
    if n > 0 {
      RankOfStart(on, s, n - 1);
      RankAfterRound(on, StartAfter(on, s, n - 1));
      ModSuccessor(Rank(on, s) + n - 1, Count(on));
    }
  }

  /** Round j goes to the enabled port of rank (rank of the start + j) modulo their number. */
  lemma RankOfRound(on: seq<bool>, s: nat, j: nat)
    requires s < |on| && true in on
    ensures Count(on) > 0
    ensures Rank(on, Chosen(on, s, j)) == (Rank(on, s) + j) % Count(on)
  {
    RankOfStart(on, s, j);
    RankOfChoice(on, StartAfter(on, s, j));
  }

  /** A port's turn comes in round j exactly when its rank says so. */
  lemma TurnIff(on: seq<bool>, s: nat, j: nat, p: nat)
    requires s < |on| && true in on && p < |on| && on[p]
    ensures Count(on) > 0
    ensures Chosen(on, s, j) == p <==> (Rank(on, s) + j) % Count(on) == Rank(on, p)
  {
    RankOfRound(on, s, j);
    if Rank(on, Chosen(on, s, j)) == Rank(on, p) {
      RankIsInjective(on, Chosen(on, s, j), p);
    }
  }

  // ----- Counting turns -----

  /** The rotation visits p every k rounds, at the rounds j with (r + j) % k == q. */
  ghost predicate Periodic(pick: nat -> nat, p: nat, r: nat, k: nat, q: nat) {
    q < k && forall j: nat :: pick(j) == p <==> (r + j) % k == q
  }

  /** How long after position x in a cycle of length k position q comes up. */
  function Wait(x: nat, k: nat, q: nat): nat
    requires q < k
  {
    if x % k <= q then q - x % k else k + q - x % k
  }

  lemma WaitIsOver(x: nat, k: nat, q: nat, j: nat)
    requires q < k && j < k
    ensures (x + j) % k == q <==> j == Wait(x, k, q)
  {
    var r := x % k;
    if r + j < k {
      DivModUnique(x + j, k, x / k, r + j);
    } else {
      DivModUnique(x + j, k, x / k + 1, r + j - k);
    }
  }

  lemma {:induction false} TurnsInWindow(pick: nat -> nat, p: nat, r: nat, k: nat, q: nat, a: nat, n: nat)
    requires Periodic(pick, p, r, k, q) && n <= k
    ensures Turns(pick, a, a + n, p) == if Wait(r + a, k, q) < n then 1 else 0
  {
    if n > 0 {
      TurnsInWindow(pick, p, r, k, q, a, n - 1);
      WaitIsOver(r + a, k, q, n - 1);
    }
  }

  lemma {:induction false} TurnsAdd(pick: nat -> nat, a: nat, b: nat, c: nat, p: nat)
    requires a <= b <= c
    ensures Turns(pick, a, c, p) == Turns(pick, a, b, p) + Turns(pick, b, c, p)
    decreases c - b
  {
    if b < c {
      TurnsAdd(pick, a, b, c - 1, p);
    }
  }

  function RoundedUp(n: nat, k: nat): nat
    requires k > 0
  {
    n / k + if n % k == 0 then 0 else 1
  }

  lemma {:induction false} PeriodicShare(pick: nat -> nat, p: nat, r: nat, k: nat, q: nat, a: nat, n: nat)
    requires Periodic(pick, p, r, k, q)
    ensures n / k <= Turns(pick, a, a + n, p) <= RoundedUp(n, k)
    decreases n
  {
    if n < k {
      TurnsInWindow(pick, p, r, k, q, a, n);
      ModSmall(n, k);
    } else {
      TurnsInWindow(pick, p, r, k, q, a, k);
      TurnsAdd(pick, a, a + k, a + n, p);
      PeriodicShare(pick, p, r, k, q, a + k, n - k);
      ModPeriod(n - k, k);
    }
  }

  // ----- Fairness -----

  function Rotation(on: seq<bool>, s: nat): nat -> nat
    requires s < |on| && true in on
  {
    (j: nat) => Chosen(on, s, j)
  }

  lemma RotationIsPeriodic(on: seq<bool>, s: nat, p: nat)
    requires s < |on| && true in on && p < |on| && on[p]
    ensures Periodic(Rotation(on, s), p, Rank(on, s), Count(on), Rank(on, p))
  {
    RankBelowCount(on, p);
    forall j: nat ensures Rotation(on, s)(j) == p <==> (Rank(on, s) + j) % Count(on) == Rank(on, p) {
      TurnIff(on, s, j, p);
    }
  }

  /** As many consecutive rounds as there are enabled ports, wherever they begin, give each of them
      exactly one turn. */
  lemma OneTurnEach(on: seq<bool>, s: nat, a: nat, p: nat)
    requires s < |on| && true in on && p < |on| && on[p]
    ensures Turns(Rotation(on, s), a, a + Count(on), p) == 1
  {
    RotationIsPeriodic(on, s, p);
    TurnsInWindow(Rotation(on, s), p, Rank(on, s), Count(on), Rank(on, p), a, Count(on));
  }

  /** Over any n consecutive rounds every enabled port gets its share of them, rounded down or up. */
  lemma FairShare(on: seq<bool>, s: nat, a: nat, n: nat, p: nat)
    requires s < |on| && true in on && p < |on| && on[p]
    ensures Count(on) > 0
    ensures n / Count(on) <= Turns(Rotation(on, s), a, a + n, p) <= RoundedUp(n, Count(on))
  {
    RotationIsPeriodic(on, s, p);
    PeriodicShare(Rotation(on, s), p, Rank(on, s), Count(on), Rank(on, p), a, n);
  }

  lemma {:induction false} NeverPicked(pick: nat -> nat, a: nat, b: nat, p: nat)
    requires a <= b && forall j: nat :: pick(j) != p
    ensures Turns(pick, a, b, p) == 0
    decreases b - a
  {
    if a < b {
      NeverPicked(pick, a, b - 1, p);
    }
  }

  /** A disabled port never gets a turn. */
  lemma NoTurnForDisabled(on: seq<bool>, s: nat, a: nat, b: nat, p: nat)
    requires s < |on| && true in on && p < |on| && !on[p] && a <= b
    ensures Turns(Rotation(on, s), a, b, p) == 0
  {
    forall j: nat ensures Rotation(on, s)(j) != p {
      assert on[Chosen(on, s, j)];
    }
    NeverPicked(Rotation(on, s), a, b, p);
  }
}
