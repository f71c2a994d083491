/**
 CRC-16/MCRF4XX as the Reader18 protocol computes it, bit by bit, together with
 what the checksum is for: which transmission errors it is certain to reveal.

 The register update is the one of the FCS-16 in Appendix C.2 of RFC 1662
 (reflected polynomial 0x8408, initial value 0xFFFF), without the final
 complement, so that an intact packet leaves the register at 0.
 */
module Crc16 {
  import opened Bytes
  import opened Folds

  const POLY: bv16 := 0x8408
  const INIT: bv16 := 0xFFFF

  /** One turn of the inner loop. */
  function BitStep(r: bv16): bv16 {
    if r & 1 != 0 then (r >> 1) ^ POLY else r >> 1
  }

  function BitSteps(r: bv16, n: nat): bv16 {
    Iterate(BitStep, r, n)
  }

  /** One turn of the outer loop. */
  function ByteStep(r: bv16, b: Octet): bv16 {
    BitSteps(r ^ (b as bv16), 8)
  }

  function Fold(r: bv16, data: seq<Octet>): bv16 {
    FoldLeft(ByteStep, r, data)
  }

  function Crc(data: seq<Octet>): bv16 {
    Fold(INIT, data)
  }

  function LowOctet(r: bv16): Octet { (r & 0xFF) as Octet }

  function HighOctet(r: bv16): Octet { (r >> 8) as Octet }

  method Compute(data: seq<Octet>) returns (crc: bv16)
    ensures crc == Crc(data)
  {
    crc := INIT;
    for k := 0 to |data|
      invariant crc == Crc(data[..k])
    {
      FoldLast(INIT, data, k);
      crc := crc ^ (data[k] as bv16);
      ghost var start := crc;
      for i := 0 to 8
        invariant crc == BitSteps(start, i)
      {
        ghost var r := crc;
        if crc & 0x0001 != 0 {
          crc := (crc >> 1) ^ 0x8408;
        } else {
          crc := crc >> 1;
        }
        assert crc == BitStep(r);
      }
    }
    assert data[..|data|] == data;
  }

  // ----- The register update is linear and its kernel is {0} -----

  function Xor16(x: bv16, y: bv16): bv16 { x ^ y }

  function Xor8(x: Octet, y: Octet): Octet { x ^ y }

  lemma BitStepLinear(x: bv16, y: bv16)
    ensures BitStep(Xor16(x, y)) == Xor16(BitStep(x), BitStep(y))
  {
    BranchFree(x);
    BranchFree(y);
    BranchFree(x ^ y);
    MaskLinear(x, y);
  }

  lemma MaskLinear(x: bv16, y: bv16)
    ensures ((x ^ y) >> 1) ^ ((0 - ((x ^ y) & 1)) & POLY)
         == ((x >> 1) ^ ((0 - (x & 1)) & POLY)) ^ ((y >> 1) ^ ((0 - (y & 1)) & POLY))
  {}

  lemma BranchFree(r: bv16)
    ensures BitStep(r) == (r >> 1) ^ ((0 - (r & 1)) & POLY)
  {
    assert r & 1 == 0 || r & 1 == 1;
    if r & 1 == 1 {
      assert 0 - (r & 1) == 0xFFFF;
    }
  }

  lemma BitStepKernel(r: bv16)
    ensures BitStep(r) == 0 <==> r == 0
  {
    BranchFree(r);
  }

  lemma BitStepsLinear(x: bv16, y: bv16, n: nat)
    ensures BitSteps(Xor16(x, y), n) == Xor16(BitSteps(x, n), BitSteps(y, n))
  {
    forall u, v ensures BitStep(Xor16(u, v)) == Xor16(BitStep(u), BitStep(v)) {
      BitStepLinear(u, v);
    }
    IterateKeepsOperation(BitStep, Xor16, x, y, n);
  }

  lemma BitStepsKernel(r: bv16, n: nat)
    ensures BitSteps(r, n) == 0 <==> r == 0
  {
    forall u ensures BitStep(u) == 0 <==> u == 0 {
      BitStepKernel(u);
    }
    IterateReaches(BitStep, 0, r, n);
  }

  lemma ByteStepLinear(r1: bv16, r2: bv16, a: Octet, b: Octet)
    ensures ByteStep(Xor16(r1, r2), Xor8(a, b)) == Xor16(ByteStep(r1, a), ByteStep(r2, b))
  {
    assert (r1 ^ r2) ^ ((a ^ b) as bv16) == (r1 ^ (a as bv16)) ^ (r2 ^ (b as bv16));
    BitStepsLinear(r1 ^ (a as bv16), r2 ^ (b as bv16), 8);
  }

  /** The bytewise difference of two strings of one length. */
  function Xor(a: seq<Octet>, b: seq<Octet>): seq<Octet>
    requires |a| == |b|
  {
    Zip(Xor8, a, b)
  }

  lemma FoldLinear(r1: bv16, r2: bv16, a: seq<Octet>, b: seq<Octet>)
    requires |a| == |b|
    ensures Fold(Xor16(r1, r2), Xor(a, b)) == Xor16(Fold(r1, a), Fold(r2, b))
  {
    forall u, v, c, d ensures ByteStep(Xor16(u, v), Xor8(c, d)) == Xor16(ByteStep(u, c), ByteStep(v, d)) {
      ByteStepLinear(u, v, c, d);
    }
    FoldKeepsOperation(ByteStep, Xor16, Xor8, r1, r2, a, b);
  }

  lemma FoldLast(r: bv16, data: seq<Octet>, n: nat)
    requires n < |data|
    ensures Fold(r, data[..n + 1]) == ByteStep(Fold(r, data[..n]), data[n])
  {
    assert data[..n + 1][..n] == data[..n];
  }

  function Zeros(n: nat): seq<Octet> {
    seq(n, _ => 0)
  }

  lemma {:induction false} FoldZeros(r: bv16, n: nat)
    ensures Fold(r, Zeros(n)) == 0 <==> r == 0
  {
    if n > 0 {
      FoldZeros(r, n - 1);
      assert Zeros(n)[..n - 1] == Zeros(n - 1);
      ByteStepOfZero(Fold(r, Zeros(n - 1)));
    }
  }

  lemma ByteStepOfZero(r: bv16)
    ensures ByteStep(r, 0) == 0 <==> r == 0
  {
    assert r ^ 0 == r;
    BitStepsKernel(r, 8);
  }

  // ----- Residue -----

  function Eight(r: bv16): bv16 {
    BitStep(BitStep(BitStep(BitStep(BitStep(BitStep(BitStep(BitStep(r))))))))
  }

  lemma EightSteps(r: bv16)
    ensures BitSteps(r, 8) == Eight(r)
  {
    IterateEight(BitStep, r);
  }

  /** A byte in the high half of the register moves down unchanged. */
  lemma HighHalfMovesDown(b: Octet)
    ensures Eight((b as bv16) << 8) == b as bv16
  {}

  lemma XorIsZero(x: bv16, y: bv16)
    ensures Xor16(x, y) == 0 <==> x == y
  {
    assert (x ^ y) ^ y == x;
    if x ^ y == 0 {
      assert 0 ^ y == y;
    }
  }

  lemma EightReachesByte(x: bv16, hi: Octet)
    ensures BitSteps(x, 8) == hi as bv16 <==> x == (hi as bv16) << 8
  {
    var y := (hi as bv16) << 8;
    HighHalfMovesDown(hi);
    EightSteps(y);
    BitStepsLinear(x, y, 8);
    BitStepsKernel(Xor16(x, y), 8);
    XorIsZero(x, y);
    XorIsZero(BitSteps(x, 8), BitSteps(y, 8));
  }

  lemma SplitRegister(r: bv16, lo: Octet, hi: Octet)
    ensures r ^ (lo as bv16) == (hi as bv16) << 8 <==> lo == LowOctet(r) && hi == HighOctet(r)
  {}

  lemma LastByte(r: bv16, b: Octet)
    ensures ByteStep(r, b) == 0 <==> r == b as bv16
  {
    BitStepsKernel(r ^ (b as bv16), 8);
    XorIsZero(r, b as bv16);
  }

  /** A two-byte trailer brings the register to 0 exactly when it is the register, low byte first. */
  lemma TrailerResidue(r: bv16, lo: Octet, hi: Octet)
    ensures ByteStep(ByteStep(r, lo), hi) == 0 <==> lo == LowOctet(r) && hi == HighOctet(r)
  {
    LastTwoBytes(r, lo, hi);
    SplitRegister(r, lo, hi);
  }

  lemma LastTwoBytes(r: bv16, lo: Octet, hi: Octet)
    ensures ByteStep(ByteStep(r, lo), hi) == 0 <==> r ^ (lo as bv16) == (hi as bv16) << 8
  {
    LastByte(ByteStep(r, lo), hi);
    EightReachesByte(r ^ (lo as bv16), hi);
  }

  lemma Residue(data: seq<Octet>)
    requires |data| >= 2
    ensures var body := data[..|data| - 2];
            Crc(data) == 0 <==>
            data[|data| - 2] == LowOctet(Crc(body)) && data[|data| - 1] == HighOctet(Crc(body))
  {
    var n := |data| - 2;
    assert Crc(data) == ByteStep(Crc(data[..n + 1]), data[n + 1]);
    assert data[..n + 1][..n] == data[..n];
    assert Crc(data[..n + 1]) == ByteStep(Crc(data[..n]), data[n]);
    TrailerResidue(Crc(data[..n]), data[n], data[n + 1]);
  }

  // ----- Error detection -----

  /** Two strings of one length have the same checksum exactly when their difference folds to 0. */
  lemma SyndromeDecides(p: seq<Octet>, q: seq<Octet>)
    requires |p| == |q|
    ensures Crc(p) == Crc(q) <==> Fold(0, Xor(p, q)) == 0
  {
    XorIsZero(INIT, INIT);
    FoldLinear(INIT, INIT, p, q);
    XorIsZero(Crc(p), Crc(q));
  }

  function Mask(k: nat): bv16
    requires k < 16
  {
    match k
    case 0 => 0x0001 case 1 => 0x0002 case 2 => 0x0004 case 3 => 0x0008
    case 4 => 0x0010 case 5 => 0x0020 case 6 => 0x0040 case 7 => 0x0080
    case 8 => 0x0100 case 9 => 0x0200 case 10 => 0x0400 case 11 => 0x0800
    case 12 => 0x1000 case 13 => 0x2000 case 14 => 0x4000 case 15 => 0x8000
  }

  predicate Bit(r: bv16, k: nat)
    requires k < 16
  {
    r & Mask(k) != 0
  }

  predicate ByteBit(b: Octet, k: nat)
    requires k < 8
  {
    Bit(b as bv16, k)
  }

  /** Bit n of a byte string, in the order in which the register consumes the bits. */
  predicate BitAt(data: seq<Octet>, n: nat)
    requires n < 8 * |data|
  {
    ByteBit(data[n / 8], n % 8)
  }

  /** The two strings differ, and only inside a window of 16 consecutive bits, wherever it starts. */
  ghost predicate DifferInBurst(p: seq<Octet>, q: seq<Octet>, window: nat)
    requires |p| == |q|
  {
    && p != q
    && forall n: nat | n < 8 * |p| && BitAt(p, n) != BitAt(q, n) :: window <= n < window + 16
  }

  lemma MaskedDifference(x: bv16, y: bv16, m: bv16)
    requires m & (m - 1) == 0
    ensures (x ^ y) & m != 0 <==> (x & m != 0) != (y & m != 0)
  {
    assert (x ^ y) & m == (x & m) ^ (y & m);
    assert x & m == 0 || x & m == m;
    assert y & m == 0 || y & m == m;
  }

  lemma MaskIsOneBit(k: nat)
    requires k < 16
    ensures Mask(k) & (Mask(k) - 1) == 0
  {}

  lemma BitOfDifference(x: bv16, y: bv16, k: nat)
    requires k < 16
    ensures Bit(Xor16(x, y), k) <==> Bit(x, k) != Bit(y, k)
  {
    MaskIsOneBit(k);
    MaskedDifference(x, y, Mask(k));
  }

  lemma ByteDifference(x: Octet, y: Octet)
    ensures Xor8(x, y) as bv16 == Xor16(x as bv16, y as bv16)
    ensures Xor8(x, y) == 0 <==> x == y
  {}

  lemma NoBits(b: Octet)
    requires forall k: nat | k < 8 :: !ByteBit(b, k)
    ensures b == 0
  {
    assert !ByteBit(b, 0) && !ByteBit(b, 1) && !ByteBit(b, 2) && !ByteBit(b, 3);
    assert !ByteBit(b, 4) && !ByteBit(b, 5) && !ByteBit(b, 6) && !ByteBit(b, 7);
  }

  /** The one arithmetic fact: if the low k bits of a are clear, stepping a sets a bit at or above 8 + k. */
  lemma WindowCore(a: bv16, b: bv16, c: bv16, k: bv16)
    requires a & 0xFF == a && b & 0xFF == b && c & 0xFF == c
    requires k < 8 && a & ((1 << k) - 1) == 0 && c >> k == 0
    requires Eight(a) ^ b == c << 8
    ensures a == 0 && b == 0 && c == 0
  {}

  lemma LowBitsClear(a: Octet, k: nat)
    requires k < 8 && forall t: nat | t < k :: !ByteBit(a, t)
    ensures (a as bv16) & ((1 << (k as bv16)) - 1) == 0
  {
    assert k > 0 ==> !ByteBit(a, 0);
    assert k > 1 ==> !ByteBit(a, 1);
    assert k > 2 ==> !ByteBit(a, 2);
    assert k > 3 ==> !ByteBit(a, 3);
    assert k > 4 ==> !ByteBit(a, 4);
    assert k > 5 ==> !ByteBit(a, 5);
    assert k > 6 ==> !ByteBit(a, 6);
    match k case 0 => case 1 => case 2 => case 3 => case 4 => case 5 => case 6 => case 7 =>
  }

  lemma HighBitsClear(c: Octet, k: nat)
    requires k < 8 && forall t: nat | k <= t < 8 :: !ByteBit(c, t)
    ensures (c as bv16) >> (k as bv16) == 0
  {
    assert !ByteBit(c, 7);
    assert k < 7 ==> !ByteBit(c, 6);
    assert k < 6 ==> !ByteBit(c, 5);
    assert k < 5 ==> !ByteBit(c, 4);
    assert k < 4 ==> !ByteBit(c, 3);
    assert k < 3 ==> !ByteBit(c, 2);
    assert k < 2 ==> !ByteBit(c, 1);
    assert k < 1 ==> !ByteBit(c, 0);
    match k case 0 => case 1 => case 2 => case 3 => case 4 => case 5 => case 6 => case 7 =>
  }

  /** A nonzero pattern confined to 16 consecutive bits of three bytes leaves a nonzero register. */
  lemma WindowFold(a: Octet, b: Octet, c: Octet, k: nat)
    requires k < 8
    requires forall t: nat | t < k :: !ByteBit(a, t)
    requires forall t: nat | k <= t < 8 :: !ByteBit(c, t)
    requires Fold(0, [a, b, c]) == 0
    ensures a == 0 && b == 0 && c == 0
  {
    LowBitsClear(a, k);
    HighBitsClear(c, k);
    WindowRegister(a, b, c);
    WindowBytes(a, b, c, k as bv16);
  }

  lemma WindowBytes(a: Octet, b: Octet, c: Octet, k: bv16)
    requires k < 8 && (a as bv16) & ((1 << k) - 1) == 0 && (c as bv16) >> k == 0
    requires ByteStep(0, a) ^ (b as bv16) == (c as bv16) << 8
    ensures a == 0 && b == 0 && c == 0
  {
    FirstByte(a);
    WindowCore(a as bv16, b as bv16, c as bv16, k);
  }

  lemma WindowRegister(a: Octet, b: Octet, c: Octet)
    requires Fold(0, [a, b, c]) == 0
    ensures ByteStep(0, a) ^ (b as bv16) == (c as bv16) << 8
  {
    FoldThree(a, b, c);
    LastTwoBytes(ByteStep(0, a), b, c);
  }

  lemma FirstByte(a: Octet)
    ensures ByteStep(0, a) == Eight(a as bv16)
  {
    assert 0 ^ (a as bv16) == a as bv16;
    EightSteps(a as bv16);
  }

  lemma FoldThree(a: Octet, b: Octet, c: Octet)
    ensures Fold(0, [a, b, c]) == ByteStep(ByteStep(ByteStep(0, a), b), c)
  {
    assert [a, b, c][..2] == [a, b] && [a, b][..1] == [a] && [a][..0] == [];
    assert Fold(0, []) == 0;
    assert Fold(0, [a]) == ByteStep(0, a);
    assert Fold(0, [a, b]) == ByteStep(Fold(0, [a]), b);
  }

  /** Zero bytes around a pattern do not decide whether it folds to 0. */
  lemma FoldPadded(before: nat, pattern: seq<Octet>, after: nat)
    ensures Fold(0, Zeros(before) + pattern + Zeros(after)) == 0 <==> Fold(0, pattern) == 0
  {
    FoldZeros(0, before);
    FoldAppend(ByteStep, 0, Zeros(before), pattern);
    FoldAppend(ByteStep, 0, Zeros(before) + pattern, Zeros(after));
    FoldZeros(Fold(0, pattern), after);
  }

  lemma BurstPattern(d: seq<Octet>, i: nat, k: nat)
    requires i < |d| && k < 8
    requires forall j: nat | j < |d| && !(i <= j < i + 3) :: d[j] == 0
    requires forall t: nat | t < k :: !ByteBit(d[i], t)
    requires i + 2 < |d| ==> var c := d[i + 2]; forall t: nat | k <= t < 8 :: !ByteBit(c, t)
    requires Fold(0, d) == 0
    ensures forall j: nat | j < |d| :: d[j] == 0
  {
    var e := d + Zeros(2);
    var after := |e| - i - 3;
    FoldPadded(0, d, 2);
    assert Zeros(0) + d + Zeros(2) == e;
    assert e == Zeros(i) + [e[i], e[i + 1], e[i + 2]] + Zeros(after);
    FoldPadded(i, [e[i], e[i + 1], e[i + 2]], after);
    assert i + 2 >= |d| ==> forall t: nat | k <= t < 8 :: !ByteBit(0, t);
    WindowFold(e[i], e[i + 1], e[i + 2], k);
    assert forall j: nat | j < |d| :: d[j] == e[j];
  }

  lemma DifferenceBit(p: seq<Octet>, q: seq<Octet>, j: nat, t: nat)
    requires |p| == |q| && j < |p| && t < 8
    ensures ByteBit(Xor(p, q)[j], t) <==> BitAt(p, 8 * j + t) != BitAt(q, 8 * j + t)
  {
    assert (8 * j + t) / 8 == j && (8 * j + t) % 8 == t;
    BitOfByteDifference(p[j], q[j], t);
  }

  lemma BitOfByteDifference(x: Octet, y: Octet, k: nat)
    requires k < 8
    ensures ByteBit(Xor8(x, y), k) <==> ByteBit(x, k) != ByteBit(y, k)
  {
    ByteDifference(x, y);
    BitOfDifference(x as bv16, y as bv16, k);
  }

  /** Every burst of up to 16 bits changes the checksum. */
  lemma BurstDetected(p: seq<Octet>, q: seq<Octet>, window: nat)
    requires |p| == |q| && DifferInBurst(p, q, window)
    ensures Crc(p) != Crc(q)
  {
    var d := Xor(p, q);
    var i, k := window / 8, window % 8;
    forall j: nat, t: nat | j < |p| && t < 8 && ByteBit(d[j], t)
      ensures window <= 8 * j + t < window + 16
    {
      DifferenceBit(p, q, j, t);
    }
    forall j: nat | j < |p| && !(i <= j < i + 3) ensures d[j] == 0 {
      NoBits(d[j]);
    }
    var j :| 0 <= j < |p| && p[j] != q[j];
    ByteDifference(p[j], q[j]);
    assert d[j] == Xor8(p[j], q[j]);
    if Crc(p) == Crc(q) {
      SyndromeDecides(p, q);
      BurstPattern(d, i, k);
    }
  }

  // ----- Odd numbers of flipped bits -----

  /** In how many of their first n bits two strings of one length differ. */
  function Flips(p: seq<Octet>, q: seq<Octet>, n: nat): nat
    requires |p| == |q| && n <= 8 * |p|
  {
    if n == 0 then 0 else Flips(p, q, n - 1) + if BitAt(p, n - 1) != BitAt(q, n - 1) then 1 else 0
  }

  /** Whether an odd number of the low n bits of a register are set. */
  predicate OddUpTo(r: bv16, n: nat)
    requires n <= 16
  {
    n > 0 && OddUpTo(r, n - 1) != Bit(r, n - 1)
  }

  lemma {:induction false} OddOfSum(x: bv16, y: bv16, n: nat)
    requires n <= 16
    ensures OddUpTo(Xor16(x, y), n) <==> OddUpTo(x, n) != OddUpTo(y, n)
  {
    if n > 0 {
      OddOfSum(x, y, n - 1);
      BitOfDifference(x, y, n - 1);
    }
  }

  lemma ShiftedBit(r: bv16, k: nat)
    requires k < 15
    ensures Bit(r >> 1, k) <==> Bit(r, k + 1)
  {}

  lemma {:induction false} OddOfShift(r: bv16, n: nat)
    requires n < 16
    ensures OddUpTo(r, n + 1) <==> OddUpTo(r >> 1, n) != Bit(r, 0)
  {
    if n > 0 {
      OddOfShift(r, n - 1);
      ShiftedBit(r, n - 1);
    }
  }

  lemma {:induction false} OddOfZero(n: nat)
    requires n <= 16
    ensures !OddUpTo(0, n)
  {
    if n > 0 {
      OddOfZero(n - 1);
      assert !Bit(0, n - 1);
    }
  }

  lemma PolynomialIsOdd()
    ensures OddUpTo(POLY, 16)
  {
    assert !OddUpTo(POLY, 3);
    assert OddUpTo(POLY, 4) && OddUpTo(POLY, 7) && OddUpTo(POLY, 10);
    assert !OddUpTo(POLY, 11) && !OddUpTo(POLY, 13) && !OddUpTo(POLY, 15);
  }

  lemma OddOfHalf(r: bv16)
    ensures OddUpTo(r >> 1, 16) <==> OddUpTo(r, 16) != Bit(r, 0)
  {
    OddOfShift(r, 15);
    TopBitClear(r);
  }

  lemma BitStepCases(r: bv16)
    ensures BitStep(r) == if Bit(r, 0) then Xor16(r >> 1, POLY) else r >> 1
  {}

  /** The shifted-out bit and the three bits of the polynomial cancel in parity. */
  lemma BitStepKeepsParity(r: bv16)
    ensures OddUpTo(BitStep(r), 16) <==> OddUpTo(r, 16)
  {
    BitStepCases(r);
    OddOfHalf(r);
    PolynomialIsOdd();
    OddOfSum(r >> 1, POLY, 16);
  }

  lemma TopBitClear(r: bv16)
    ensures !Bit(r >> 1, 15)
  {}

  lemma {:induction false} BitStepsKeepParity(r: bv16, n: nat)
    ensures OddUpTo(BitSteps(r, n), 16) <==> OddUpTo(r, 16)
  {
    if n > 0 {
      BitStepsKeepParity(r, n - 1);
      BitStepKeepsParity(BitSteps(r, n - 1));
    }
  }

  lemma {:induction false} OddOfByte(b: Octet, n: nat)
    requires 8 <= n <= 16
    ensures OddUpTo(b as bv16, n) <==> OddUpTo(b as bv16, 8)
  {
    if n > 8 {
      OddOfByte(b, n - 1);
      HighBitOfByte(b, n - 1);
    }
  }

  lemma HighBitOfByte(b: Octet, k: nat)
    requires 8 <= k < 16
    ensures !Bit(b as bv16, k)
  {}

  lemma ByteStepParity(r: bv16, b: Octet)
    ensures OddUpTo(ByteStep(r, b), 16) <==> OddUpTo(r, 16) != OddUpTo(b as bv16, 8)
  {
    BitStepsKeepParity(Xor16(r, b as bv16), 8);
    OddOfSum(r, b as bv16, 16);
    OddOfByte(b, 16);
  }

  predicate OddFlips(p: seq<Octet>, q: seq<Octet>, n: nat)
    requires |p| == |q| && n <= 8 * |p|
  {
    n > 0 && OddFlips(p, q, n - 1) != (BitAt(p, n - 1) != BitAt(q, n - 1))
  }

  lemma {:induction false} OddFlipsCounts(p: seq<Octet>, q: seq<Octet>, n: nat)
    requires |p| == |q| && n <= 8 * |p|
    ensures OddFlips(p, q, n) <==> Flips(p, q, n) % 2 == 1
  {
    if n > 0 {
      OddFlipsCounts(p, q, n - 1);
    }
  }

  lemma {:induction false} FlipsInByte(p: seq<Octet>, q: seq<Octet>, j: nat, t: nat)
    requires |p| == |q| && j < |p| && t <= 8
    ensures OddFlips(p, q, 8 * j + t) <==>
            OddFlips(p, q, 8 * j) != OddUpTo(Xor(p, q)[j] as bv16, t)
  {
    if t > 0 {
      FlipsInByte(p, q, j, t - 1);
      DifferenceBit(p, q, j, t - 1);
    }
  }

  lemma {:induction false} ParityOfSyndrome(p: seq<Octet>, q: seq<Octet>, n: nat)
    requires |p| == |q| && n <= |p|
    ensures OddUpTo(Fold(0, Xor(p, q)[..n]), 16) <==> OddFlips(p, q, 8 * n)
  {
    if n == 0 {
      OddOfZero(16);
    } else {
      ParityOfSyndrome(p, q, n - 1);
      SyndromeStep(p, q, n - 1);
    }
  }

  lemma SyndromeStep(p: seq<Octet>, q: seq<Octet>, j: nat)
    requires |p| == |q| && j < |p|
    requires OddUpTo(Fold(0, Xor(p, q)[..j]), 16) <==> OddFlips(p, q, 8 * j)
    ensures OddUpTo(Fold(0, Xor(p, q)[..j + 1]), 16) <==> OddFlips(p, q, 8 * (j + 1))
  {
    FoldLast(0, Xor(p, q), j);
    ByteStepParity(Fold(0, Xor(p, q)[..j]), Xor(p, q)[j]);
    FlipsInByte(p, q, j, 8);
    assert 8 * (j + 1) == 8 * j + 8;
  }

  /** Every error that flips an odd number of bits changes the checksum. */
  lemma OddErrorDetected(p: seq<Octet>, q: seq<Octet>)
    requires |p| == |q| && Flips(p, q, 8 * |p|) % 2 == 1
    ensures Crc(p) != Crc(q)
  {
    OddFlipsCounts(p, q, 8 * |p|);
    ParityOfSyndrome(p, q, |p|);
    assert Xor(p, q)[..|p|] == Xor(p, q);
    OddOfZero(16);
    SyndromeDecides(p, q);
  }

  // ----- Known answers -----

  lemma ByteStepIs(r: bv16, b: Octet)
    ensures ByteStep(r, b) == Eight(r ^ (b as bv16))
  {
    EightSteps(r ^ (b as bv16));
  }

  lemma OneMoreByte(data: seq<Octet>, b: Octet)
    ensures Crc(data + [b]) == ByteStep(Crc(data), b)
  {
    assert (data + [b])[..|data|] == data;
  }

  /** The registers after each of three bytes, and of four more. */
  lemma ThreeBytes(a: Octet, b: Octet, c: Octet, x: bv16, y: bv16, z: bv16)
    requires ByteStep(INIT, a) == x && ByteStep(x, b) == y && ByteStep(y, c) == z
    ensures Crc([a, b, c]) == z
  {
    assert Crc([]) == INIT;
    OneMoreByte([], a);
    OneMoreByte([a], b);
    OneMoreByte([a, b], c);
    assert [] + [a] == [a] && [a] + [b] == [a, b] && [a, b] + [c] == [a, b, c];
  }

  lemma FourMoreBytes(data: seq<Octet>, a: Octet, b: Octet, c: Octet, d: Octet, w: bv16, x: bv16, y: bv16, z: bv16)
    requires ByteStep(Crc(data), a) == w && ByteStep(w, b) == x && ByteStep(x, c) == y && ByteStep(y, d) == z
    ensures Crc(data + [a] + [b] + [c] + [d]) == z
  {
    OneMoreByte(data, a);
    OneMoreByte(data + [a], b);
    OneMoreByte(data + [a] + [b], c);
    OneMoreByte(data + [a] + [b] + [c], d);
  }

  lemma ShortSteps()
    ensures ByteStep(0xFFFF, 0x04) == 0x49A3
    ensures ByteStep(0x49A3, 0x00) == 0x97D8
    ensures ByteStep(0x97D8, 0x01) == 0x4BDB
    ensures ByteStep(0x49A3, 0xFF) == 0x98A0
  {
    ByteStepIs(0xFFFF, 0x04);
    ByteStepIs(0x49A3, 0x00);
    ByteStepIs(0x97D8, 0x01);
    ByteStepIs(0x49A3, 0xFF);
  }

  lemma OtherShortSteps()
    ensures ByteStep(0x98A0, 0x01) == 0xB41B
    ensures ByteStep(0x97D8, 0x21) == 0x6AD9
    ensures ByteStep(0x97D8, 0x0F) == 0xA2A5
  {
    ByteStepIs(0x98A0, 0x01);
    ByteStepIs(0x97D8, 0x21);
    ByteStepIs(0x97D8, 0x0F);
  }

  lemma InventorySteps()
    ensures ByteStep(0xFFFF, 0x09) == 0x9246
    ensures ByteStep(0x9246, 0x00) == 0x27A0
    ensures ByteStep(0x27A0, 0x01) == 0xB4A4
    ensures ByteStep(0xB4A4, 0x04) == 0xA5BE
  {
    ByteStepIs(0xFFFF, 0x09);
    ByteStepIs(0x9246, 0x00);
    ByteStepIs(0x27A0, 0x01);
    ByteStepIs(0xB4A4, 0x04);
  }

  lemma LaterInventorySteps()
    ensures ByteStep(0xA5BE, 0x01) == 0x4DD9
    ensures ByteStep(0x4DD9, 0x00) == 0x4B01
    ensures ByteStep(0x4B01, 0x80) == 0x95CA
    ensures ByteStep(0x95CA, 0x0A) == 0xC699
  {
    ByteStepIs(0xA5BE, 0x01);
    ByteStepIs(0x4DD9, 0x00);
    ByteStepIs(0x4B01, 0x80);
    ByteStepIs(0x95CA, 0x0A);
  }

  lemma KnownInventoryAnswer()
    ensures Crc([0x09, 0x00, 0x01, 0x04, 0x01, 0x00, 0x80, 0x0A]) == 0xC699
  {
    InventorySteps();
    LaterInventorySteps();
    ThreeBytes(0x09, 0x00, 0x01, 0x9246, 0x27A0, 0xB4A4);
    var front: seq<Octet> := [0x09, 0x00, 0x01];
    OneMoreByte(front, 0x04);
    FourMoreBytes(front + [0x04], 0x01, 0x00, 0x80, 0x0A, 0x4DD9, 0x4B01, 0x95CA, 0xC699);
    assert front + [0x04] + [0x01] + [0x00] + [0x80] + [0x0A]
           == [0x09, 0x00, 0x01, 0x04, 0x01, 0x00, 0x80, 0x0A];
  }

  /** The checksums of command packets that the repository's tests fix: four without payload, and an
      inventory command. */
  lemma KnownAnswers()
    ensures Crc([0x04, 0x00, 0x01]) == 0x4BDB
    ensures Crc([0x04, 0xFF, 0x01]) == 0xB41B
    ensures Crc([0x04, 0x00, 0x21]) == 0x6AD9
    ensures Crc([0x04, 0x00, 0x0F]) == 0xA2A5
    ensures Crc([0x09, 0x00, 0x01, 0x04, 0x01, 0x00, 0x80, 0x0A]) == 0xC699
  {
    ShortSteps();
    OtherShortSteps();
    ThreeBytes(0x04, 0x00, 0x01, 0x49A3, 0x97D8, 0x4BDB);
    ThreeBytes(0x04, 0xFF, 0x01, 0x49A3, 0x98A0, 0xB41B);
    ThreeBytes(0x04, 0x00, 0x21, 0x49A3, 0x97D8, 0x6AD9);
    ThreeBytes(0x04, 0x00, 0x0F, 0x49A3, 0x97D8, 0xA2A5);
    KnownInventoryAnswer();
  }
}
