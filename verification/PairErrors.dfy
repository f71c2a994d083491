/**
 Which errors in exactly two bits the checksum reveals: all of them, unless the
 two bits are a multiple of 32767 apart.
 */
module PairErrors {
  import opened Bytes
  import opened Folds
  import opened Crc16
  import opened BitPowers

  // ----- Strings that differ in two bits -----

  function OneBit(t: nat): Octet
    requires t < 8
  {
    match t
    case 0 => 0x01 case 1 => 0x02 case 2 => 0x04 case 3 => 0x08
    case 4 => 0x10 case 5 => 0x20 case 6 => 0x40 case 7 => 0x80
  }

  /** The string of a length in which only bit k is set. */
  function Single(length: nat, k: nat): seq<Octet>
    requires k < 8 * length
  {
    Zeros(k / 8) + [OneBit(k % 8)] + Zeros(length - k / 8 - 1)
  }

  lemma {:induction false} FoldOverZeros(r: bv16, n: nat)
    ensures Fold(r, Zeros(n)) == BitSteps(r, 8 * n)
  {
    if n > 0 {
      FoldOverZeros(r, n - 1);
      assert Zeros(n)[..n - 1] == Zeros(n - 1);
      var before := Fold(r, Zeros(n - 1));
      assert before ^ 0 == before;
      IterateAdds(BitStep, r, 8 * (n - 1), 8);
    }
  }

  /** Every bit of the register is a power. */
  lemma MaskIsPower(t: nat)
    requires t < 16
    ensures Mask(t) == Power(15 - t)
    decreases 16 - t
  {
    if t < 15 {
      MaskIsPower(t + 1);
      assert BitStep(Mask(t + 1)) == Mask(t);
    }
  }

  lemma OneBitIsMask(t: nat)
    requires t < 8
    ensures OneBit(t) as bv16 == Mask(t) && 0 ^ (OneBit(t) as bv16) == Mask(t)
  {}

  lemma FoldOfOneByte(before: nat, b: Octet, after: nat)
    ensures Fold(0, Zeros(before) + [b] + Zeros(after)) == BitSteps(ByteStep(0, b), 8 * after)
  {
    FoldZeros(0, before);
    FoldAppend(ByteStep, 0, Zeros(before), [b]);
    FoldAppend(ByteStep, 0, Zeros(before) + [b], Zeros(after));
    OneByte(0, b);
    FoldOverZeros(ByteStep(0, b), after);
  }

  lemma StepOfOneBit(t: nat)
    requires t < 8
    ensures ByteStep(0, OneBit(t)) == Power(23 - t)
  {
    OneBitIsMask(t);
    MaskIsPower(t);
    PowerAdds(15 - t, 8);
  }

  lemma FoldOfSingle(length: nat, k: nat)
    requires k < 8 * length
    ensures Fold(0, Single(length, k)) == Power(8 * length + 15 - k)
  {
    var j, t := k / 8, k % 8;
    FoldOfOneByte(j, OneBit(t), length - j - 1);
    StepOfOneBit(t);
    PowerAdds(23 - t, 8 * (length - j - 1));
    assert 23 - t + 8 * (length - j - 1) == 8 * length + 15 - k;
  }

  lemma OneByte(r: bv16, b: Octet)
    ensures Fold(r, [b]) == ByteStep(r, b)
  {
    assert [b][..0] == [];
    assert Fold(r, []) == r;
  }

  /** The two strings differ in bits m and n and nowhere else. */
  ghost predicate DifferInPair(p: seq<Octet>, q: seq<Octet>, m: nat, n: nat)
    requires |p| == |q|
  {
    && m < n < 8 * |p|
    && forall k: nat | k < 8 * |p| :: BitAt(p, k) != BitAt(q, k) <==> k == m || k == n
  }

  lemma SameBitsSameOctet(x: Octet, y: Octet)
    requires forall t: nat | t < 8 :: ByteBit(x, t) <==> ByteBit(y, t)
    ensures x == y
  {
    forall t: nat | t < 8 ensures !ByteBit(Xor8(x, y), t) {
      BitOfByteDifference(x, y, t);
    }
    NoBits(Xor8(x, y));
    ByteDifference(x, y);
  }

  lemma BitOfSingle(length: nat, k: nat, j: nat, t: nat)
    requires k < 8 * length && j < length && t < 8
    ensures ByteBit(Single(length, k)[j], t) <==> 8 * j + t == k
  {
    if j == k / 8 {
      BitOfOneBit(k % 8, t);
    } else {
      assert Single(length, k)[j] == 0;
    }
  }

  lemma BitOfOneBit(k: nat, t: nat)
    requires k < 8 && t < 8
    ensures ByteBit(OneBit(k), t) <==> k == t
  {}

  lemma PairIsTwoSingles(p: seq<Octet>, q: seq<Octet>, m: nat, n: nat)
    requires |p| == |q| && DifferInPair(p, q, m, n)
    ensures Xor(p, q) == Xor(Single(|p|, m), Single(|p|, n))
  {
    var d, e := Xor(p, q), Xor(Single(|p|, m), Single(|p|, n));
    forall j: nat | j < |p| ensures d[j] == e[j] {
      forall t: nat | t < 8 ensures ByteBit(d[j], t) <==> ByteBit(e[j], t) {
        DifferenceBit(p, q, j, t);
        BitOfSingle(|p|, m, j, t);
        BitOfSingle(|p|, n, j, t);
        BitOfByteDifference(Single(|p|, m)[j], Single(|p|, n)[j], t);
      }
      SameBitsSameOctet(d[j], e[j]);
    }
  }

  lemma PowersAgreeIff(a: nat, d: nat)
    ensures Power(a + d) == Power(a) <==> d % PERIOD == 0
  {
    PowerAdds(d, a);
    PowerAdds(0, a);
    StepsAreInjective(Power(d), ONE, a);
    PowerIsOneIff(d);
  }

  lemma PairFolds(p: seq<Octet>, q: seq<Octet>, m: nat, n: nat)
    requires |p| == |q| && DifferInPair(p, q, m, n)
    ensures Fold(0, Xor(p, q)) == Xor16(Power(8 * |p| + 15 - m), Power(8 * |p| + 15 - n))
  {
    PairIsTwoSingles(p, q, m, n);
    FoldLinear(0, 0, Single(|p|, m), Single(|p|, n));
    XorIsZero(0, 0);
    FoldOfSingle(|p|, m);
    FoldOfSingle(|p|, n);
  }

  lemma PairSyndrome(p: seq<Octet>, q: seq<Octet>, m: nat, n: nat)
    requires |p| == |q| && DifferInPair(p, q, m, n)
    ensures Fold(0, Xor(p, q)) == 0 <==> (n - m) % PERIOD == 0
  {
    var a, b := 8 * |p| + 15 - n, 8 * |p| + 15 - m;
    PairFolds(p, q, m, n);
    XorIsZero(Power(b), Power(a));
    assert b == a + (n - m);
    PowersAgreeIff(a, n - m);
  }

  /** An error in exactly two bits goes unnoticed exactly when they are a multiple of 32767 bits apart. */
  lemma PairUnnoticedIff(p: seq<Octet>, q: seq<Octet>, m: nat, n: nat)
    requires |p| == |q| && DifferInPair(p, q, m, n)
    ensures Crc(p) == Crc(q) <==> (n - m) % PERIOD == 0
  {
    SyndromeDecides(p, q);
    PairSyndrome(p, q, m, n);
  }
}
