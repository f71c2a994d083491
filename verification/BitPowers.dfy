/**
 For how many steps the checksum register comes back to where it was. The bit
 step multiplies by x in the polynomials over the field of two elements, modulo
 the polynomial of the checksum; so this asks for which n the n-th power of x
 is 1.
 */
module BitPowers {
  import opened Folds
  import opened Modular
  import opened Crc16

  const ONE: bv16 := 0x8000
  const PERIOD: nat := 32767

  function Power(n: nat): bv16 {
    BitSteps(ONE, n)
  }

  lemma PowerAdds(m: nat, n: nat)
    ensures Power(m + n) == BitSteps(Power(m), n)
  {
    IterateAdds(BitStep, ONE, m, n);
  }

  lemma StepsAreInjective(u: bv16, v: bv16, n: nat)
    ensures BitSteps(u, n) == BitSteps(v, n) <==> u == v
  {
    BitStepsLinear(u, v, n);
    BitStepsKernel(Xor16(u, v), n);
    XorIsZero(u, v);
    XorIsZero(BitSteps(u, n), BitSteps(v, n));
  }

  // ----- Squaring -----

  /** One term of a polynomial, mapped to c. */
  function Part(u: bv16, k: bv16, c: bv16): bv16
    requires k < 16
  {
    (0 - ((u >> k) & 1)) & c
  }

  /** The square of a polynomial: the power of each term is doubled. */
  function Square(u: bv16): bv16 {
    Part(u, 15, 0x8000) ^ Part(u, 14, 0x2000)
    ^ Part(u, 13, 0x0800) ^ Part(u, 12, 0x0200)
    ^ Part(u, 11, 0x0080) ^ Part(u, 10, 0x0020)
    ^ Part(u, 9, 0x0008) ^ Part(u, 8, 0x0002)
    ^ Part(u, 7, 0x8408) ^ Part(u, 6, 0x2102)
    ^ Part(u, 5, 0x8C48) ^ Part(u, 4, 0x2312)
    ^ Part(u, 3, 0x8CCC) ^ Part(u, 2, 0x2333)
    ^ Part(u, 1, 0xCEC0) ^ Part(u, 0, 0x33B0)
  }

  /** Squaring after one step is two steps after squaring. */
  predicate Commutes(u: bv16) {
    Square(BitStep(u)) == BitStep(BitStep(Square(u)))
  }

  lemma SquareOfStepWhenEven(u: bv16)
    requires u & 1 == 0
    ensures Commutes(u)
  {
    BranchFree(u);
    BranchFree(Square(u));
    BranchFree(BitStep(Square(u)));
  }

  lemma SquareOfStepWhenOdd(u: bv16)
    requires u & 1 == 1
    ensures Commutes(u)
  {
    BranchFree(u);
    BranchFree(Square(u));
    BranchFree(BitStep(Square(u)));
  }

  lemma OddOrEven(u: bv16)
    ensures u & 1 == 0 || u & 1 == 1
  {}

  lemma PowerDoubles(n: nat)
    ensures Power(2 * n) == Square(Power(n))
  {
    assert Square(ONE) == ONE;
    forall u ensures Square(BitStep(u)) == BitStep(BitStep(Square(u))) {
      OddOrEven(u);
      if u & 1 == 0 {
        SquareOfStepWhenEven(u);
      } else {
        SquareOfStepWhenOdd(u);
      }
    }
    IterateDoubles(BitStep, Square, ONE, n);
  }

  lemma Doubled(n: nat, u: bv16, odd: bool, w: bv16)
    requires Power(n) == u && w == if odd then BitStep(Square(u)) else Square(u)
    ensures Power(2 * n + if odd then 1 else 0) == w
  {
    PowerDoubles(n);
  }

  lemma PowerOne()
    ensures Power(1) == 0x4000
  {
    assert Power(0) == ONE;
  }

  lemma Power4681()
    ensures Power(4681) != ONE
  {
    PowerOne();
    Doubled(1, 0x4000, false, 0x2000);
    Doubled(2, 0x2000, false, 0x0800);
    Doubled(4, 0x0800, true, 0x0040);
    Doubled(9, 0x0040, false, 0x2102);
    Doubled(18, 0x2102, false, 0xC6C2);
    Doubled(36, 0xC6C2, true, 0x65F1);
    Doubled(73, 0x65F1, false, 0x11C2);
    Doubled(146, 0x11C2, false, 0x69C8);
    Doubled(292, 0x69C8, true, 0x00A2);
    Doubled(585, 0x00A2, false, 0xC680);
    Doubled(1170, 0xC680, false, 0x2420);
    Doubled(2340, 0x2420, true, 0x4234);
  }

  lemma Power1057()
    ensures Power(1057) != ONE
  {
    PowerOne();
    Doubled(1, 0x4000, false, 0x2000);
    Doubled(2, 0x2000, false, 0x0800);
    Doubled(4, 0x0800, false, 0x0080);
    Doubled(8, 0x0080, false, 0x8408);
    Doubled(16, 0x8408, true, 0x0676);
    Doubled(33, 0x0676, false, 0x6383);
    Doubled(66, 0x6383, false, 0x5172);
    Doubled(132, 0x5172, false, 0x629A);
    Doubled(264, 0x629A, false, 0xCD1E);
    Doubled(528, 0xCD1E, true, 0xF54F);
  }

  lemma Power217()
    ensures Power(217) != ONE
  {
    PowerOne();
    Doubled(1, 0x4000, true, 0x1000);
    Doubled(3, 0x1000, false, 0x0200);
    Doubled(6, 0x0200, true, 0x0004);
    Doubled(13, 0x0004, true, 0x9591);
    Doubled(27, 0x9591, false, 0x1688);
    Doubled(54, 0x1688, false, 0x0AEC);
    Doubled(108, 0x0AEC, true, 0xC712);
  }

  lemma Power32767()
    ensures Power(32767) == ONE
  {
    PowerOne();
    Doubled(1, 0x4000, true, 0x1000);
    Doubled(3, 0x1000, true, 0x0100);
    Doubled(7, 0x0100, true, 0x0001);
    Doubled(15, 0x0001, true, 0x19D8);
    Doubled(31, 0x19D8, true, 0x042B);
    Doubled(63, 0x042B, true, 0x7EEA);
    Doubled(127, 0x7EEA, true, 0x20F3);
    Doubled(255, 0x20F3, true, 0x7F90);
    Doubled(511, 0x7F90, true, 0x46D8);
    Doubled(1023, 0x46D8, true, 0x157E);
    Doubled(2047, 0x157E, true, 0xF2AA);
    Doubled(4095, 0xF2AA, true, 0x7022);
    Doubled(8191, 0x7022, true, 0x3444);
    Doubled(16383, 0x3444, true, 0x8000);
  }

  // ----- For which n the power is 1 -----

  lemma {:induction false} PowerOfMultiple(d: nat, k: nat)
    requires Power(d) == ONE
    ensures Power(k * d) == ONE
  {
    if k > 0 {
      PowerOfMultiple(d, k - 1);
      PowerAdds((k - 1) * d, d);
      assert k * d == (k - 1) * d + d;
    }
  }

  lemma PowerOfDifference(m: nat, n: nat)
    requires Power(m) == ONE && Power(m + n) == ONE
    ensures Power(n) == ONE
  {
    PowerAdds(m, n);
  }

  lemma PowerOfCombination(a: nat, b: nat, u: int, v: int, g: nat)
    requires Power(a) == ONE && Power(b) == ONE && g == u * a + v * b
    ensures Power(g) == ONE
  {
    if u >= 0 && v >= 0 {
      PowerOfMultiple(a, u);
      PowerOfMultiple(b, v);
      PowerAdds(u * a, v * b);
    } else if u >= 0 {
      PowerOfMultiple(a, u);
      PowerOfMultiple(b, -v);
      assert u * a == (-v) * b + g;
      PowerOfDifference((-v) * b, g);
    } else {
      NegativeProduct(u, a);
      if v >= 0 {
        PowerOfMultiple(a, -u);
        PowerOfMultiple(b, v);
        assert v * b == (-u) * a + g;
        PowerOfDifference((-u) * a, g);
      } else {
        NegativeProduct(v, b);
        assert g == 0;
      }
    }
  }

  lemma NegativeProduct(u: int, a: nat)
    requires u < 0
    ensures u * a <= 0
  {}

  /** The greatest common divisor as a combination of both numbers. */
  lemma {:induction false} Bezout(a: nat, b: nat) returns (g: nat, u: int, v: int, x: nat, y: nat)
    requires a > 0
    ensures g > 0 && g == u * a + v * b && a == g * x && b == g * y
    decreases b
  {
    if b == 0 {
      g, u, v, x, y := a, 1, 0, 1, 0;
    } else {
      var h, s, t, p, q := Bezout(b, a % b);
      CombineBack(a, b, h, s, t, p, q);
      g, u, v, x, y := h, t, s - t * (a / b), (a / b) * p + q, p;
    }
  }

  lemma CombineBack(a: nat, b: nat, h: nat, s: int, t: int, p: nat, q: nat)
    requires b > 0 && h == s * b + t * (a % b) && b == h * p && a % b == h * q
    ensures h == t * a + (s - t * (a / b)) * b
    ensures a == h * ((a / b) * p + q)
  {
    var k := a / b;
    assert a == k * b + a % b;
    assert t * a == t * (k * b) + t * (a % b);
    assert (s - t * k) * b == s * b - t * (k * b);
    assert k * b == h * (k * p);
    assert h * (k * p + q) == h * (k * p) + h * q;
  }

  predicate NoDivisorUpTo(q: nat, n: nat) {
    n < 2 || (q % n != 0 && NoDivisorUpTo(q, n - 1))
  }

  lemma {:induction false} NoSmallDivisor(q: nat, n: nat, c: nat, y: nat)
    requires NoDivisorUpTo(q, n) && 2 <= c <= n
    ensures c * y != q && y * c != q
  {
    assert y * c == c * y;
    if c == n {
      DivModUnique(c * y, c, y, 0);
    } else {
      NoSmallDivisor(q, n - 1, c, y);
    }
  }

  lemma PrimeByTrial(q: nat, n: nat, g: nat, y: nat)
    requires q > 0 && NoDivisorUpTo(q, n) && q < (n + 1) * (n + 1) && g * y == q
    ensures g == 1 || g == q
  {
    if 2 <= g <= n {
      NoSmallDivisor(q, n, g, y);
    } else if 2 <= y <= n {
      NoSmallDivisor(q, n, y, g);
    } else if g > n && y > n {
      BothLarge(n + 1, g, y);
    } else {
      assert g * 1 == g && 1 * y == y && g * 0 == 0 && 0 * y == 0;
    }
  }

  lemma BothLarge(n: nat, g: nat, y: nat)
    requires n <= g && n <= y
    ensures n * n <= g * y
  {
    assert n * n <= n * y;
    assert n * y <= g * y;
  }

  /** A prime q that does not divide d has an inverse modulo d. */
  lemma Inverse(d: nat, q: nat, n: nat) returns (u: int, v: int)
    requires q > 0 && d % q != 0 && NoDivisorUpTo(q, n) && q < (n + 1) * (n + 1)
    ensures u * d + v * q == 1
  {
    DivModUnique(0, q, 0, 0);
    var g, a, b, x, y := Bezout(d, q);
    PrimeByTrial(q, n, g, y);
    u, v := a, b;
    if g == q {
      DivModUnique(d, q, x, 0);
    }
  }

  lemma Scaled(m: nat, u: int, d: nat, v: int, q: nat)
    requires u * d + v * q == 1
    ensures m == (m * u) * d + v * (q * m)
  {
    assert m * (u * d + v * q) == m * (u * d) + m * (v * q);
    assert m * (u * d) == (m * u) * d;
    assert m * (v * q) == v * (q * m);
  }

  /** If the d-th power is 1 and q is a prime factor of the period that does not divide d, then the power of
      the cofactor is 1. */
  lemma PowerOfCofactor(d: nat, q: nat, n: nat, m: nat)
    requires Power(d) == ONE && q * m == PERIOD && q > 0 && d % q != 0
    requires NoDivisorUpTo(q, n) && q < (n + 1) * (n + 1)
    ensures Power(m) == ONE
  {
    var u, v := Inverse(d, q, n);
    Scaled(m, u, d, v, q);
    Power32767();
    PowerOfCombination(d, PERIOD, m * u, v, m);
  }

  lemma SevenAndThirtyOne(a: int, b: int)
    requires 7 * a == 31 * b
    ensures 7 * a == 217 * (9 * b - 2 * a)
  {}

  lemma AndOneHundredFiftyOne(k: int, c: int)
    requires 217 * k == 151 * c
    ensures 217 * k == 32767 * (135 * c - 194 * k)
  {}

  lemma DividedByAll(d: nat)
    requires d % 7 == 0 && d % 31 == 0 && d % 151 == 0
    ensures d % PERIOD == 0
  {
    var a, b, c := d / 7, d / 31, d / 151;
    SevenAndThirtyOne(a, b);
    var k := 9 * b - 2 * a;
    AndOneHundredFiftyOne(k, c);
    DivModUnique(d, PERIOD, 135 * c - 194 * k, 0);
  }

  /** The period of x is 32767 = 7 * 31 * 151. */
  lemma PowerIsOneIff(d: nat)
    ensures Power(d) == ONE <==> d % PERIOD == 0
  {
    Power32767();
    if d % PERIOD == 0 {
      PowerOfMultiple(PERIOD, d / PERIOD);
    } else if Power(d) == ONE {
      if d % 7 != 0 {
        PowerOfCofactor(d, 7, 2, 4681);
        Power4681();
      } else if d % 31 != 0 {
        PowerOfCofactor(d, 31, 5, 1057);
        Power1057();
      } else if d % 151 != 0 {
        PowerOfCofactor(d, 151, 12, 217);
        Power217();
      } else {
        DividedByAll(d);
      }
    }
  }
}
