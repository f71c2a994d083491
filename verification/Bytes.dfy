/** Bytes as numbers, and the bit patterns that stand for them on the wire. */
module Bytes {
  type Byte = b: int | 0 <= b < 256

  type Octet = bv8

  /** The bit pattern of a byte. */
  function Bits(b: Byte): Octet {
    if b == 0 then 0 else Bits(b - 1) + 1
  }

  /** The number a bit pattern stands for. */
  function Value(v: Octet): Byte {
    v as int
  }

  lemma Successor(v: Octet)
    requires v as int < 255
    ensures (v + 1) as int == v as int + 1
  {}

  lemma Predecessor(v: Octet)
    requires v != 0
    ensures v as int > 0 && (v - 1) as int == v as int - 1
  {}

  lemma {:induction false} ValueOfBits(b: Byte)
    ensures Value(Bits(b)) == b
  {
    if b > 0 {
      ValueOfBits(b - 1);
      Successor(Bits(b - 1));
    }
  }

  lemma {:induction false} BitsOfValue(v: Octet)
    ensures Bits(Value(v)) == v
    decreases Value(v)
  {
    if v != 0 {
      Predecessor(v);
      BitsOfValue(v - 1);
    }
  }

  lemma SameBits(a: Byte, b: Byte)
    ensures Bits(a) == Bits(b) <==> a == b
  {
    ValueOfBits(a);
    ValueOfBits(b);
  }

  /** A byte string as it travels on the wire. */
  function Wire(data: seq<Byte>): seq<Octet> {
    seq(|data|, i requires 0 <= i < |data| => Bits(data[i]))
  }

  lemma SameWire(a: seq<Byte>, b: seq<Byte>)
    ensures Wire(a) == Wire(b) <==> a == b
  {
    if Wire(a) == Wire(b) {
      assert |a| == |Wire(a)| == |b|;
      forall i | 0 <= i < |a| ensures a[i] == b[i] {
        assert Wire(a)[i] == Wire(b)[i];
        SameBits(a[i], b[i]);
      }
    }
  }
}
