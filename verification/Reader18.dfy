/**
 The Reader18 wire format: sealing a command into a packet, checking one, and
 cutting a byte stream into packets, noise and an unfinished end.
 */
module Reader18 {
  import opened Bytes
  import opened Crc16
  import opened BitPowers
  import opened PairErrors
  import opened Modular
  import opened Scanner

  datatype Command = Command(address: Byte, command: Byte, payload: seq<Byte>)

  // ----- Sealing and checking -----

  /** Everything in front of the checksum. The length byte is truncated to eight bits. */
  function Body(c: Command): seq<Byte> {
    [(|c.payload| + 4) % 256, c.address, c.command] + c.payload
  }

  function Checksum(data: seq<Byte>): bv16 {
    Crc(Wire(data))
  }

  /** The checksum as two bytes, low byte first. */
  function Trailer(data: seq<Byte>): seq<Byte> {
    [Value(LowOctet(Checksum(data))), Value(HighOctet(Checksum(data)))]
  }

  function Packet(c: Command): seq<Byte> {
    Body(c) + Trailer(Body(c))
  }

  method BuildCommand(address: Byte, command: Byte, payload: seq<Byte>) returns (packet: seq<Byte>)
    ensures packet == Packet(Command(address, command, payload))
  {
    packet := [(|payload| + 4) % 256, address, command];
    packet := packet + payload;
    var crc := Compute(Wire(packet));
    packet := packet + [Value(LowOctet(crc)), Value(HighOctet(crc))];
  }

  predicate Verified(packet: seq<Byte>) {
    && |packet| >= MIN_PACKET
    && packet[0] as int + 1 == |packet|
    && packet[|packet| - 2..] == Trailer(packet[..|packet| - 2])
  }

  method VerifyPacket(packet: seq<Byte>) returns (ok: bool)
    ensures ok == Verified(packet)
  {
    if |packet| < 6 {
      return false;
    }
    var expectedTotal := packet[0] as int + 1;
    if expectedTotal != |packet| {
      return false;
    }
    var crc := Compute(Wire(packet[..|packet| - 2]));
    return Value(LowOctet(crc)) == packet[|packet| - 2] && Value(HighOctet(crc)) == packet[|packet| - 1];
  }

  /** Checking the trailer is the same as running the checksum over everything and finding 0. */
  lemma TrailerIffResidueZero(data: seq<Byte>)
    requires |data| >= 2
    ensures Checksum(data) == 0 <==> data[|data| - 2..] == Trailer(data[..|data| - 2])
  {
    var n := |data| - 2;
    var crc := Checksum(data[..n]);
    assert Wire(data)[..n] == Wire(data[..n]);
    Residue(Wire(data));
    SameOctet(data[n], LowOctet(crc));
    SameOctet(data[n + 1], HighOctet(crc));
  }

  lemma SameOctet(b: Byte, v: Octet)
    ensures Bits(b) == v <==> b == Value(v)
  {
    BitsOfValue(v);
    ValueOfBits(b);
  }

  lemma VerifiedIffResidueZero(packet: seq<Byte>)
    ensures Verified(packet) <==>
            |packet| >= MIN_PACKET && packet[0] as int + 1 == |packet| && Checksum(packet) == 0
  {
    if |packet| >= 2 {
      TrailerIffResidueZero(packet);
    }
  }

  /** A built packet passes the check exactly for payloads of 1 to 251 bytes. */
  lemma BuiltPacketVerifiesIff(c: Command)
    ensures Verified(Packet(c)) <==> 1 <= |c.payload| <= 251
  {
    var packet := Packet(c);
    assert packet[..|packet| - 2] == Body(c);
    assert packet[|packet| - 2..] == Trailer(Body(c));
  }

  /** What a built packet looks like, byte by byte, as long as its length fits the length byte. */
  lemma BuiltPacketLayout(c: Command)
    requires |c.payload| <= 251
    ensures var packet := Packet(c);
            && packet[0] as int + 1 == |packet| == |c.payload| + 5
            && packet[1] == c.address
            && packet[2] == c.command
            && packet[3..|packet| - 2] == c.payload
            && Checksum(packet) == 0
  {
    var packet := Packet(c);
    assert packet[..|packet| - 2] == Body(c);
    assert packet[|packet| - 2..] == Trailer(Body(c));
    TrailerIffResidueZero(packet);
  }

  lemma WireIs(data: seq<Byte>, wire: seq<Octet>)
    requires |data| == |wire| && forall i | 0 <= i < |wire| :: Value(wire[i]) == data[i]
    ensures Wire(data) == wire
  {
    forall i | 0 <= i < |wire| ensures Wire(data)[i] == wire[i] {
      BitsOfValue(wire[i]);
    }
  }

  /** From a known checksum to a known packet. */
  lemma KnownPacket(c: Command, body: seq<Byte>, wire: seq<Octet>, crc: bv16)
    requires Body(c) == body && Wire(body) == wire && Crc(wire) == crc
    ensures Packet(c) == body + [Value(LowOctet(crc)), Value(HighOctet(crc))]
  {}

  lemma InventoryWire()
    ensures Wire([0x09, 0x00, 0x01, 0x04, 0x01, 0x00, 0x80, 0x0A])
            == [0x09, 0x00, 0x01, 0x04, 0x01, 0x00, 0x80, 0x0A]
  {
    WireIs([0x09, 0x00, 0x01, 0x04, 0x01, 0x00, 0x80, 0x0A], [0x09, 0x00, 0x01, 0x04, 0x01, 0x00, 0x80, 0x0A]);
  }

  lemma KnownInventoryPacket()
    ensures Packet(Command(0x00, 0x01, [0x04, 0x01, 0x00, 0x80, 0x0A]))
            == [0x09, 0x00, 0x01, 0x04, 0x01, 0x00, 0x80, 0x0A, 0x99, 0xC6]
  {
    KnownInventoryAnswer();
    InventoryWire();
    KnownPacket(Command(0x00, 0x01, [0x04, 0x01, 0x00, 0x80, 0x0A]), [0x09, 0x00, 0x01, 0x04, 0x01, 0x00, 0x80, 0x0A],
                [0x09, 0x00, 0x01, 0x04, 0x01, 0x00, 0x80, 0x0A], 0xC699);
  }

  lemma KnownShortPacket(address: Byte, command: Byte, a: Octet, b: Octet, crc: bv16)
    requires Value(a) == address && Value(b) == command && Crc([0x04, a, b]) == crc
    ensures Packet(Command(address, command, []))
            == [0x04, address, command, Value(LowOctet(crc)), Value(HighOctet(crc))]
  {
    WireIs([0x04, address, command], [0x04, a, b]);
    KnownPacket(Command(address, command, []), [0x04, address, command], [0x04, a, b], crc);
  }

  /** The packets that the repository's tests fix: four commands without payload, and an inventory
      command. */
  lemma KnownPackets()
    ensures Packet(Command(0x00, 0x01, [])) == [0x04, 0x00, 0x01, 0xDB, 0x4B]
    ensures Packet(Command(0xFF, 0x01, [])) == [0x04, 0xFF, 0x01, 0x1B, 0xB4]
    ensures Packet(Command(0x00, 0x21, [])) == [0x04, 0x00, 0x21, 0xD9, 0x6A]
    ensures Packet(Command(0x00, 0x0F, [])) == [0x04, 0x00, 0x0F, 0xA5, 0xA2]
    ensures Packet(Command(0x00, 0x01, [0x04, 0x01, 0x00, 0x80, 0x0A]))
            == [0x09, 0x00, 0x01, 0x04, 0x01, 0x00, 0x80, 0x0A, 0x99, 0xC6]
  {
    KnownAnswers();
    KnownShortPacket(0x00, 0x01, 0x00, 0x01, 0x4BDB);
    KnownShortPacket(0xFF, 0x01, 0xFF, 0x01, 0xB41B);
    KnownShortPacket(0x00, 0x21, 0x00, 0x21, 0x6AD9);
    KnownShortPacket(0x00, 0x0F, 0x00, 0x0F, 0xA2A5);
    KnownInventoryPacket();
  }

  // ----- Which transmission errors the check reveals -----

  /** Damage to a valid packet goes unnoticed exactly when the length byte survives and the
      difference folds to 0. */
  lemma DamageUnnoticedIff(packet: seq<Byte>, damaged: seq<Byte>)
    requires Verified(packet) && |damaged| == |packet|
    ensures Verified(damaged) <==>
            damaged[0] == packet[0] && Fold(0, Xor(Wire(packet), Wire(damaged))) == 0
  {
    VerifiedIffResidueZero(packet);
    VerifiedIffResidueZero(damaged);
    SyndromeDecides(Wire(packet), Wire(damaged));
  }

  /** No burst of up to 16 bits gets past the check, wherever it falls, trailer included. */
  lemma BurstRejected(packet: seq<Byte>, damaged: seq<Byte>, window: nat)
    requires Verified(packet) && |damaged| == |packet|
    requires DifferInBurst(Wire(packet), Wire(damaged), window)
    ensures !Verified(damaged)
  {
    VerifiedIffResidueZero(packet);
    VerifiedIffResidueZero(damaged);
    BurstDetected(Wire(packet), Wire(damaged), window);
  }

  /** Any damage to one byte or to two adjacent bytes is rejected. */
  lemma AdjacentBytesRejected(packet: seq<Byte>, damaged: seq<Byte>, i: nat)
    requires Verified(packet) && |damaged| == |packet| && damaged != packet
    requires forall j: nat | j < |packet| && j != i && j != i + 1 :: damaged[j] == packet[j]
    ensures !Verified(damaged)
  {
    var p, q := Wire(packet), Wire(damaged);
    forall n: nat | n < 8 * |packet| && BitAt(p, n) != BitAt(q, n)
      ensures 8 * i <= n < 8 * i + 16
    {
      assert p[n / 8] != q[n / 8];
    }
    SameWire(packet, damaged);
    BurstRejected(packet, damaged, 8 * i);
  }

  /** Flipping an odd number of bits is rejected. */
  lemma OddErrorRejected(packet: seq<Byte>, damaged: seq<Byte>)
    requires Verified(packet) && |damaged| == |packet|
    requires Flips(Wire(packet), Wire(damaged), 8 * |packet|) % 2 == 1
    ensures !Verified(damaged)
  {
    VerifiedIffResidueZero(packet);
    VerifiedIffResidueZero(damaged);
    OddErrorDetected(Wire(packet), Wire(damaged));
  }

  /** Flipping any two bits is rejected: no packet is long enough for the exception. */
  lemma PairErrorRejected(packet: seq<Byte>, damaged: seq<Byte>, m: nat, n: nat)
    requires Verified(packet) && |damaged| == |packet|
    requires DifferInPair(Wire(packet), Wire(damaged), m, n)
    ensures !Verified(damaged)
  {
    VerifiedIffResidueZero(packet);
    VerifiedIffResidueZero(damaged);
    PairUnnoticedIff(Wire(packet), Wire(damaged), m, n);
    ModSmall(n - m, PERIOD);
  }

  // ----- Parsing -----

  method ParseFrames(stream: seq<Byte>) returns (frames: seq<Frame>, remaining: seq<Byte>)
    ensures frames == Frames(Verified, stream)
    ensures remaining == Cut(Verified, stream).rest
  {
    if |stream| == 0 {
      return [], [];
    }
    var buf := stream;
    frames := [];
    while |buf| > 0
      invariant Halfway(Verified, stream, frames, buf)
      decreases |buf|
    {
      if |buf| < 6 {
        break;
      }
      var total := buf[0] as int + 1;
      if total < 6 {
        HalfwaySteps(Verified, stream, frames, buf);
        buf := buf[1..];
        continue;
      }
      if total > |buf| {
        break;
      }
      var raw := buf[..total];
      var ok := VerifyPacket(raw);
      if !ok {
        HalfwaySteps(Verified, stream, frames, buf);
        buf := buf[1..];
        continue;
      }
      var frame := FrameOf(raw);
      HalfwayTakes(Verified, stream, frames, buf, frame);
      frames := frames + [frame];
      buf := buf[total..];
    }
    HalfwayWaits(Verified, stream, frames, buf);
    remaining := buf;
  }
}
