/**
 What cutting a stream guarantees: an independent description of the cut, how it
 composes over chunks, how much it can leave over, and the round trip through
 the encoder.
 */
module Streaming {
  import opened Bytes
  import opened Reader18
  import opened Scanner

  // ----- The cut, described without the scanner -----

  /** A valid packet begins at the front of the buffer and is complete. */
  ghost predicate StartsNow(buf: seq<Byte>) {
    exists n: nat :: n <= |buf| && Verified(buf[..n])
  }

  /** Some continuation of the buffer has a valid packet at its front. */
  ghost predicate CanStart(buf: seq<Byte>) {
    exists whole: seq<Byte> :: buf <= whole && StartsNow(whole)
  }

  /** Only the last byte that the length byte announces is missing. */
  predicate OneShort(buf: seq<Byte>) {
    buf != [] && Declared(buf) == |buf| + 1
  }

  /** The scanner waits although nothing that follows can help: a length byte below the minimum, with fewer
      bytes there than the minimum; or only the high checksum byte missing and the low one wrong. */
  predicate WaitsInVain(buf: seq<Byte>) {
    && buf != []
    && if Declared(buf) < MIN_PACKET then
         |buf| < MIN_PACKET
       else
         OneShort(buf) && buf[|buf| - 1] != Trailer(buf[..|buf| - 1])[0]
  }

  /** Bytes are dropped one at a time where no packet can begin, whatever follows; packets are taken
      whole; and cutting stops at the first position that needs more input, or waits for it in vain. */
  ghost predicate IsGreedyCut(buf: seq<Byte>, pieces: seq<Piece>, rest: seq<Byte>)
    decreases |pieces|
  {
    if pieces == [] then
      rest == buf && !StartsNow(buf) && (CanStart(buf) || WaitsInVain(buf))
    else
      match pieces[0]
      case Skipped(b) =>
        && buf != [] && !CanStart(buf) && !WaitsInVain(buf)
        && b == buf[0] && IsGreedyCut(buf[1..], pieces[1..], rest)
      case Accepted(raw) =>
        && Verified(raw) && raw <= buf
        && IsGreedyCut(buf[|raw|..], pieces[1..], rest)
  }

  lemma TakesIff(buf: seq<Byte>)
    ensures Takes(Verified, buf) <==> StartsNow(buf)
  {
    if Takes(Verified, buf) {
      assert Verified(buf[..Declared(buf)]);
    }
    if StartsNow(buf) {
      var n: nat :| n <= |buf| && Verified(buf[..n]);
      assert n == Declared(buf);
    }
  }

  lemma SealedVerifies(body: seq<Byte>)
    requires |body| >= 4 && body[0] as int + 1 == |body| + 2
    ensures Verified(body + Trailer(body))
  {
    var whole := body + Trailer(body);
    assert whole[..|body|] == body && whole[|body|..] == Trailer(body);
  }

  lemma CanStartBy(buf: seq<Byte>, whole: seq<Byte>)
    requires buf <= whole && Verified(whole)
    ensures CanStart(buf)
  {
    assert whole[..|whole|] == whole;
    assert StartsNow(whole);
  }

  lemma WaitingCanStart(buf: seq<Byte>)
    requires Waits(buf) && !WaitsInVain(buf)
    ensures CanStart(buf)
  {
    if buf == [] {
      SealedVerifies([5, 0, 0, 0]);
      CanStartBy(buf, [5, 0, 0, 0] + Trailer([5, 0, 0, 0]));
    } else if OneShort(buf) {
      var body := buf[..|buf| - 1];
      SealedVerifies(body);
      CanStartBy(buf, body + Trailer(body));
    } else {
      var body := buf + seq(Declared(buf) - 2 - |buf|, _ => 0);
      SealedVerifies(body);
      CanStartBy(buf, body + Trailer(body));
    }
  }

  lemma PacketAhead(buf: seq<Byte>, packet: seq<Byte>)
    requires Verified(packet)
    requires buf <= packet || packet <= buf
    ensures Takes(Verified, buf) || (Waits(buf) && !WaitsInVain(buf))
    ensures packet <= buf ==> Takes(Verified, buf) && |packet| == Declared(buf)
  {
    var n := |packet|;
    assert buf != [] ==> n == Declared(buf);
    if n <= |buf| {
      assert packet == buf[..n];
    } else if buf != [] && OneShort(buf) {
      assert packet[..n - 2] == buf[..|buf| - 1];
      assert packet[n - 2..][0] == buf[|buf| - 1];
    }
  }

  /** A valid packet begins here, or can begin here, exactly when the scanner takes one or waits, and does
      not wait in vain. */
  lemma CanStartIff(buf: seq<Byte>)
    ensures CanStart(buf) <==> Takes(Verified, buf) || (Waits(buf) && !WaitsInVain(buf))
  {
    if Takes(Verified, buf) {
      TakesIff(buf);
      assert buf <= buf;
    } else if Waits(buf) && !WaitsInVain(buf) {
      WaitingCanStart(buf);
    }
    if CanStart(buf) {
      var whole :| buf <= whole && StartsNow(whole);
      var n: nat :| n <= |whole| && Verified(whole[..n]);
      assert n <= |buf| ==> whole[..n] <= buf;
      assert n > |buf| ==> buf <= whole[..n];
      PacketAhead(buf, whole[..n]);
    }
  }

  /** The scanner waits where no packet can begin, exactly in these two kinds of places. */
  lemma WaitsInVainIff(buf: seq<Byte>)
    ensures Waits(buf) && !CanStart(buf) <==> WaitsInVain(buf)
  {
    CanStartIff(buf);
  }

  /** The first kind: a single byte below 5 is kept, and nothing that follows makes it a packet. */
  lemma ShortNoiseIsKept(b: Byte)
    requires b < 5
    ensures Cut(Verified, [b]).rest == [b] && !CanStart([b])
  {
    WaitsInVainIff([b]);
  }

  /** The second kind: a packet whose low checksum byte is wrong is kept until its last byte is there. */
  lemma WrongLowByteIsKept(body: seq<Byte>, b: Byte)
    requires |body| >= 4 && Declared(body) == |body| + 2 && b != Trailer(body)[0]
    ensures Cut(Verified, body + [b]).rest == body + [b] && !CanStart(body + [b])
  {
    assert (body + [b])[..|body|] == body;
    WaitsInVainIff(body + [b]);
  }

  /** The three things the scanner can do, told by what can still arrive. */
  lemma ScannerDecides(buf: seq<Byte>)
    ensures Takes(Verified, buf) <==> StartsNow(buf)
    ensures Waits(buf) <==> !StartsNow(buf) && (CanStart(buf) || WaitsInVain(buf))
    ensures Steps(Verified, buf) <==> !CanStart(buf) && !WaitsInVain(buf)
  {
    TakesIff(buf);
    CanStartIff(buf);
  }

  lemma AcceptedIsTaken(buf: seq<Byte>, raw: seq<Byte>)
    requires Verified(raw) && raw <= buf
    ensures Takes(Verified, buf) && |raw| == Declared(buf) && raw == buf[..|raw|]
  {
    PacketAhead(buf, raw);
  }

  lemma TakesCanStart(buf: seq<Byte>)
    requires Takes(Verified, buf)
    ensures CanStart(buf)
  {
    TakesIff(buf);
    assert buf <= buf;
  }

  lemma GreedyWhereTaken(buf: seq<Byte>, pieces: seq<Piece>, rest: seq<Byte>)
    requires Takes(Verified, buf)
    ensures IsGreedyCut(buf, pieces, rest) <==>
            && pieces != [] && pieces[0] == Accepted(buf[..Declared(buf)])
            && IsGreedyCut(buf[Declared(buf)..], pieces[1..], rest)
  {
    ScannerDecides(buf);
    TakesCanStart(buf);
    if pieces != [] && pieces[0].Accepted? && Verified(pieces[0].raw) && pieces[0].raw <= buf {
      AcceptedIsTaken(buf, pieces[0].raw);
    }
  }

  lemma GreedyWhereNotTaken(buf: seq<Byte>, pieces: seq<Piece>, rest: seq<Byte>)
    requires !Takes(Verified, buf)
    ensures IsGreedyCut(buf, pieces, rest) <==>
            if Waits(buf) then
              pieces == [] && rest == buf
            else
              pieces != [] && pieces[0] == Skipped(buf[0]) && IsGreedyCut(buf[1..], pieces[1..], rest)
  {
    ScannerDecides(buf);
    forall raw | Verified(raw) && raw <= buf ensures false {
      AcceptedIsTaken(buf, raw);
    }
  }

  /** The scanner computes the greedy cut, and there is only one. */
  lemma {:induction false} CutIsTheGreedyCut(buf: seq<Byte>, pieces: seq<Piece>, rest: seq<Byte>)
    ensures IsGreedyCut(buf, pieces, rest) <==> Cut(Verified, buf) == Cutting(pieces, rest)
    decreases |buf|
  {
    if Takes(Verified, buf) {
      CutTakes(Verified, buf);
      GreedyWhereTaken(buf, pieces, rest);
      if pieces != [] {
        FoundIff(pieces, rest, Accepted(buf[..Declared(buf)]), Cut(Verified, buf[Declared(buf)..]));
        CutIsTheGreedyCut(buf[Declared(buf)..], pieces[1..], rest);
      }
    } else {
      GreedyWhereNotTaken(buf, pieces, rest);
      if Waits(buf) {
        CutWaits(Verified, buf);
      } else {
        CutSteps(Verified, buf);
        if pieces != [] {
          FoundIff(pieces, rest, Skipped(buf[0]), Cut(Verified, buf[1..]));
          CutIsTheGreedyCut(buf[1..], pieces[1..], rest);
        }
      }
    }
  }

  lemma FoundIff(pieces: seq<Piece>, rest: seq<Byte>, first: Piece, later: Cutting)
    requires pieces != []
    ensures Found(first, later) == Cutting(pieces, rest) <==>
            pieces[0] == first && later == Cutting(pieces[1..], rest)
  {
    assert pieces == [pieces[0]] + pieces[1..];
    assert ([first] + later.pieces)[1..] == later.pieces;
  }

  // ----- Through the encoder and back -----

  predicate Sendable(c: Command) {
    1 <= |c.payload| <= 251
  }

  function Packets(commands: seq<Command>): seq<seq<Byte>> {
    seq(|commands|, i requires 0 <= i < |commands| => Packet(commands[i]))
  }

  /** What the frame of a packet says about the command that was sealed. */
  predicate Carries(frame: Frame, c: Command)
    requires Sendable(c)
  {
    && frame.address == c.address
    && frame.command == c.command
    && frame.status == c.payload[0]
    && frame.data == c.payload[1..]
    && frame.raw == Packet(c)
    && frame.length as int == |c.payload| + 4
    && frame.crcValid
  }

  lemma SendableIsSealed(c: Command)
    requires Sendable(c)
    ensures Sealed(Verified, Packet(c)) && Carries(FrameOf(Packet(c)), c)
  {
    BuiltPacketVerifiesIff(c);
    var packet := Packet(c);
    assert packet[4..|packet| - 2] == c.payload[1..];
  }

  lemma UnfinishedPacketWaits(c: Command, part: seq<Byte>)
    requires Sendable(c) && part <= Packet(c) && part != Packet(c)
    ensures Waits(part)
  {
    if part != [] {
      assert part[0] == Packet(c)[0];
    }
  }

  /** Packets of sendable commands, followed by any unfinished one, parse to exactly those commands
      and leave exactly the unfinished part. */
  lemma RoundTrip(commands: seq<Command>, next: Command, part: seq<Byte>)
    requires forall c | c in commands :: Sendable(c)
    requires Sendable(next) && part <= Packet(next) && part != Packet(next)
    ensures var frames := Frames(Verified, Concat(Packets(commands)) + part);
            && |frames| == |commands|
            && forall i | 0 <= i < |frames| :: Carries(frames[i], commands[i])
    ensures Cut(Verified, Concat(Packets(commands)) + part).rest == part
  {
    UnfinishedPacketWaits(next, part);
    forall c | c in commands ensures Sealed(Verified, Packet(c)) && Carries(FrameOf(Packet(c)), c) {
      SendableIsSealed(c);
    }
    CutOfPackets(Verified, Packets(commands), part);
  }
}
