/**
 Cutting a byte stream into packets, noise and an unfinished end. The scanner
 needs only one thing from the checksum: a yes or no about a candidate packet.
 So everything here holds for any check.
 */
module Scanner {
  import opened Bytes

  const MIN_PACKET: nat := 6

  type Check = seq<Byte> -> bool

  /** One decoded response frame. */
  datatype Frame = Frame(
    length: Byte,
    address: Byte,
    command: Byte,
    status: Byte,
    data: seq<Byte>,
    raw: seq<Byte>,
    crcValid: bool)

  /** What the scanner does with a stretch of input. */
  datatype Piece = Skipped(b: Byte) | Accepted(raw: seq<Byte>)

  datatype Cutting = Cutting(pieces: seq<Piece>, rest: seq<Byte>)

  /** The packet size that the length byte announces. */
  function Declared(buf: seq<Byte>): nat
    requires buf != []
  {
    buf[0] as int + 1
  }

  function Cut(check: Check, buf: seq<Byte>): Cutting {
    if |buf| < MIN_PACKET then
      Cutting([], buf)
    else
      var total := Declared(buf);
      if total < MIN_PACKET then
        Found(Skipped(buf[0]), Cut(check, buf[1..]))
      else if total > |buf| then
        Cutting([], buf)
      else if !check(buf[..total]) then
        Found(Skipped(buf[0]), Cut(check, buf[1..]))
      else
        Found(Accepted(buf[..total]), Cut(check, buf[total..]))
  }

  function Found(first: Piece, later: Cutting): Cutting {
    Cutting([first] + later.pieces, later.rest)
  }

  /** The scanner steps over the first byte. */
  predicate Steps(check: Check, buf: seq<Byte>) {
    && |buf| >= MIN_PACKET
    && (Declared(buf) < MIN_PACKET || (Declared(buf) <= |buf| && !check(buf[..Declared(buf)])))
  }

  /** The scanner leaves the buffer for later. */
  predicate Waits(buf: seq<Byte>) {
    |buf| < MIN_PACKET || (Declared(buf) >= MIN_PACKET && Declared(buf) > |buf|)
  }

  /** The scanner takes a packet. */
  predicate Takes(check: Check, buf: seq<Byte>) {
    |buf| >= MIN_PACKET && MIN_PACKET <= Declared(buf) <= |buf| && check(buf[..Declared(buf)])
  }

  function FrameOf(raw: seq<Byte>): Frame
    requires |raw| >= MIN_PACKET
  {
    Frame(raw[0], raw[1], raw[2], raw[3], raw[4..|raw| - 2], raw, true)
  }

  function FramesOf(pieces: seq<Piece>): seq<Frame> {
    if pieces == [] then
      []
    else if pieces[0].Accepted? && |pieces[0].raw| >= MIN_PACKET then
      [FrameOf(pieces[0].raw)] + FramesOf(pieces[1..])
    else
      FramesOf(pieces[1..])
  }

  function Frames(check: Check, stream: seq<Byte>): seq<Frame> {
    FramesOf(Cut(check, stream).pieces)
  }

  lemma {:induction false} FramesOfConcat(a: seq<Piece>, b: seq<Piece>)
    ensures FramesOf(a + b) == FramesOf(a) + FramesOf(b)
  {
    if a == [] {
      assert a + b == b;
    } else {
      assert (a + b)[1..] == a[1..] + b;
      FramesOfConcat(a[1..], b);
    }
  }

  lemma CutSteps(check: Check, buf: seq<Byte>)
    requires Steps(check, buf)
    ensures Cut(check, buf) == Found(Skipped(buf[0]), Cut(check, buf[1..]))
    ensures Frames(check, buf) == Frames(check, buf[1..])
  {
    FramesOfFound(Skipped(buf[0]), Cut(check, buf[1..]));
  }

  lemma CutTakes(check: Check, buf: seq<Byte>)
    requires Takes(check, buf)
    ensures var n := Declared(buf);
            && Cut(check, buf) == Found(Accepted(buf[..n]), Cut(check, buf[n..]))
            && Frames(check, buf) == [FrameOf(buf[..n])] + Frames(check, buf[n..])
  {
    var n := Declared(buf);
    FramesOfFound(Accepted(buf[..n]), Cut(check, buf[n..]));
  }

  lemma CutWaits(check: Check, buf: seq<Byte>)
    requires Waits(buf)
    ensures Cut(check, buf) == Cutting([], buf) && Frames(check, buf) == []
  {}

  lemma FramesOfFound(first: Piece, later: Cutting)
    ensures FramesOf(Found(first, later).pieces)
         == (if first.Accepted? && |first.raw| >= MIN_PACKET then [FrameOf(first.raw)] else [])
            + FramesOf(later.pieces)
  {
    assert ([first] + later.pieces)[1..] == later.pieces;
  }

  /** Between two turns of the scanning loop: the frames taken so far and the buffer still to scan. */
  ghost predicate Halfway(check: Check, stream: seq<Byte>, frames: seq<Frame>, buf: seq<Byte>) {
    frames + Frames(check, buf) == Frames(check, stream) && Cut(check, buf).rest == Cut(check, stream).rest
  }

  lemma HalfwaySteps(check: Check, stream: seq<Byte>, frames: seq<Frame>, buf: seq<Byte>)
    requires Halfway(check, stream, frames, buf) && Steps(check, buf)
    ensures Halfway(check, stream, frames, buf[1..])
  {
    CutSteps(check, buf);
  }

  lemma HalfwayTakes(check: Check, stream: seq<Byte>, frames: seq<Frame>, buf: seq<Byte>, frame: Frame)
    requires Halfway(check, stream, frames, buf) && Takes(check, buf) && frame == FrameOf(buf[..Declared(buf)])
    ensures Halfway(check, stream, frames + [frame], buf[Declared(buf)..])
  {
    CutTakes(check, buf);
  }

  lemma HalfwayWaits(check: Check, stream: seq<Byte>, frames: seq<Frame>, buf: seq<Byte>)
    requires Halfway(check, stream, frames, buf) && Waits(buf)
    ensures frames == Frames(check, stream) && buf == Cut(check, stream).rest
  {
    CutWaits(check, buf);
  }

  // ----- Nothing is lost -----

  function Flatten(pieces: seq<Piece>): seq<Byte> {
    if pieces == [] then
      []
    else
      (match pieces[0] case Skipped(b) => [b] case Accepted(raw) => raw) + Flatten(pieces[1..])
  }

  lemma {:induction false} FlattenConcat(a: seq<Piece>, b: seq<Piece>)
    ensures Flatten(a + b) == Flatten(a) + Flatten(b)
  {
    if a == [] {
      assert a + b == b;
    } else {
      assert (a + b)[1..] == a[1..] + b;
      FlattenConcat(a[1..], b);
    }
  }

  /** The packets, the noise and the leftover are the input, in order. */
  lemma {:induction false} CutPartitions(check: Check, buf: seq<Byte>)
    ensures Flatten(Cut(check, buf).pieces) + Cut(check, buf).rest == buf
    decreases |buf|
  {
    if Takes(check, buf) {
      CutTakes(check, buf);
      CutPartitions(check, buf[Declared(buf)..]);
    } else if Steps(check, buf) {
      CutSteps(check, buf);
      CutPartitions(check, buf[1..]);
    }
  }

  // ----- Chunks -----

  /** The leftover is short, is a suffix of the input, and holds nothing that could be cut off. */
  lemma {:induction false} RestWaits(check: Check, buf: seq<Byte>)
    ensures Waits(Cut(check, buf).rest)
    ensures |Cut(check, buf).rest| <= 255
    ensures Cut(check, Cut(check, buf).rest) == Cutting([], Cut(check, buf).rest)
    decreases |buf|
  {
    if Takes(check, buf) {
      CutTakes(check, buf);
      RestWaits(check, buf[Declared(buf)..]);
    } else if Steps(check, buf) {
      CutSteps(check, buf);
      RestWaits(check, buf[1..]);
    }
  }

  /** Parsing what has arrived and then the leftover with what follows is parsing it all at once. */
  lemma {:induction false} CutOfConcat(check: Check, a: seq<Byte>, b: seq<Byte>)
    ensures Cut(check, a + b) == Resumed(Cut(check, a).pieces, Cut(check, Cut(check, a).rest + b))
    decreases |a|
  {
    if Takes(check, a) {
      TakesAnyway(check, a, b);
      CutTakes(check, a);
      CutTakes(check, a + b);
      CutOfConcat(check, a[Declared(a)..], b);
      FoundResumed(Accepted(a[..Declared(a)]), Cut(check, a[Declared(a)..]), Cut(check, Cut(check, a).rest + b));
    } else if Steps(check, a) {
      StepsAnyway(check, a, b);
      CutSteps(check, a);
      CutSteps(check, a + b);
      CutOfConcat(check, a[1..], b);
      FoundResumed(Skipped(a[0]), Cut(check, a[1..]), Cut(check, Cut(check, a).rest + b));
    } else {
      CutWaits(check, a);
    }
  }

  /** The cut of a longer stream, given the pieces of its beginning and the cut of the remainder. */
  function Resumed(pieces: seq<Piece>, later: Cutting): Cutting {
    Cutting(pieces + later.pieces, later.rest)
  }

  lemma FoundResumed(first: Piece, early: Cutting, later: Cutting)
    ensures Found(first, Resumed(early.pieces, later)) == Resumed(Found(first, early).pieces, later)
  {
    assert [first] + (early.pieces + later.pieces) == ([first] + early.pieces) + later.pieces;
  }

  lemma TakesAnyway(check: Check, a: seq<Byte>, b: seq<Byte>)
    requires Takes(check, a)
    ensures Takes(check, a + b)
    ensures Declared(a + b) == Declared(a)
    ensures (a + b)[..Declared(a)] == a[..Declared(a)] && (a + b)[Declared(a)..] == a[Declared(a)..] + b
  {
    assert (a + b)[..Declared(a)] == a[..Declared(a)];
  }

  lemma StepsAnyway(check: Check, a: seq<Byte>, b: seq<Byte>)
    requires Steps(check, a)
    ensures Steps(check, a + b)
    ensures (a + b)[1..] == a[1..] + b
  {
    if Declared(a) >= MIN_PACKET {
      assert (a + b)[..Declared(a)] == a[..Declared(a)];
    }
  }

  lemma FramesOfStream(check: Check, a: seq<Byte>, b: seq<Byte>)
    ensures Frames(check, a + b) == Frames(check, a) + Frames(check, Cut(check, a).rest + b)
    ensures Cut(check, a + b).rest == Cut(check, Cut(check, a).rest + b).rest
  {
    CutOfConcat(check, a, b);
    FramesOfConcat(Cut(check, a).pieces, Cut(check, Cut(check, a).rest + b).pieces);
  }

  // ----- Packets back to back -----

  function Concat(packets: seq<seq<Byte>>): seq<Byte> {
    if packets == [] then [] else packets[0] + Concat(packets[1..])
  }

  /** A packet that fills its declared size and passes the check. */
  predicate Sealed(check: Check, packet: seq<Byte>) {
    |packet| >= MIN_PACKET && Declared(packet) == |packet| && check(packet)
  }

  lemma PacketInFront(check: Check, packet: seq<Byte>, more: seq<Byte>)
    requires Sealed(check, packet)
    ensures Takes(check, packet + more) && Declared(packet + more) == |packet|
    ensures (packet + more)[..|packet|] == packet && (packet + more)[|packet|..] == more
    ensures Cut(check, packet + more) == Found(Accepted(packet), Cut(check, more))
    ensures Frames(check, packet + more) == [FrameOf(packet)] + Frames(check, more)
  {
    var stream := packet + more;
    assert stream[..|packet|] == packet && stream[|packet|..] == more;
    assert Declared(stream) == |packet|;
    CutTakes(check, stream);
  }

  /** Sealed packets back to back, with an undecided end, are cut into exactly those packets. */
  lemma {:induction false} CutOfPackets(check: Check, packets: seq<seq<Byte>>, end: seq<Byte>)
    requires forall p | p in packets :: Sealed(check, p)
    requires Waits(end)
    ensures var cut := Cut(check, Concat(packets) + end);
            && cut.rest == end
            && |cut.pieces| == |packets|
            && forall i | 0 <= i < |packets| :: cut.pieces[i] == Accepted(packets[i])
    ensures var frames := Frames(check, Concat(packets) + end);
            && |frames| == |packets|
            && forall i | 0 <= i < |packets| :: Sealed(check, packets[i]) && frames[i] == FrameOf(packets[i])
  {
    if packets == [] {
      assert Concat(packets) + end == end;
      CutWaits(check, end);
    } else {
      assert Sealed(check, packets[0]);
      var more := Concat(packets[1..]) + end;
      assert Concat(packets) + end == packets[0] + more;
      PacketInFront(check, packets[0], more);
      CutOfPackets(check, packets[1..], end);
    }
  }
}
