/**
 The read loop of the reader connection: every read of the socket becomes a
 packet of its own, unless the packet channel is full.
 */
module Transport {
  import opened Bytes
  import opened Scanner
  import opened Effects
  import opened Inventory
  import opened InventoryRuns

  /** What one read of the socket into the 4096-byte buffer gives. */
  datatype Read = Data(bytes: seq<Byte>) | Error

  predicate FromBuffer(read: Read) {
    read.Data? ==> Fits(read.bytes)
  }

  /** The packets put into the channel; room says of each read whether the channel has room then. */
  function Packets(incoming: seq<Read>, room: nat -> bool, i: nat): seq<seq<Byte>>
    requires i <= |incoming|
    decreases |incoming| - i
  {
    if i == |incoming| || incoming[i].Error? then
      []
    else
      (if incoming[i].bytes != [] && room(i) then [incoming[i].bytes] else []) + Packets(incoming, room, i + 1)
  }

  /** The bytes that the socket gave before the first error. */
  function Received(incoming: seq<Read>, i: nat): seq<Byte>
    requires i <= |incoming|
    decreases |incoming| - i
  {
    if i == |incoming| || incoming[i].Error? then [] else incoming[i].bytes + Received(incoming, i + 1)
  }

  method ReadLoop(incoming: seq<Read>, room: nat -> bool) returns (packets: seq<seq<Byte>>, failed: bool)
    ensures packets == Packets(incoming, room, 0)
    ensures failed <==> exists i :: 0 <= i < |incoming| && incoming[i].Error?
  {
    packets := [];
    var i := 0;
    while i < |incoming|
      invariant i <= |incoming|
      invariant packets + Packets(incoming, room, i) == Packets(incoming, room, 0)
      invariant forall k | 0 <= k < i :: !incoming[k].Error?
    {
      var read := incoming[i];
      if read.Error? {
        assert packets + [] == packets;
        return packets, true;
      }
      OneRead(incoming, room, i, packets);
      i := i + 1;
      if |read.bytes| <= 0 {
        continue;
      }
      if room(i - 1) {
        packets := packets + [read.bytes];
      }
    }
    assert packets + [] == packets;
    return packets, false;
  }

  lemma OneRead(incoming: seq<Read>, room: nat -> bool, i: nat, before: seq<seq<Byte>>)
    requires i < |incoming| && !incoming[i].Error?
    ensures var bytes := incoming[i].bytes;
            before + Packets(incoming, room, i)
            == (if bytes != [] && room(i) then before + [bytes] else before) + Packets(incoming, room, i + 1)
  {
    var rest := Packets(incoming, room, i + 1);
    assert [] + rest == rest;
    assert before + ([incoming[i].bytes] + rest) == before + [incoming[i].bytes] + rest;
  }

  lemma {:induction false} PacketsFit(incoming: seq<Read>, room: nat -> bool, i: nat)
    requires i <= |incoming| && forall r | r in incoming :: FromBuffer(r)
    ensures forall p | p in Packets(incoming, room, i) :: Fits(p) && p != []
    decreases |incoming| - i
  {
    if i < |incoming| && !incoming[i].Error? {
      assert incoming[i] in incoming;
      PacketsFit(incoming, room, i + 1);
    }
  }

  predicate Failed(incoming: seq<Read>) {
    exists i :: 0 <= i < |incoming| && incoming[i].Error?
  }

  /** A read adds its bytes, as a packet of its own, behind those before it; unless it is empty, finds the
      channel full, or comes after an error. */
  lemma {:induction false} OneMorePacket(incoming: seq<Read>, read: Read, room: nat -> bool, i: nat)
    requires i <= |incoming|
    ensures Packets(incoming + [read], room, i)
            == Packets(incoming, room, i)
               + if !Failed(incoming[i..]) && read.Data? && read.bytes != [] && room(|incoming|) then [read.bytes]
                 else []
    decreases |incoming| - i
  {
    var more := incoming + [read];
    if i < |incoming| {
      assert more[i] == incoming[i] && incoming[i] == incoming[i..][0];
      if !incoming[i].Error? {
        OneMorePacket(incoming, read, room, i + 1);
        FailedLater(incoming, i);
      }
    } else {
      assert !Failed(incoming[i..]);
      assert Packets(more, room, i + 1) == [];
    }
  }

  lemma FailedLater(incoming: seq<Read>, i: nat)
    requires i < |incoming| && !incoming[i].Error?
    ensures Failed(incoming[i..]) <==> Failed(incoming[i + 1..])
  {
    assert incoming[i..] == [incoming[i]] + incoming[i + 1..];
    var rest := incoming[i + 1..];
    if k :| 0 <= k < |rest| && rest[k].Error? {
      assert incoming[i..][k + 1].Error?;
    }
  }

  /** The packets, read by read. */
  lemma PacketsAreReads(incoming: seq<Read>, read: Read, room: nat -> bool)
    ensures Packets([], room, 0) == []
    ensures Packets(incoming + [read], room, 0)
            == Packets(incoming, room, 0)
               + if !Failed(incoming) && read.Data? && read.bytes != [] && room(|incoming|) then [read.bytes] else []
  {
    OneMorePacket(incoming, read, room, 0);
    assert incoming[0..] == incoming;
  }

  /** No packet found the channel full. */
  predicate NeverFull(incoming: seq<Read>, room: nat -> bool) {
    forall i | 0 <= i < |incoming| :: room(i)
  }

  lemma {:induction false} NothingIsLost(incoming: seq<Read>, room: nat -> bool, i: nat)
    requires i <= |incoming| && NeverFull(incoming, room)
    ensures Concat(Packets(incoming, room, i)) == Received(incoming, i)
    decreases |incoming| - i
  {
    if i < |incoming| && !incoming[i].Error? {
      NothingIsLost(incoming, room, i + 1);
      var rest := Packets(incoming, room, i + 1);
      if incoming[i].bytes != [] {
        assert ([incoming[i].bytes] + rest)[1..] == rest;
      } else {
        assert [] + rest == rest;
      }
    }
  }

  /** The client does with the packets exactly what it would do with all bytes of those that found room at
      once, wherever the reads have cut the stream and whatever was dropped. */
  lemma DeliveredToEvents(cfg: Config, intake: Intake, incoming: seq<Read>, room: nat -> bool)
    requires Waits(intake.buffer) && forall r | r in incoming :: FromBuffer(r)
    ensures RunAll(Consuming(cfg), intake, Packets(incoming, room, 0))
         == ConsumeWhole(cfg, intake, Concat(Packets(incoming, room, 0)))
  {
    PacketsFit(incoming, room, 0);
    ChunksDoNotMatter(cfg, intake, Packets(incoming, room, 0));
  }

  /** From the socket to the events: as long as the packet channel is never full, that is all bytes that
      the socket gave before its first error. */
  lemma SocketToEvents(cfg: Config, intake: Intake, incoming: seq<Read>, room: nat -> bool)
    requires Waits(intake.buffer) && NeverFull(incoming, room) && forall r | r in incoming :: FromBuffer(r)
    ensures RunAll(Consuming(cfg), intake, Packets(incoming, room, 0))
         == ConsumeWhole(cfg, intake, Received(incoming, 0))
  {
    DeliveredToEvents(cfg, intake, incoming, room);
    NothingIsLost(incoming, room, 0);
  }
}
