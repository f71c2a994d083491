/**
 The payload of an inventory answer: an antenna mask, a tag count, and for each
 tag a length byte, the EPC and a signal strength.
 */
module InventoryTags {
  import opened Bytes
  import opened Scanner

  const CMD_INVENTORY: Byte := 0x01

  datatype Tag = Tag(antenna: int, epc: seq<Byte>, rssi: int)

  datatype ParseError =
    | NotInventoryFrame
    | Truncated(tag: nat)
    | InvalidEpcLength(tag: nat)
    | MissingRssi(tag: nat)

  datatype Parse = Tags(tags: seq<Tag>) | Failed(error: ParseError)

  /** A single antenna's mask names that antenna; any other mask is passed on, plus one. */
  function AntennaId(mask: Byte): int {
    match mask
    case 1 => 1
    case 2 => 2
    case 4 => 3
    case 8 => 4
    case 16 => 5
    case 32 => 6
    case 64 => 7
    case 128 => 8
    case _ => mask as int + 1
  }

  function PowerOfTwo(i: nat): nat {
    if i == 0 then 1 else 2 * PowerOfTwo(i - 1)
  }

  lemma Powers()
    ensures PowerOfTwo(0) == 1 && PowerOfTwo(1) == 2 && PowerOfTwo(2) == 4 && PowerOfTwo(3) == 8
    ensures PowerOfTwo(4) == 16 && PowerOfTwo(5) == 32 && PowerOfTwo(6) == 64 && PowerOfTwo(7) == 128
  {
    assert PowerOfTwo(4) == 16;
  }

  /** The mask with bit i alone names antenna i + 1; a mask with several bits, or none, is no antenna's. */
  lemma AntennaOfMask(mask: Byte, i: nat)
    requires i < 8
    ensures mask == PowerOfTwo(i) ==> AntennaId(mask) == i + 1
    ensures (forall k: nat | k < 8 :: mask != PowerOfTwo(k)) ==> AntennaId(mask) == mask + 1
  {
    Powers();
  }

  // ----- The encoding -----

  /** What the payload says about one tag. */
  datatype RawReading = Reading(epc: seq<Byte>, rssi: Byte)

  /** The length byte can announce EPCs of 1 to 255 bytes. */
  type Reading = r: RawReading | 1 <= |r.epc| <= 255 witness Reading([0], 0)

  function Entry(reading: Reading): seq<Byte> {
    [|reading.epc|] + reading.epc + [reading.rssi]
  }

  function Entries(readings: seq<Reading>): seq<Byte> {
    if readings == [] then [] else Entry(readings[0]) + Entries(readings[1..])
  }

  /** The payload of an inventory answer that reports these readings. */
  function Payload(mask: Byte, readings: seq<Reading>): seq<Byte>
    requires |readings| <= 255
  {
    [mask, |readings|] + Entries(readings)
  }

  function TagOf(antenna: int, reading: Reading): Tag {
    Tag(antenna, reading.epc, reading.rssi)
  }

  function TagsOf(antenna: int, readings: seq<Reading>): seq<Tag> {
    seq(|readings|, i requires 0 <= i < |readings| => TagOf(antenna, readings[i]))
  }

  // ----- Parsing -----

  datatype EntryParse = Got(reading: Reading, more: seq<Byte>) | Bad(error: ParseError)

  /** One turn of the loop, at tag i, on what is left of the payload. */
  function ReadEntry(rest: seq<Byte>, i: nat): EntryParse {
    if rest == [] then
      Bad(Truncated(i))
    else
      var len := rest[0] as int;
      if len == 0 || 1 + len > |rest| then
        Bad(InvalidEpcLength(i))
      else if 1 + len == |rest| then
        Bad(MissingRssi(i))
      else
        Got(Reading(rest[1..1 + len], rest[1 + len]), rest[len + 2..])
  }

  /** The readings got through, what is left and the next tag's index then, and why reading stopped
      early, if it did. */
  datatype Progress = Progress(readings: seq<Reading>, more: seq<Byte>, at: nat, stopped: seq<ParseError>)

  type Reader = (seq<Byte>, nat) -> EntryParse

  /** The loop, from tag i up to tag n, with the turn of the loop as a parameter. */
  function ReadEntries(read: Reader, rest: seq<Byte>, i: nat, n: nat): Progress
    decreases n - i
  {
    if i >= n then
      Progress([], rest, i, [])
    else
      match read(rest, i)
      case Bad(error) => Progress([], rest, i, [error])
      case Got(reading, more) => After([reading], ReadEntries(read, more, i + 1, n))
  }

  function After(readings: seq<Reading>, later: Progress): Progress {
    later.(readings := readings + later.readings)
  }

  function Parsed(frame: Frame): Parse {
    if frame.command != CMD_INVENTORY then
      Failed(NotInventoryFrame)
    else if |frame.data| < 2 then
      Tags([])
    else
      Outcome(AntennaId(frame.data[0]), ReadEntries(ReadEntry, frame.data[2..], 0, frame.data[1]))
  }

  function Outcome(antenna: int, progress: Progress): Parse {
    if progress.stopped == [] then Tags(TagsOf(antenna, progress.readings)) else Failed(progress.stopped[0])
  }

  /** The body of the parsing loop: the entry at the cursor, and the cursor behind it. */
  method ParseEntry(data: seq<Byte>, start: nat, i: nat) returns (entry: EntryParse, cursor: nat)
    requires start <= |data|
    ensures entry == ReadEntry(data[start..], i)
    ensures entry.Got? ==> cursor <= |data| && entry.more == data[cursor..]
  {
    cursor := start;
    if cursor >= |data| {
      return Bad(Truncated(i)), cursor;
    }
    var epcLen: int := data[cursor];
    cursor := cursor + 1;
    if epcLen <= 0 || cursor + epcLen > |data| {
      return Bad(InvalidEpcLength(i)), cursor;
    }
    var epc := data[cursor..cursor + epcLen];
    cursor := cursor + epcLen;
    if cursor >= |data| {
      return Bad(MissingRssi(i)), cursor;
    }
    var rssi := data[cursor];
    cursor := cursor + 1;
    return Got(Reading(epc, rssi), data[cursor..]), cursor;
  }

  method ParseInventoryG2Tags(frame: Frame) returns (parse: Parse)
    ensures parse == Parsed(frame)
  {
    if frame.command != CMD_INVENTORY {
      return Failed(NotInventoryFrame);
    }
    var data := frame.data;
    if |data| < 2 {
      return Tags([]);
    }
    var tagNum: int := data[1];
    if tagNum <= 0 {
      return Tags([]);
    }
    parse := ParseEntries(data, tagNum, AntennaId(data[0]));
  }

  method ParseEntries(data: seq<Byte>, tagNum: nat, antenna: int) returns (parse: Parse)
    requires 2 <= |data|
    ensures parse == Outcome(antenna, ReadEntries(ReadEntry, data[2..], 0, tagNum))
  {
    var cursor := 2;
    var tags: seq<Tag> := [];
    ghost var readings: seq<Reading> := [];
    for i := 0 to tagNum
      invariant 2 <= cursor <= |data|
      invariant tags == TagsOf(antenna, readings)
      invariant ReadEntries(ReadEntry, data[2..], 0, tagNum)
             == After(readings, ReadEntries(ReadEntry, data[cursor..], i, tagNum))
    {
      var entry, next := ParseEntry(data, cursor, i);
      if entry.Bad? {
        return Failed(entry.error);
      }
      AfterOne(readings, entry.reading, ReadEntries(ReadEntry, data[next..], i + 1, tagNum));
      TagsOfOneMore(antenna, readings, entry.reading);
      readings := readings + [entry.reading];
      tags := tags + [TagOf(antenna, entry.reading)];
      cursor := next;
    }
    return Tags(tags);
  }

  lemma TagsOfOneMore(antenna: int, readings: seq<Reading>, reading: Reading)
    ensures TagsOf(antenna, readings + [reading]) == TagsOf(antenna, readings) + [TagOf(antenna, reading)]
  {}

  lemma AfterOne(readings: seq<Reading>, reading: Reading, later: Progress)
    ensures After(readings, After([reading], later)) == After(readings + [reading], later)
  {
    assert readings + ([reading] + later.readings) == (readings + [reading]) + later.readings;
  }

  // ----- Round trips -----

  lemma ReadOneEntry(reading: Reading, more: seq<Byte>, i: nat)
    ensures ReadEntry(Entry(reading) + more, i) == Got(reading, more)
  {
    var len := |reading.epc|;
    var rest := Entry(reading) + more;
    assert rest[1..1 + len] == reading.epc;
    assert rest[len + 2..] == more;
  }

  /** Entries that are there are read, whatever follows them. */
  lemma {:induction false} ReadWhatIsThere(
      read: Reader, readings: seq<Reading>, more: seq<Byte>, i: nat, k: nat, n: nat)
    requires forall r: Reading, m, j :: read(Entry(r) + m, j) == Got(r, m)
    requires k == i + |readings| && k <= n
    ensures ReadEntries(read, Entries(readings) + more, i, n) == After(readings, ReadEntries(read, more, k, n))
  {
    if readings == [] {
      assert Entries(readings) + more == more;
    } else {
      var first, others := readings[0], readings[1..];
      assert Entries(readings) + more == Entry(first) + (Entries(others) + more);
      ReadWhatIsThere(read, others, more, i + 1, k, n);
      AfterFirst(readings, ReadEntries(read, more, k, n));
    }
  }

  lemma AfterFirst(readings: seq<Reading>, later: Progress)
    requires readings != []
    ensures After([readings[0]], After(readings[1..], later)) == After(readings, later)
  {
    assert [readings[0]] + (readings[1..] + later.readings) == readings + later.readings;
  }

  lemma GotIsThere(rest: seq<Byte>, i: nat)
    requires ReadEntry(rest, i).Got?
    ensures rest == Entry(ReadEntry(rest, i).reading) + ReadEntry(rest, i).more
  {}

  /** What was read is really there, in order, and reading stopped early only at a bad entry. */
  lemma {:induction false} ReadIsThere(read: Reader, rest: seq<Byte>, i: nat, n: nat)
    requires forall b, j | read(b, j).Got? :: b == Entry(read(b, j).reading) + read(b, j).more
    requires i <= n
    ensures var p := ReadEntries(read, rest, i, n);
            && rest == Entries(p.readings) + p.more
            && p.at == i + |p.readings| <= n
            && (p.stopped == [] <==> p.at == n)
            && (p.stopped != [] ==> |p.stopped| == 1 && read(p.more, p.at) == Bad(p.stopped[0]))
    decreases n - i
  {
    if i < n && read(rest, i).Got? {
      var Got(reading, more) := read(rest, i);
      ReadIsThere(read, more, i + 1, n);
      EntriesOfFirst(reading, ReadEntries(read, more, i + 1, n).readings);
    }
  }

  lemma EntriesOfFirst(first: Reading, others: seq<Reading>)
    ensures Entries([first] + others) == Entry(first) + Entries(others)
  {
    assert ([first] + others)[1..] == others;
  }

  lemma ReaderIsExact()
    ensures forall r: Reading, m, j :: ReadEntry(Entry(r) + m, j) == Got(r, m)
    ensures forall b, j | ReadEntry(b, j).Got? :: b == Entry(ReadEntry(b, j).reading) + ReadEntry(b, j).more
  {
    forall r: Reading, m, j ensures ReadEntry(Entry(r) + m, j) == Got(r, m) {
      ReadOneEntry(r, m, j);
    }
    forall b, j | ReadEntry(b, j).Got?
      ensures b == Entry(ReadEntry(b, j).reading) + ReadEntry(b, j).more
    {
      GotIsThere(b, j);
    }
  }

  /** Whether the first k entries of an inventory answer are all there. */
  ghost predicate Complete(frame: Frame, readings: seq<Reading>)
    requires |frame.data| >= 2
  {
    Entries(readings) <= frame.data[2..]
  }

  /** Parsing the payload of any readings, whatever follows it, gives back those readings. */
  lemma PayloadParses(frame: Frame, mask: Byte, readings: seq<Reading>, trailing: seq<Byte>)
    requires frame.command == CMD_INVENTORY && |readings| <= 255
    requires frame.data == Payload(mask, readings) + trailing
    ensures Parsed(frame) == Tags(TagsOf(AntennaId(mask), readings))
    ensures |Parsed(frame).tags| == |readings|
    ensures forall i | 0 <= i < |readings| ::
              Parsed(frame).tags[i] == Tag(AntennaId(mask), readings[i].epc, readings[i].rssi)
  {
    ReaderIsExact();
    var n := |readings|;
    assert frame.data[2..] == Entries(readings) + trailing;
    assert frame.data[0] == mask && frame.data[1] == n;
    ReadWhatIsThere(ReadEntry, readings, trailing, 0, n, n);
    assert readings + [] == readings;
  }

  /** A payload with one tag, byte by byte. */
  lemma LoneTagParses(frame: Frame, mask: Byte, epc: seq<Byte>, rssi: Byte, trailing: seq<Byte>)
    requires frame.command == 0x01 && 1 <= |epc| <= 255
    requires frame.data == [mask, 1, |epc|] + epc + [rssi] + trailing
    ensures Parsed(frame) == Tags([Tag(AntennaId(mask), epc, rssi)])
  {
    var reading := Reading(epc, rssi);
    assert Entries([reading]) == Entry(reading) + Entries([reading][1..]);
    assert frame.data == Payload(mask, [reading]) + trailing;
    PayloadParses(frame, mask, [reading], trailing);
  }

  /** Without an announced tag there is none, and only an inventory answer has any. */
  lemma NoTagIsAnnounced(frame: Frame)
    ensures frame.command != 0x01 <==> Parsed(frame) == Failed(NotInventoryFrame)
    ensures frame.command == 0x01 && (|frame.data| < 2 || frame.data[1] == 0) <==> Parsed(frame) == Tags([])
  {
    if |frame.data| >= 2 {
      ReaderIsExact();
      ReadIsThere(ReadEntry, frame.data[2..], 0, frame.data[1]);
    }
    ErrorsAreOfEntries(frame);
  }

  lemma ErrorsAreOfEntries(frame: Frame)
    ensures frame.command == CMD_INVENTORY && Parsed(frame).Failed? ==> Parsed(frame).error != NotInventoryFrame
  {
    if frame.command == CMD_INVENTORY && |frame.data| >= 2 {
      FailsWithMissingRssiIff(frame);
    }
  }

  /** Whatever parses is the payload of exactly the announced number of readings. */
  lemma ParsedReencodes(frame: Frame) returns (readings: seq<Reading>)
    requires |frame.data| >= 2 && Parsed(frame).Tags?
    ensures |readings| == frame.data[1]
    ensures Parsed(frame).tags == TagsOf(AntennaId(frame.data[0]), readings)
    ensures Payload(frame.data[0], readings) <= frame.data
  {
    ReaderIsExact();
    ReadIsThere(ReadEntry, frame.data[2..], 0, frame.data[1]);
    readings := ReadEntries(ReadEntry, frame.data[2..], 0, frame.data[1]).readings;
    assert frame.data == frame.data[..2] + frame.data[2..];
  }

  predicate FailsAt(parse: Parse, t: nat) {
    parse.Failed? && parse.error != NotInventoryFrame && parse.error.tag == t
  }

  ghost predicate HasEntries(frame: Frame, t: nat)
    requires |frame.data| >= 2
  {
    exists readings :: |readings| == t && Complete(frame, readings)
  }

  function ProgressOn(frame: Frame): Progress
    requires |frame.data| >= 2
  {
    ReadEntries(ReadEntry, frame.data[2..], 0, frame.data[1])
  }

  lemma FailureShape(frame: Frame, t: nat)
    requires frame.command == CMD_INVENTORY && |frame.data| >= 2
    ensures FailsAt(Parsed(frame), t) <==> t == ProgressOn(frame).at < frame.data[1]
  {
    ReaderIsExact();
    ReadIsThere(ReadEntry, frame.data[2..], 0, frame.data[1]);
  }

  lemma HasEntriesIff(frame: Frame, t: nat)
    requires |frame.data| >= 2 && t <= frame.data[1]
    ensures HasEntries(frame, t) <==> t <= ProgressOn(frame).at
  {
    ReaderIsExact();
    ReadIsThere(ReadEntry, frame.data[2..], 0, frame.data[1]);
    var read := ProgressOn(frame).readings;
    if t <= |read| {
      EntriesOfPrefix(read, t);
      assert |read[..t]| == t && Complete(frame, read[..t]);
    }
    if HasEntries(frame, t) {
      var readings :| |readings| == t && Complete(frame, readings);
      CompleteIsRead(frame, readings);
    }
  }

  /** Parsing fails at tag t exactly when t of the announced entries are there and t + 1 are not. */
  lemma FailsAtFirstMissing(frame: Frame, t: nat)
    requires frame.command == CMD_INVENTORY && |frame.data| >= 2
    ensures FailsAt(Parsed(frame), t) <==>
            t < frame.data[1] && HasEntries(frame, t) && !HasEntries(frame, t + 1)
  {
    FailureShape(frame, t);
    if t < frame.data[1] {
      HasEntriesIff(frame, t);
      HasEntriesIff(frame, t + 1);
    }
  }

  lemma CompleteIsRead(frame: Frame, readings: seq<Reading>)
    requires |frame.data| >= 2 && |readings| <= frame.data[1] && Complete(frame, readings)
    ensures |readings| <= |ReadEntries(ReadEntry, frame.data[2..], 0, frame.data[1]).readings|
  {
    ReaderIsExact();
    var rest := frame.data[2..];
    var more := rest[|Entries(readings)|..];
    assert rest == Entries(readings) + more;
    ReadWhatIsThere(ReadEntry, readings, more, 0, |readings|, frame.data[1]);
  }

  lemma {:induction false} EntriesOfPrefix(readings: seq<Reading>, k: nat)
    requires k <= |readings|
    ensures Entries(readings[..k]) <= Entries(readings)
  {
    if k > 0 {
      EntriesOfPrefix(readings[1..], k - 1);
      assert readings[1..][..k - 1] == readings[..k][1..];
    }
  }

  // ----- The error that is not passed on -----

  /** Only the signal strength of the next tag is missing at the end. */
  ghost predicate EndsAfterEpc(frame: Frame, readings: seq<Reading>, epc: seq<Byte>)
    requires |frame.data| >= 2
  {
    && |readings| < frame.data[1] && 1 <= |epc| <= 255
    && frame.data[2..] == Entries(readings) + ([|epc|] + epc)
  }

  lemma MissingRssiShape(rest: seq<Byte>, i: nat)
    ensures ReadEntry(rest, i) == Bad(MissingRssi(i))
            <==> rest != [] && rest[0] != 0 && rest == [rest[0]] + rest[1..] && |rest[1..]| == rest[0] as int
  {}

  lemma ReadUpTo(frame: Frame, readings: seq<Reading>, more: seq<Byte>)
    requires |frame.data| >= 2 && |readings| < frame.data[1]
    requires frame.data[2..] == Entries(readings) + more && ReadEntry(more, |readings|).Bad?
    ensures ProgressOn(frame) == Progress(readings, more, |readings|, [ReadEntry(more, |readings|).error])
  {
    ReaderIsExact();
    ReadWhatIsThere(ReadEntry, readings, more, 0, |readings|, frame.data[1]);
    assert readings + [] == readings;
  }

  /** For one: an answer that announces a single tag and ends behind its EPC. */
  lemma LoneTagWithoutRssiFails(frame: Frame, mask: Byte, epc: seq<Byte>)
    requires frame.command == CMD_INVENTORY && 1 <= |epc| <= 255 && frame.data == [mask, 1, |epc|] + epc
    ensures EndsAfterEpc(frame, [], epc) && Parsed(frame) == Failed(MissingRssi(0))
  {
    var rest := [|epc|] + epc;
    assert frame.data[2..] == rest && rest[1..] == epc;
    assert Entries([]) + rest == frame.data[2..];
    MissingRssiShape(rest, 0);
    ReadUpTo(frame, [], rest);
    assert ProgressOn(frame).stopped == [MissingRssi(0)];
  }

  /** Parsing fails for want of a signal strength exactly when the payload ends behind the EPC of one of
      the announced tags. */
  lemma FailsWithMissingRssiIff(frame: Frame)
    requires frame.command == CMD_INVENTORY && |frame.data| >= 2
    ensures Parsed(frame).Failed? && Parsed(frame).error.MissingRssi?
            <==> exists readings, epc :: EndsAfterEpc(frame, readings, epc)
    ensures Parsed(frame).Failed? ==> Parsed(frame).error != NotInventoryFrame
  {
    var p := ProgressOn(frame);
    ReaderIsExact();
    ReadIsThere(ReadEntry, frame.data[2..], 0, frame.data[1]);
    assert p.stopped != [] ==> ReadEntry(p.more, p.at).Bad? && ReadEntry(p.more, p.at).error != NotInventoryFrame;
    if Parsed(frame).Failed? && Parsed(frame).error.MissingRssi? {
      MissingRssiShape(p.more, p.at);
      assert EndsAfterEpc(frame, p.readings, p.more[1..]);
    }
    if readings, epc :| EndsAfterEpc(frame, readings, epc) {
      var more := [|epc|] + epc;
      assert more[1..] == epc;
      MissingRssiShape(more, |readings|);
      ReadUpTo(frame, readings, more);
    }
  }
}
