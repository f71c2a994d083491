/**
 The test mode: a list of expected EPCs is loaded from a file, and reads are
 checked off against it until the test is stopped.
 */
module TestSession {
  import opened Dedup
  import opened Epcs
  import opened EpcLists
  import opened Effects

  // ----- The file -----

  datatype LoadStats = LoadStats(
    fileName: string, totalLines: nat, validLines: nat, uniqueEPCs: nat, duplicateLines: nat, invalidLines: nat,
    sessionID: nat)

  function WithoutMark(line: string): string {
    if line != "" && line[0] == '\U{FEFF}' then line[1..] else line
  }

  function Unmarked(lines: seq<string>): seq<string> {
    if lines == [] then [] else [WithoutMark(lines[0])] + lines[1..]
  }

  predicate IsEntry(line: string) {
    line != "" && line[0] != '#'
  }

  /** The lines that count: neither blank nor a comment, once a byte order mark is taken off the first. */
  function Entries(lines: seq<string>): seq<string> {
    Filter(IsEntry, Unmarked(lines))
  }

  datatype Tally = Tally(out: seq<Epc>, total: nat, valid: nat)

  /** What one line adds to the tally of those before it. */
  function Tallied(t: Tally, raw: string, epc: Epc): Tally {
    if !IsEntry(raw) then t
    else if epc == "" then t.(total := t.total + 1)
    else Tally(WithNew(t.out, epc), t.total + 1, t.valid + 1)
  }

  function TallyUpTo(lines: seq<string>, i: nat): (t: Tally)
    requires i <= |lines|
    ensures |t.out| <= t.valid <= t.total
  {
    if i == 0 then
      Tally([], 0, 0)
    else
      var raw := if i == 1 then WithoutMark(lines[0]) else lines[i - 1];
      Tallied(TallyUpTo(lines, i - 1), raw, Normalize(raw))
  }

  function Parsed(lines: seq<string>): (t: Tally)
    ensures |t.out| <= t.valid <= t.total
  {
    TallyUpTo(lines, |lines|)
  }

  /** The entries, those of them that have an EPC, and their distinct EPCs. */
  function TallyOf(entries: seq<string>): Tally {
    Tally(Cleaned(entries), |entries|, |Filter(Usable, Map(Normalize, entries))|)
  }

  lemma TallyOfOneMore(entries: seq<string>, raw: string)
    ensures Tallied(TallyOf(entries), raw, Normalize(raw)) == TallyOf(if IsEntry(raw) then entries + [raw] else entries)
  {
    CleanedOneMore(entries, raw);
  }

  /** What agrees with the tally of no lines and of one more line agrees with that of all lines. */
  lemma {:induction false} TallyIsWhole(lines: seq<string>, i: nat, whole: seq<string> -> Tally)
    requires i <= |lines| && whole([]) == Tally([], 0, 0)
    requires forall entries, raw ::
               Tallied(whole(entries), raw, Normalize(raw)) == whole(if IsEntry(raw) then entries + [raw] else entries)
    ensures TallyUpTo(lines, i) == whole(Filter(IsEntry, Unmarked(lines)[..i]))
  {
    if i > 0 {
      TallyIsWhole(lines, i - 1, whole);
      FilterLast(IsEntry, Unmarked(lines), i - 1);
      var entries := Filter(IsEntry, Unmarked(lines)[..i - 1]);
      assert entries + [] == entries;
    }
  }

  /** The parse counts every entry, counts as valid those with an EPC, and keeps each EPC once, in the
      order of first occurrence. */
  lemma ParsedIsExact(lines: seq<string>)
    ensures Parsed(lines) == TallyOf(Entries(lines))
  {
    forall entries, raw
      ensures Tallied(TallyOf(entries), raw, Normalize(raw))
           == TallyOf(if IsEntry(raw) then entries + [raw] else entries)
    {
      TallyOfOneMore(entries, raw);
    }
    TallyIsWhole(lines, |lines|, TallyOf);
    assert Unmarked(lines)[..|lines|] == Unmarked(lines);
  }

  lemma FilterSkips(front: seq<string>, line: string, back: seq<string>)
    requires !IsEntry(line)
    ensures Filter(IsEntry, front + ([line] + back)) == Filter(IsEntry, front + back)
  {
    FilterConcat(IsEntry, front, [line] + back);
    FilterConcat(IsEntry, [line], back);
    FilterConcat(IsEntry, front, back);
    assert [line][..0] == [];
    assert Filter(IsEntry, [line]) == Filter(IsEntry, [line][..0]) + [];
  }

  lemma EntriesSkip(a: seq<string>, line: string, b: seq<string>)
    requires line == "" || line[0] == '#'
    requires a == [] && b != [] && b[0] != "" ==> b[0][0] != '\U{FEFF}'
    ensures Entries(a + ([line] + b)) == Entries(a + b)
  {
    if a == [] {
      assert a + ([line] + b) == [line] + b && a + b == b;
      assert Unmarked([line] + b) == [line] + b;
      assert Unmarked(b) == b;
      FilterSkips([], line, b);
      assert [] + b == b && [] + ([line] + b) == [line] + b;
    } else {
      var front := [WithoutMark(a[0])] + a[1..];
      assert Unmarked(a + ([line] + b)) == front + ([line] + b);
      assert Unmarked(a + b) == front + b;
      FilterSkips(front, line, b);
    }
  }

  /** A blank line or a comment changes nothing, wherever it stands; in front of everything else, provided
      that no byte order mark follows, which is one only on the first line. */
  lemma CommentsDoNotCount(a: seq<string>, line: string, b: seq<string>)
    requires line == "" || line[0] == '#'
    requires a == [] && b != [] && b[0] != "" ==> b[0][0] != '\U{FEFF}'
    ensures Parsed(a + ([line] + b)) == Parsed(a + b)
  {
    ParsedIsExact(a + ([line] + b));
    ParsedIsExact(a + b);
    EntriesSkip(a, line, b);
  }

  /** Neither does a byte order mark in front of the file. */
  lemma MarkDoesNotCount(line: string, rest: seq<string>)
    requires line != "" ==> line[0] != '\U{FEFF}'
    ensures Parsed([['\U{FEFF}'] + line] + rest) == Parsed([line] + rest)
  {
    ParsedIsExact([['\U{FEFF}'] + line] + rest);
    ParsedIsExact([line] + rest);
    assert Unmarked([['\U{FEFF}'] + line] + rest) == [line] + rest;
    assert Unmarked([line] + rest) == [line] + rest;
  }

  /** Any other line counts: as valid if it has a hexadecimal digit, and its EPC is kept if it is new. */
  lemma EntriesCount(lines: seq<string>, line: string)
    requires line != "" && line[0] != '#' && (lines == [] ==> line[0] != '\U{FEFF}')
    ensures var before, after, epc := Parsed(lines), Parsed(lines + [line]), Normalize(line);
            && after.total == before.total + 1
            && after.valid == before.valid + (if epc != "" then 1 else 0)
            && after.out == before.out + (if epc != "" && epc !in before.out then [epc] else [])
  {
    TallyOfPrefix(lines, line, |lines|);
  }

  lemma {:induction false} TallyOfPrefix(lines: seq<string>, line: string, i: nat)
    requires i <= |lines|
    ensures TallyUpTo(lines + [line], i) == TallyUpTo(lines, i)
  {
    if i > 0 {
      TallyOfPrefix(lines, line, i - 1);
    }
  }

  lemma ParsedIsClean(lines: seq<string>)
    ensures Distinct(Parsed(lines).out)
    ensures forall e | e in Parsed(lines).out :: e != "" && Canonical(e)
  {
    ParsedIsExact(lines);
    CleanedIsCanonical(Entries(lines));
  }

  function Counts(t: Tally, fileName: string, id: nat): LoadStats
    requires |t.out| <= t.valid <= t.total
  {
    LoadStats(fileName, t.total, t.valid, |t.out|, t.valid - |t.out|, t.total - t.valid, id)
  }

  /** Lines are given without surrounding white space. */
  method ParseEPCFile(lines: seq<string>) returns (out: seq<Epc>, stats: LoadStats)
    ensures out == Parsed(lines).out && stats == Counts(Parsed(lines), "", 0)
  {
    var total, valid, duplicate, invalid;
    out, total, valid, duplicate, invalid := TallyLines(lines);
    stats := LoadStats("", total, valid, |out|, duplicate, invalid, 0);
  }

  method TallyLines(lines: seq<string>)
    returns (out: seq<Epc>, total: nat, valid: nat, duplicate: nat, invalid: nat)
    ensures Tally(out, total, valid) == TallyUpTo(lines, |lines|)
    ensures total == valid + invalid && valid == |out| + duplicate
  {
    out, total, valid, duplicate, invalid := [], 0, 0, 0, 0;
    var unique: set<Epc> := {};
    for lineNo := 0 to |lines|
      invariant Tally(out, total, valid) == TallyUpTo(lines, lineNo)
      invariant forall e :: e in unique <==> e in out
      invariant total == valid + invalid && valid == |out| + duplicate
    {
      var raw := lines[lineNo];
      if lineNo == 0 {
        raw := WithoutMark(raw);
      }
      var epc := NormalizeEPC(raw);
      assert TallyUpTo(lines, lineNo + 1) == Tallied(Tally(out, total, valid), raw, epc);
      if raw == "" || raw[0] == '#' {
        continue;
      }
      total := total + 1;
      if epc == "" {
        invalid := invalid + 1;
        continue;
      }
      valid := valid + 1;
      if epc in unique {
        duplicate := duplicate + 1;
        continue;
      }
      unique := unique + {epc};
      out := out + [epc];
    }
  }

  // ----- The state and what a call does to it -----

  datatype Session = Session(
    awaitingFile: bool, owner: int, active: bool, id: nat, fileName: string, expected: set<Epc>, read: set<Epc>)

  datatype Reason = NoActiveTest | NotTheOwner

  datatype Answer =
    | Requested
    | Loaded(stats: LoadStats)
    | NoValidEPC(stats: LoadStats)
    | NotMatched
    | Matched(newlyRead: bool, epc: Epc, chat: int, readCount: nat, total: nat, session: nat)
    | Stopped(session: nat, fileName: string, total: nat, read: nat, unread: int, chat: int)
    | NotStopped(reason: Reason)

  type Outcome = Effect<Session, Answer>

  datatype Call =
    | RequestFile(chat: int)
    | LoadFile(chat: int, fileName: string, lines: seq<string>)
    | RecordRead(raw: string)
    | Stop(chat: int)

  const NEW := Session(false, 0, false, 0, "", {}, {})

  function Loads(s: Session, chat: int, fileName: string, t: Tally): Outcome
    requires |t.out| <= t.valid <= t.total
  {
    if t.out == [] then
      Effect(s, [NoValidEPC(Counts(t, fileName, 0))])
    else
      Effect(Session(false, chat, true, s.id + 1, fileName, Elements(t.out), {}),
             [Loaded(Counts(t, fileName, s.id + 1))])
  }

  function Reads(s: Session, epc: Epc): Outcome {
    if epc == "" || !s.active || epc !in s.expected then
      Effect(s, [NotMatched])
    else
      Effect(s.(read := s.read + {epc}),
             [Matched(epc !in s.read, epc, s.owner, |s.read + {epc}|, |s.expected|, s.id)])
  }

  predicate MayStop(s: Session, chat: int) {
    s.active && (s.owner == 0 || chat == s.owner)
  }

  function Stops(s: Session, chat: int): Outcome {
    if MayStop(s, chat) then
      Effect(Session(false, s.owner, false, s.id, "", {}, {}),
             [Stopped(s.id, s.fileName, |s.expected|, |s.read|, |s.expected| - |s.read|, s.owner)])
    else
      Effect(s, [NotStopped(if s.active then NotTheOwner else NoActiveTest)])
  }

  function Answers(s: Session, call: Call): Outcome {
    match call
    case RequestFile(chat) => Effect(Session(true, chat, false, s.id, "", {}, {}), [Requested])
    case LoadFile(chat, fileName, lines) => Loads(s, chat, fileName, Parsed(lines))
    case RecordRead(raw) => Reads(s, Normalize(raw))
    case Stop(chat) => Stops(s, chat)
  }

  predicate Awaits(s: Session, chat: int) {
    s.awaitingFile && (s.owner == 0 || s.owner == chat)
  }

  predicate IsActive(s: Session, id: nat) {
    s.active && s.id == id
  }

  class Manager {
    var awaitingFile: bool
    var ownerChatID: int
    var active: bool
    var sessionID: nat
    var fileName: string
    var expected: set<Epc>
    var read: set<Epc>

    function View(): Session
      reads this
    {
      Session(awaitingFile, ownerChatID, active, sessionID, fileName, expected, read)
    }

    constructor ()
      ensures View() == NEW
    {
      awaitingFile, ownerChatID, active, sessionID, fileName := false, 0, false, 0, "";
      expected, read := {}, {};
    }

    method RequestFile(chatID: int)
      modifies this
      ensures Effect(View(), [Requested]) == Answers(old(View()), Call.RequestFile(chatID))
    {
      awaitingFile, ownerChatID, active, fileName := true, chatID, false, "";
      expected, read := {}, {};
    }

    predicate IsAwaitingFile(chatID: int)
      reads this
    {
      Awaits(View(), chatID)
    }

    /** The EPCs are normalized once by the parser and once more here, which changes none of them. */
    method LoadFile(chatID: int, fileName: string, lines: seq<string>) returns (answer: Answer)
      modifies this
      ensures Effect(View(), [answer]) == Answers(old(View()), Call.LoadFile(chatID, fileName, lines))
    {
      var epcs, stats := ParseEPCFile(lines);
      stats := stats.(fileName := fileName);
      if stats.uniqueEPCs == 0 {
        return NoValidEPC(stats);
      }
      ParsedIsClean(lines);
      var next := Expect(epcs);
      assert epcs[0] in next;
      if next == {} {
        assert false;
      }
      Open(chatID, fileName, next);
      return Loaded(stats.(sessionID := sessionID));
    }

    /** The section of LoadFile under the mutex. */
    method Open(chatID: int, fileName: string, next: set<Epc>)
      modifies this
      ensures View() == Session(false, chatID, true, old(sessionID) + 1, fileName, next, {})
    {
      expected, read, active, awaitingFile := next, {}, true, false;
      ownerChatID, this.fileName, sessionID := chatID, fileName, sessionID + 1;
    }

    method Expect(epcs: seq<Epc>) returns (next: set<Epc>)
      ensures next == NonEmpty(Map(Normalize, epcs))
      ensures (forall e | e in epcs :: e != "" && Canonical(e)) ==> next == Elements(epcs)
    {
      next := {};
      for i := 0 to |epcs|
        invariant next == NonEmpty(Map(Normalize, epcs[..i]))
      {
        assert Map(Normalize, epcs[..i + 1]) == Map(Normalize, epcs[..i]) + [Normalize(epcs[i])];
        var normalized := NormalizeEPC(epcs[i]);
        if normalized == "" {
          continue;
        }
        next := next + {normalized};
      }
      assert epcs[..|epcs|] == epcs;
      NormalizingCanonical(epcs);
    }

    method RecordRead(epc: string) returns (answer: Answer)
      modifies this
      ensures Effect(View(), [answer]) == Answers(old(View()), Call.RecordRead(epc))
    {
      var normalized := NormalizeEPC(epc);
      if normalized == "" || !active || expected == {} || normalized !in expected {
        return NotMatched;
      }
      if normalized in read {
        assert read + {normalized} == read;
        return Matched(false, normalized, ownerChatID, |read|, |expected|, sessionID);
      }
      read := read + {normalized};
      return Matched(true, normalized, ownerChatID, |read|, |expected|, sessionID);
    }

    method Stop(chatID: int) returns (answer: Answer)
      modifies this
      ensures Effect(View(), [answer]) == Answers(old(View()), Call.Stop(chatID))
    {
      if !active {
        return NotStopped(NoActiveTest);
      }
      if ownerChatID != 0 && chatID != ownerChatID {
        return NotStopped(NotTheOwner);
      }
      answer := Stopped(sessionID, fileName, |expected|, |read|, |expected| - |read|, ownerChatID);
      active, awaitingFile, fileName := false, false, "";
      expected, read := {}, {};
    }

    predicate IsSessionActive(sessionID: nat)
      reads this
    {
      IsActive(View(), sessionID)
    }
  }

  lemma NormalizingCanonical(epcs: seq<Epc>)
    ensures (forall e | e in epcs :: e != "" && Canonical(e)) ==> NonEmpty(Map(Normalize, epcs)) == Elements(epcs)
  {
    if forall e | e in epcs :: e != "" && Canonical(e) {
      forall i | 0 <= i < |epcs| ensures Map(Normalize, epcs)[i] == epcs[i] {
        assert epcs[i] in epcs;
        CanonicalIsNormal(epcs[i]);
      }
      assert Map(Normalize, epcs) == epcs;
    }
  }
}
