/**
 What holds over whole inventory runs: packet boundaries do not matter, unique
 tags are counted exactly, the target switches on schedule, and the antennas
 take fair turns.
 */
module InventoryRuns {
  import opened Bytes
  import opened Scanner
  import opened Reader18
  import opened InventoryTags
  import opened Antennas
  import opened Dedup
  import opened Effects
  import opened Inventory
  import opened Modular

  // ----- Packet boundaries do not matter -----

  /** The largest packet the transport's read buffer can deliver. */
  const READ_BUFFER: nat := 4096

  function Consuming(cfg: Config): Step<Intake, seq<Byte>, Event> {
    (intake: Intake, data: seq<Byte>) => Consume(cfg, intake, data)
  }

  /** Consuming a byte string at once, with no limit on the buffer. */
  function ConsumeWhole(cfg: Config, intake: Intake, bytes: seq<Byte>): Effect<Intake, Event> {
    var all := intake.buffer + bytes;
    var outcome := RunAll(Answers(cfg), intake.run, Frames(Verified, all));
    Effect(Intake(Cut(Verified, all).rest, outcome.state), outcome.events)
  }

  /** The truncation branch is taken exactly when the leftover and the packet exceed the limit. */
  lemma TruncatesIff(buffer: seq<Byte>, data: seq<Byte>)
    ensures Joined(buffer, data) == buffer + data <==> |buffer| + |data| <= BUFFER_LIMIT
  {}

  /** What is left of more than 8192 bytes is their last 4096. */
  lemma TruncationKeepsTheEnd(buffer: seq<Byte>, data: seq<Byte>)
    requires |buffer| + |data| > 8192
    ensures |Joined(buffer, data)| == 4096
    ensures exists dropped :: dropped + Joined(buffer, data) == buffer + data
  {
    var all := buffer + data;
    assert all[..|all| - 4096] + Joined(buffer, data) == all;
  }

  lemma WholeThenMore(cfg: Config, intake: Intake, a: seq<Byte>, b: seq<Byte>)
    ensures var first := ConsumeWhole(cfg, intake, a);
            var second := ConsumeWhole(cfg, first.state, b);
            ConsumeWhole(cfg, intake, a + b) == Effect(second.state, first.events + second.events)
  {
    var all := intake.buffer + a;
    assert intake.buffer + (a + b) == all + b;
    FramesOfStream(Verified, all, b);
    RunConcat(Answers(cfg), intake.run, Frames(Verified, all), Frames(Verified, Cut(Verified, all).rest + b));
  }

  lemma {:induction false} ConcatLast(chunks: seq<seq<Byte>>, last: seq<Byte>)
    ensures Concat(chunks + [last]) == Concat(chunks) + last
  {
    if chunks == [] {
      assert Concat([last]) == last + Concat([last][1..]);
    } else {
      assert (chunks + [last])[1..] == chunks[1..] + [last];
      ConcatLast(chunks[1..], last);
    }
  }

  /** From a leftover, no packet is large enough to be truncated. */
  lemma ConsumeIsWhole(cfg: Config, intake: Intake, data: seq<Byte>)
    requires Waits(intake.buffer) && |data| <= READ_BUFFER
    ensures Consume(cfg, intake, data) == ConsumeWhole(cfg, intake, data)
  {
    TruncatesIff(intake.buffer, data);
  }

  lemma WholeLeavesLeftover(cfg: Config, intake: Intake, bytes: seq<Byte>)
    ensures Waits(ConsumeWhole(cfg, intake, bytes).state.buffer)
  {
    RestWaits(Verified, intake.buffer + bytes);
  }

  lemma WholeOfNothing(cfg: Config, intake: Intake)
    requires Waits(intake.buffer)
    ensures ConsumeWhole(cfg, intake, []) == Effect(intake, [])
  {
    assert intake.buffer + [] == intake.buffer;
    CutWaits(Verified, intake.buffer);
  }

  lemma ChunkStep(cfg: Config, intake: Intake, bytes: seq<Byte>, data: seq<Byte>)
    requires |data| <= READ_BUFFER
    ensures Then(Consuming(cfg), ConsumeWhole(cfg, intake, bytes), data) == ConsumeWhole(cfg, intake, bytes + data)
  {
    WholeLeavesLeftover(cfg, intake, bytes);
    ConsumeIsWhole(cfg, ConsumeWhole(cfg, intake, bytes).state, data);
    WholeThenMore(cfg, intake, bytes, data);
  }

  function Whole(cfg: Config, intake: Intake): seq<seq<Byte>> -> Effect<Intake, Event> {
    (chunks: seq<seq<Byte>>) => ConsumeWhole(cfg, intake, Concat(chunks))
  }

  predicate Fits(data: seq<Byte>) {
    |data| <= READ_BUFFER
  }

  /** However the bytes are split into packets of at most 4096 bytes, the client ends in the same
      state, with the same leftover, and produces the same events as if they had come at once. */
  lemma ChunksDoNotMatter(cfg: Config, intake: Intake, chunks: seq<seq<Byte>>)
    requires Waits(intake.buffer)
    requires forall c | c in chunks :: Fits(c)
    ensures RunAll(Consuming(cfg), intake, chunks) == ConsumeWhole(cfg, intake, Concat(chunks))
  {
    WholeOfNothing(cfg, intake);
    forall before: seq<seq<Byte>>, data: seq<Byte> | Fits(data)
      ensures Then(Consuming(cfg), Whole(cfg, intake)(before), data) == Whole(cfg, intake)(before + [data])
    {
      ChunkStep(cfg, intake, Concat(before), data);
      ConcatLast(before, data);
    }
    RunIsWhole(Consuming(cfg), intake, Whole(cfg, intake), Fits, chunks);
  }

  // ----- Sections and their interleavings -----

  /** Something to tell that changes nothing. */
  type Notice = e: Event | e.ReaderInfo? || e.CountOnly? || e.BadPayload? witness ReaderInfo

  /** What the two goroutines of the client do under its lock, each a step of its own: the receiver adopts
      an address, records a tag or counts a no-tag answer, the sender begins a round. Between its sections
      the receiver may also have something to report. */
  datatype Section =
    | Adopt(address: Byte)
    | Sight(sighting: Sighting)
    | CountNoTag(status: Byte)
    | Report(notice: Notice)
    | Round

  /** Events are logged with the section that they belong to. */
  function Taking(cfg: Config, on: seq<bool>): Step<Run, Section, Event>
    requires Rotatable(on)
  {
    (run: Run, section: Section) =>
      match section
      case Adopt(address) => Effect(run.(readerAddr := address), [])
      case Sight(sighting) => Record(run, sighting)
      case CountNoTag(status) => NoTag(cfg, run, status)
      case Report(notice) => Effect(run, [notice])
      case Round => Poll(cfg, on, run)
  }

  /** A run from StartInventory with a fixed configuration, in which the sections of the receiver and of
      the sender come in any order: rounds may fall between two tags of one frame. */
  function Interleaved(cfg: Config, on: seq<bool>, readerAddr: Byte, sections: seq<Section>): Outcome
    requires Rotatable(on)
  {
    RunAll(Taking(cfg, on), Started(cfg, readerAddr), sections)
  }

  function SightSections(tags: seq<Tag>): seq<Section> {
    Map((s: Sighting) => Sight(s), Sightings(tags))
  }

  function InventorySections(frame: Frame): seq<Section> {
    match Parsed(frame)
    case Failed(error) => if Inventory.Reported(error) then [Report(BadPayload(error))] else []
    case Tags(tags) =>
      if tags != [] then
        SightSections(tags)
      else if frame.status == STATUS_SUCCESS then
        if frame.data != [] && frame.data[0] > 0 then [Report(CountOnly(frame.data[0]))] else []
      else
        [CountNoTag(frame.status)]
  }

  function SingleSections(frame: Frame): seq<Section> {
    match SingleParsed(frame)
    case Unusable => []
    case Single(antenna, tagCount, epc) =>
      if tagCount > 0 && epc != [] then
        [Sight(Sighting(InventorySingle, Tag(antenna, epc, 0)))]
      else
        [CountNoTag(frame.status)]
  }

  /** The sections in which the receiver consumes a frame. */
  function SectionsOf(cfg: Config, frame: Frame): seq<Section> {
    (if cfg.autoAddress then [Adopt(frame.address)] else [])
    + if frame.command == CMD_INVENTORY then InventorySections(frame)
      else if frame.command == CMD_INVENTORY_SINGLE then SingleSections(frame)
      else if frame.command == CMD_GET_READER_INFO then [Report(ReaderInfo)]
      else []
  }

  function AllSections(cfg: Config, frames: seq<Frame>): seq<Section> {
    if frames == [] then
      []
    else
      AllSections(cfg, frames[..|frames| - 1]) + SectionsOf(cfg, frames[|frames| - 1])
  }

  lemma OneSection(cfg: Config, on: seq<bool>, run: Run, section: Section)
    requires Rotatable(on)
    ensures RunAll(Taking(cfg, on), run, [section]) == Taking(cfg, on)(run, section)
  {
    var step := Taking(cfg, on);
    assert [section][..0] == [];
    assert RunAll(step, run, []) == Effect(run, []);
    assert RunAll(step, run, [section]) == Then(step, Effect(run, []), section);
    assert [] + step(run, section).events == step(run, section).events;
  }

  lemma {:induction false} SightsAreRecorded(cfg: Config, on: seq<bool>, run: Run, sightings: seq<Sighting>)
    requires Rotatable(on)
    ensures RunAll(Taking(cfg, on), run, Map((s: Sighting) => Sight(s), sightings)) == RunAll(Record, run, sightings)
  {
    if sightings != [] {
      var n := |sightings| - 1;
      var all := Map((s: Sighting) => Sight(s), sightings);
      SightsAreRecorded(cfg, on, run, sightings[..n]);
      assert all[..n] == Map((s: Sighting) => Sight(s), sightings[..n]);
    }
  }

  lemma InventoryAnswerIsSections(cfg: Config, on: seq<bool>, run: Run, frame: Frame)
    requires Rotatable(on)
    ensures RunAll(Taking(cfg, on), run, InventorySections(frame)) == InventoryAnswer(cfg, run, frame)
  {
    if Parsed(frame).Tags? && Parsed(frame).tags != [] {
      SightsAreRecorded(cfg, on, run, Sightings(Parsed(frame).tags));
    } else if InventorySections(frame) != [] {
      OneSection(cfg, on, run, InventorySections(frame)[0]);
    }
  }

  lemma SingleAnswerIsSections(cfg: Config, on: seq<bool>, run: Run, frame: Frame)
    requires Rotatable(on)
    ensures RunAll(Taking(cfg, on), run, SingleSections(frame)) == SingleAnswer(cfg, run, frame)
  {
    if SingleSections(frame) != [] {
      OneSection(cfg, on, run, SingleSections(frame)[0]);
    }
  }

  lemma AdoptedFirst(cfg: Config, on: seq<bool>, run: Run, frame: Frame, rest: seq<Section>)
    requires Rotatable(on)
    ensures RunAll(Taking(cfg, on), run, (if cfg.autoAddress then [Adopt(frame.address)] else []) + rest)
            == RunAll(Taking(cfg, on), Addressed(cfg, run, frame), rest)
  {
    if cfg.autoAddress {
      OneSection(cfg, on, run, Adopt(frame.address));
      RunConcat(Taking(cfg, on), run, [Adopt(frame.address)], rest);
      var after := RunAll(Taking(cfg, on), Addressed(cfg, run, frame), rest);
      assert [] + after.events == after.events;
    } else {
      assert [] + rest == rest;
    }
  }

  /** With no round in between, the sections of a frame do what the answer to it does. */
  lemma AnswerIsItsSections(cfg: Config, on: seq<bool>, run: Run, frame: Frame)
    requires Rotatable(on)
    ensures RunAll(Taking(cfg, on), run, SectionsOf(cfg, frame)) == Answer(cfg, run, frame)
  {
    var here := Addressed(cfg, run, frame);
    if frame.command == CMD_INVENTORY {
      AdoptedFirst(cfg, on, run, frame, InventorySections(frame));
      InventoryAnswerIsSections(cfg, on, here, frame);
    } else if frame.command == CMD_INVENTORY_SINGLE {
      AdoptedFirst(cfg, on, run, frame, SingleSections(frame));
      SingleAnswerIsSections(cfg, on, here, frame);
    } else if frame.command == CMD_GET_READER_INFO {
      AdoptedFirst(cfg, on, run, frame, [Report(ReaderInfo)]);
      OneSection(cfg, on, here, Report(ReaderInfo));
    } else {
      AdoptedFirst(cfg, on, run, frame, []);
    }
  }

  lemma {:induction false} AnswersAreSections(cfg: Config, on: seq<bool>, run: Run, frames: seq<Frame>)
    requires Rotatable(on)
    ensures RunAll(Taking(cfg, on), run, AllSections(cfg, frames)) == RunAll(Answers(cfg), run, frames)
  {
    if frames != [] {
      var n := |frames| - 1;
      AnswersAreSections(cfg, on, run, frames[..n]);
      var before := RunAll(Answers(cfg), run, frames[..n]);
      RunConcat(Taking(cfg, on), run, AllSections(cfg, frames[..n]), SectionsOf(cfg, frames[n]));
      AnswerIsItsSections(cfg, on, before.state, frames[n]);
    }
  }

  /** And those of a packet, what consuming it does to the run. */
  lemma PacketIsItsSections(cfg: Config, on: seq<bool>, intake: Intake, data: seq<Byte>)
    requires Rotatable(on)
    ensures var outcome := Consume(cfg, intake, data);
            RunAll(Taking(cfg, on), intake.run, AllSections(cfg, Frames(Verified, Joined(intake.buffer, data))))
            == Effect(outcome.state.run, outcome.events)
  {
    AnswersAreSections(cfg, on, intake.run, Frames(Verified, Joined(intake.buffer, data)));
  }

  type Invariant = (Run, seq<Event>) -> bool

  /** What every section keeps, every interleaving keeps. */
  lemma InterleavingKeeps(cfg: Config, on: seq<bool>, inv: Invariant, readerAddr: Byte, sections: seq<Section>)
    requires Rotatable(on) && Keeps(Taking(cfg, on), inv) && inv(Started(cfg, readerAddr), [])
    ensures var outcome := Interleaved(cfg, on, readerAddr, sections);
            inv(outcome.state, outcome.events)
  {
    RunKeeps(Taking(cfg, on), inv, Started(cfg, readerAddr), [], sections);
    var outcome := Interleaved(cfg, on, readerAddr, sections);
    assert [] + outcome.events == outcome.events;
  }

  // ----- Unique tags -----

  /** The EPCs reported in a log. */
  function Reported(log: seq<Event>): set<seq<Byte>> {
    set e | e in log && e.TagRead? :: e.epc
  }

  /** The EPCs reported as new, in order. */
  function NewEpcs(log: seq<Event>): seq<seq<Byte>> {
    if log == [] then
      []
    else
      var last := log[|log| - 1];
      NewEpcs(log[..|log| - 1]) + if last.TagRead? && last.isNew then [last.epc] else []
  }

  /** A tag event is new exactly when its EPC was not reported before, and says how many distinct EPCs
      there are by then. */
  ghost predicate NumberedAt(log: seq<Event>, i: nat)
    requires i < |log|
  {
    log[i].TagRead? ==>
      && (log[i].isNew <==> log[i].epc !in Reported(log[..i]))
      && log[i].uniqueTags == |NewEpcs(log[..i + 1])|
  }

  ghost predicate Numbered(log: seq<Event>) {
    forall i | 0 <= i < |log| :: NumberedAt(log, i)
  }

  ghost predicate Counted(run: Run, log: seq<Event>) {
    && run.seen == Reported(log)
    && run.uniqueTags == |run.seen| == |NewEpcs(log)|
    && (forall e :: e in NewEpcs(log) <==> e in Reported(log))
    && Distinct(NewEpcs(log))
    && Numbered(log)
  }

  lemma LogGrows(log: seq<Event>, e: Event)
    ensures NewEpcs(log + [e]) == NewEpcs(log) + if e.TagRead? && e.isNew then [e.epc] else []
    ensures Reported(log + [e]) == Reported(log) + if e.TagRead? then {e.epc} else {}
  {
    assert (log + [e])[..|log|] == log;
  }

  lemma NumberedAtStays(log: seq<Event>, e: Event, i: nat)
    requires i < |log|
    ensures NumberedAt(log + [e], i) <==> NumberedAt(log, i)
  {
    assert (log + [e])[..i] == log[..i] && (log + [e])[..i + 1] == log[..i + 1];
  }

  lemma NumberedGrows(log: seq<Event>, e: Event)
    requires Numbered(log)
    requires e.TagRead? ==> (e.isNew <==> e.epc !in Reported(log)) && e.uniqueTags == |NewEpcs(log + [e])|
    ensures Numbered(log + [e])
  {
    var longer := log + [e];
    forall i | 0 <= i < |longer| ensures NumberedAt(longer, i) {
      if i < |log| {
        NumberedAtStays(log, e, i);
      } else {
        assert longer[..i] == log && longer[..i + 1] == longer;
      }
    }
  }

  lemma AnotherEpc(epcs: seq<seq<Byte>>, all: set<seq<Byte>>, epc: seq<Byte>)
    requires Distinct(epcs) && |epcs| == |all| && forall e :: e in epcs <==> e in all
    ensures epc in all ==> all + {epc} == all
    ensures epc !in all ==>
              && Distinct(epcs + [epc]) && |epcs + [epc]| == |all + {epc}|
              && forall e :: e in epcs + [epc] <==> e in all + {epc}
  {}

  lemma FirstSighting(run: Run, log: seq<Event>, e: Event)
    requires Counted(run, log) && e.TagRead? && e.isNew && e.epc !in run.seen && e.uniqueTags == run.uniqueTags + 1
    ensures Counted(run.(seen := run.seen + {e.epc}, uniqueTags := run.uniqueTags + 1), log + [e])
  {
    LogGrows(log, e);
    AnotherEpc(NewEpcs(log), run.seen, e.epc);
    NumberedGrows(log, e);
  }

  lemma AnotherSighting(run: Run, log: seq<Event>, e: Event)
    requires Counted(run, log) && e.TagRead? && !e.isNew && e.epc in run.seen && e.uniqueTags == run.uniqueTags
    ensures Counted(run.(seen := run.seen + {e.epc}), log + [e])
  {
    LogGrows(log, e);
    AnotherEpc(NewEpcs(log), run.seen, e.epc);
    assert NewEpcs(log) + [] == NewEpcs(log);
    NumberedGrows(log, e);
  }

  lemma RecordKeepsCounted(run: Run, log: seq<Event>, s: Sighting)
    requires Counted(run, log)
    ensures Counted(Record(run, s).state, log + Record(run, s).events)
  {
    if s.tag.epc == [] {
      assert log + [] == log;
    } else if s.tag.epc in run.seen {
      AnotherSighting(run, log, Record(run, s).events[0]);
    } else {
      FirstSighting(run, log, Record(run, s).events[0]);
    }
  }

  lemma OtherEventsKeepCounted(run: Run, log: seq<Event>, e: Event)
    requires Counted(run, log) && !e.TagRead?
    ensures Counted(run, log + [e])
  {
    LogGrows(log, e);
    assert NewEpcs(log) + [] == NewEpcs(log);
    NumberedGrows(log, e);
  }

  lemma SectionKeepsCounted(cfg: Config, on: seq<bool>, run: Run, log: seq<Event>, section: Section)
    requires Rotatable(on) && Counted(run, log)
    ensures var after := Taking(cfg, on)(run, section); Counted(after.state, log + after.events)
  {
    match section
    case Adopt(address) => assert log + [] == log;
    case Sight(sighting) => RecordKeepsCounted(run, log, sighting);
    case CountNoTag(status) => NoTagKeepsCounted(cfg, run, log, status);
    case Report(notice) => OtherEventsKeepCounted(run, log, notice);
    case Round => PollKeepsCounted(cfg, on, run, log);
  }

  /** In every interleaving, the counter, the set of seen EPCs and the events agree: one new event per
      distinct EPC, numbered 1, 2, 3, ... */
  lemma UniqueTagsAreCounted(cfg: Config, on: seq<bool>, readerAddr: Byte, sections: seq<Section>)
    requires Rotatable(on)
    ensures var outcome := Interleaved(cfg, on, readerAddr, sections);
            Counted(outcome.state, outcome.events)
  {
    forall run: Run, log: seq<Event>, section: Section | Counted(run, log)
      ensures var after := Taking(cfg, on)(run, section); Counted(after.state, log + after.events)
    {
      SectionKeepsCounted(cfg, on, run, log, section);
    }
    InterleavingKeeps(cfg, on, Counted, readerAddr, sections);
  }

  lemma NoTagKeepsCounted(cfg: Config, run: Run, log: seq<Event>, status: Byte)
    requires Counted(run, log)
    ensures Counted(NoTag(cfg, run, status).state, log + NoTag(cfg, run, status).events)
  {
    var outcome := NoTag(cfg, run, status);
    if outcome.events == [] {
      assert log + [] == log;
    } else {
      OtherEventsKeepCounted(run, log, outcome.events[0]);
    }
  }

  lemma PollOnlySends(cfg: Config, on: seq<bool>, run: Run)
    requires Rotatable(on)
    ensures var round := Poll(cfg, on, run);
            && round.state == run.(rounds := run.rounds + 1, antIdx := round.state.antIdx)
            && 1 <= |round.events| <= 2
            && forall e | e in round.events :: e.Sent?
  {}

  lemma {:induction false} SendsKeepCounted(run: Run, log: seq<Event>, sent: seq<Event>)
    requires Counted(run, log) && forall e | e in sent :: e.Sent?
    ensures Counted(run, log + sent)
  {
    if sent == [] {
      assert log + [] == log;
    } else {
      var n := |sent| - 1;
      assert sent[n] in sent;
      SendsKeepCounted(run, log, sent[..n]);
      OtherEventsKeepCounted(run, log + sent[..n], sent[n]);
      assert log + sent == log + sent[..n] + [sent[n]];
    }
  }

  lemma PollKeepsCounted(cfg: Config, on: seq<bool>, run: Run, log: seq<Event>)
    requires Rotatable(on) && Counted(run, log)
    ensures Counted(Poll(cfg, on, run).state, log + Poll(cfg, on, run).events)
  {
    PollOnlySends(cfg, on, run);
    SendsKeepCounted(run, log, Poll(cfg, on, run).events);
  }

  // ----- Switching between targets A and B -----

  /** The target after so many switches: only its lowest bit changes, from A to B and back. */
  predicate IsFlipped(target: Byte, times: nat, now: Byte) {
    now / 2 == target / 2 && now % 2 == (target % 2 + times) % 2
  }

  lemma OneMoreFlip(target: Byte, times: nat, now: Byte)
    requires IsFlipped(target, times, now)
    ensures IsFlipped(target, times + 1, Flip(now))
  {}

  /** A section that records a tag, which ends a row of no-tag answers. */
  predicate EndsTheRow(section: Section) {
    section.Sight? && section.sighting.tag.epc != []
  }

  predicate CountsNoTag(section: Section) {
    section.CountNoTag? && CountsAsNoTag(section.status)
  }

  function NoTagAnswers(sections: seq<Section>): nat {
    if sections == [] then
      0
    else
      NoTagAnswers(sections[..|sections| - 1]) + if CountsNoTag(sections[|sections| - 1]) then 1 else 0
  }

  function Switchings(log: seq<Event>): nat {
    if log == [] then
      0
    else
      Switchings(log[..|log| - 1]) + if log[|log| - 1].TargetSwitched? then 1 else 0
  }

  lemma SwitchingsGrow(log: seq<Event>, e: Event)
    ensures Switchings(log + [e]) == Switchings(log) + if e.TargetSwitched? then 1 else 0
    ensures log + [] == log
  {
    assert (log + [e])[..|log|] == log;
  }

  ghost predicate OnSchedule(cfg: Config, run: Run, k: nat, after: Run, log: seq<Event>)
    requires Switches(cfg)
  {
    var total, n := run.noTagHit + k, cfg.noTagABSwitch;
    && after.noTagHit == total % n
    && IsFlipped(run.target, total / n, after.target)
    && Switchings(log) == total / n
  }

  lemma NoTagOnSchedule(cfg: Config, run: Run, k: nat, before: Run, log: seq<Event>, status: Byte)
    requires Switches(cfg) && OnSchedule(cfg, run, k, before, log)
    ensures var after := NoTag(cfg, before, status);
            OnSchedule(cfg, run, k + (if CountsAsNoTag(status) then 1 else 0), after.state, log + after.events)
  {
    ModSuccessor(run.noTagHit + k, cfg.noTagABSwitch);
    OneMoreFlip(run.target, (run.noTagHit + k) / cfg.noTagABSwitch, before.target);
    SwitchingsGrow(log, TargetSwitched(Flip(before.target)));
  }

  lemma PollKeepsSwitchings(cfg: Config, on: seq<bool>, run: Run, log: seq<Event>)
    requires Rotatable(on)
    ensures var after := Poll(cfg, on, run);
            && Switchings(log + after.events) == Switchings(log)
            && after.state.noTagHit == run.noTagHit && after.state.target == run.target
  {
    PollOnlySends(cfg, on, run);
    var events := Poll(cfg, on, run).events;
    SwitchingsGrow(log, events[0]);
    if |events| == 2 {
      SwitchingsGrow(log + [events[0]], events[1]);
      assert log + events == log + [events[0]] + [events[1]];
    } else {
      assert log + events == log + [events[0]];
    }
  }

  lemma SectionOnSchedule(cfg: Config, on: seq<bool>, run: Run, k: nat, before: Run, log: seq<Event>, section: Section)
    requires Rotatable(on) && Switches(cfg) && !EndsTheRow(section) && OnSchedule(cfg, run, k, before, log)
    ensures var after := Taking(cfg, on)(before, section);
            OnSchedule(cfg, run, k + (if CountsNoTag(section) then 1 else 0), after.state, log + after.events)
  {
    match section
    case Adopt(address) => SwitchingsGrow(log, ReaderInfo);
    case Sight(sighting) => SwitchingsGrow(log, ReaderInfo);
    case CountNoTag(status) => NoTagOnSchedule(cfg, run, k, before, log, status);
    case Report(notice) => SwitchingsGrow(log, notice);
    case Round => PollKeepsSwitchings(cfg, on, before, log);
  }

  /** Every N-th no-tag answer in a row flips the target and nothing else does: from a hit count h, k of
      them flip it (h + k) / N times and leave (h + k) % N, whatever rounds and reports come between. */
  lemma {:induction false} SwitchingSchedule(cfg: Config, on: seq<bool>, run: Run, sections: seq<Section>)
    requires Rotatable(on) && Switches(cfg) && run.noTagHit < cfg.noTagABSwitch
    requires forall s | s in sections :: !EndsTheRow(s)
    ensures var outcome := RunAll(Taking(cfg, on), run, sections);
            OnSchedule(cfg, run, NoTagAnswers(sections), outcome.state, outcome.events)
  {
    if sections == [] {
      ModSmall(run.noTagHit, cfg.noTagABSwitch);
    } else {
      var n := |sections| - 1;
      assert sections[n] in sections;
      SwitchingSchedule(cfg, on, run, sections[..n]);
      var before := RunAll(Taking(cfg, on), run, sections[..n]);
      SectionOnSchedule(cfg, on, run, NoTagAnswers(sections[..n]), before.state, before.events, sections[n]);
    }
  }

  /** Without a session above 1 and a positive threshold, no-tag answers are only counted. */
  lemma {:induction false} NoSwitching(cfg: Config, on: seq<bool>, run: Run, sections: seq<Section>)
    requires Rotatable(on) && (cfg.session <= 1 || cfg.noTagABSwitch <= 0)
    requires forall s | s in sections :: !EndsTheRow(s)
    ensures var outcome := RunAll(Taking(cfg, on), run, sections);
            && outcome.state.noTagHit == run.noTagHit + NoTagAnswers(sections)
            && outcome.state.target == run.target
            && Switchings(outcome.events) == 0
  {
    if sections != [] {
      var n := |sections| - 1;
      assert sections[n] in sections;
      NoSwitching(cfg, on, run, sections[..n]);
      var before := RunAll(Taking(cfg, on), run, sections[..n]);
      SectionWithoutSwitching(cfg, on, before.state, before.events, sections[n]);
    }
  }

  lemma SectionWithoutSwitching(cfg: Config, on: seq<bool>, before: Run, log: seq<Event>, section: Section)
    requires Rotatable(on) && !Switches(cfg) && !EndsTheRow(section)
    ensures var after := Taking(cfg, on)(before, section);
            && after.state.noTagHit == before.noTagHit + (if CountsNoTag(section) then 1 else 0)
            && after.state.target == before.target
            && Switchings(log + after.events) == Switchings(log)
  {
    SwitchingsGrow(log, ReaderInfo);
    match section
    case Report(notice) => SwitchingsGrow(log, notice);
    case Round => PollKeepsSwitchings(cfg, on, before, log);
    case _ =>
  }

  function BelowThreshold(cfg: Config): Invariant {
    (run: Run, log: seq<Event>) => Switches(cfg) ==> run.noTagHit < cfg.noTagABSwitch
  }

  /** In every interleaving the hit count stays below the threshold. */
  lemma HitsStayBelowThreshold(cfg: Config, on: seq<bool>, readerAddr: Byte, sections: seq<Section>)
    requires Rotatable(on)
    ensures Switches(cfg) ==> Interleaved(cfg, on, readerAddr, sections).state.noTagHit < cfg.noTagABSwitch
  {
    var inv := BelowThreshold(cfg);
    forall run: Run, log: seq<Event>, section: Section | inv(run, log)
      ensures var after := Taking(cfg, on)(run, section); inv(after.state, log + after.events)
    {
      if section.Round? {
        PollOnlySends(cfg, on, run);
      }
    }
    InterleavingKeeps(cfg, on, inv, readerAddr, sections);
  }

  // ----- Antenna turns over a run -----

  predicate IsInventory(e: Event) {
    e.Sent? && e.command.command == CMD_INVENTORY && |e.command.payload| == 5
  }

  /** The ports named in the inventory commands of a log, in order. */
  function SentPorts(log: seq<Event>): seq<Byte> {
    if log == [] then
      []
    else
      var last := log[|log| - 1];
      SentPorts(log[..|log| - 1]) + if IsInventory(last) then [last.command.payload[3]] else []
  }

  /** The number of single-tag commands in a log. */
  function SentSingles(log: seq<Event>): nat {
    if log == [] then
      0
    else
      var last := log[|log| - 1];
      SentSingles(log[..|log| - 1]) + if last.Sent? && last.command.command == CMD_INVENTORY_SINGLE then 1 else 0
  }

  function SinglesDue(cfg: Config, rounds: nat): nat {
    if cfg.singleFallbackEach > 0 then rounds / cfg.singleFallbackEach else 0
  }

  ghost predicate RotatesOn(on: seq<bool>, run: Run, ports: seq<Byte>)
    requires Rotatable(on)
  {
    && |ports| == run.rounds
    && run.antIdx == StartAfter(on, 0, run.rounds)
    && Follows(Rotation(on, 0), ports)
  }

  ghost predicate Follows(pick: nat -> nat, ports: seq<Byte>) {
    forall j | 0 <= j < |ports| :: ports[j] as int == 0x80 + pick(j)
  }

  lemma FollowsGrows(pick: nat -> nat, ports: seq<Byte>, port: Byte)
    requires Follows(pick, ports) && port as int == 0x80 + pick(|ports|)
    ensures Follows(pick, ports + [port])
  {}

  ghost function Rotates(cfg: Config, on: seq<bool>): Invariant
    requires Rotatable(on)
  {
    (run: Run, log: seq<Event>) =>
      RotatesOn(on, run, SentPorts(log)) && SentSingles(log) == SinglesDue(cfg, run.rounds)
  }

  lemma SentGrows(log: seq<Event>, e: Event)
    ensures SentPorts(log + [e]) == SentPorts(log) + if IsInventory(e) then [e.command.payload[3]] else []
    ensures SentSingles(log + [e])
         == SentSingles(log) + if e.Sent? && e.command.command == CMD_INVENTORY_SINGLE then 1 else 0
  {
    assert (log + [e])[..|log|] == log;
  }

  lemma UnsentKeepsRotation(cfg: Config, on: seq<bool>, run: Run, log: seq<Event>, e: Event)
    requires Rotatable(on) && Rotates(cfg, on)(run, log) && !e.Sent?
    ensures Rotates(cfg, on)(run, log + [e])
  {
    SentGrows(log, e);
    assert SentPorts(log) + [] == SentPorts(log);
  }

  lemma NextTurn(on: seq<bool>, rounds: nat)
    requires Rotatable(on)
    ensures var here := StartAfter(on, 0, rounds);
            && here % PORTS == here
            && Rotation(on, 0)(rounds) == Choose(on, here)
            && StartAfter(on, 0, rounds + 1) == (Choose(on, here) + 1) % PORTS
  {}

  lemma NextPort(on: seq<bool>, run: Run, ports: seq<Byte>, port: Byte, next: Run)
    requires Rotatable(on) && RotatesOn(on, run, ports)
    requires port as int == 0x80 + Choose(on, run.antIdx % PORTS)
    requires next.rounds == run.rounds + 1 && next.antIdx == (Choose(on, run.antIdx % PORTS) + 1) % PORTS
    ensures RotatesOn(on, next, ports + [port])
  {
    NextTurn(on, run.rounds);
    FollowsGrows(Rotation(on, 0), ports, port);
  }

  lemma SinglesDueNext(cfg: Config, rounds: nat)
    ensures SinglesDue(cfg, rounds + 1) == SinglesDue(cfg, rounds) + if SingleDue(cfg, rounds + 1) then 1 else 0
  {
    if cfg.singleFallbackEach > 0 {
      ModSuccessor(rounds, cfg.singleFallbackEach);
    }
  }

  lemma SentInRound(cfg: Config, run: Run, log: seq<Event>, port: Byte, both: bool)
    ensures var events := [Sent(InventoryCommand(cfg, run, port))] + if both then [Sent(SingleCommand(run))] else [];
            && SentPorts(log + events) == SentPorts(log) + [port]
            && SentSingles(log + events) == SentSingles(log) + if both then 1 else 0
  {
    var first := Sent(InventoryCommand(cfg, run, port));
    SentGrows(log, first);
    if both {
      SentGrows(log + [first], Sent(SingleCommand(run)));
      assert log + ([first] + [Sent(SingleCommand(run))]) == (log + [first]) + [Sent(SingleCommand(run))];
      assert SentPorts(log + [first]) + [] == SentPorts(log + [first]);
    } else {
      assert [first] + [] == [first];
    }
  }

  lemma PollKeepsRotation(cfg: Config, on: seq<bool>, run: Run, log: seq<Event>)
    requires Rotatable(on) && Rotates(cfg, on)(run, log)
    ensures Rotates(cfg, on)(Poll(cfg, on, run).state, log + Poll(cfg, on, run).events)
  {
    var port: Byte := 0x80 + Choose(on, run.antIdx % PORTS);
    var round := Poll(cfg, on, run);
    RoundShape(cfg, on, run, port);
    SentInRound(cfg, round.state, log, port, SingleDue(cfg, run.rounds + 1));
    NextPort(on, run, SentPorts(log), port, round.state);
    SinglesDueNext(cfg, run.rounds);
  }

  lemma SectionKeepsRotation(cfg: Config, on: seq<bool>, run: Run, log: seq<Event>, section: Section)
    requires Rotatable(on) && Rotates(cfg, on)(run, log)
    ensures var after := Taking(cfg, on)(run, section); Rotates(cfg, on)(after.state, log + after.events)
  {
    match section
    case Adopt(address) => assert log + [] == log;
    case Sight(sighting) => RecordKeepsRotation(cfg, on, run, log, sighting);
    case CountNoTag(status) => NoTagKeepsRotation(cfg, on, run, log, status);
    case Report(notice) => UnsentKeepsRotation(cfg, on, run, log, notice);
    case Round => PollKeepsRotation(cfg, on, run, log);
  }

  /** In every interleaving, round j goes to the port that the rotation picks, and a single-tag command
      goes out once every singleFallbackEach rounds. */
  lemma AntennasRotate(cfg: Config, on: seq<bool>, readerAddr: Byte, sections: seq<Section>)
    requires Rotatable(on)
    ensures var outcome := Interleaved(cfg, on, readerAddr, sections);
            && RotatesOn(on, outcome.state, SentPorts(outcome.events))
            && SentSingles(outcome.events) == SinglesDue(cfg, outcome.state.rounds)
  {
    var inv := Rotates(cfg, on);
    forall run: Run, log: seq<Event>, section: Section | inv(run, log)
      ensures var after := Taking(cfg, on)(run, section); inv(after.state, log + after.events)
    {
      SectionKeepsRotation(cfg, on, run, log, section);
    }
    RotationStarts(cfg, on, readerAddr);
    InterleavingKeeps(cfg, on, inv, readerAddr, sections);
  }

  lemma RotationStarts(cfg: Config, on: seq<bool>, readerAddr: Byte)
    requires Rotatable(on)
    ensures Rotates(cfg, on)(Started(cfg, readerAddr), [])
  {
    assert RotatesOn(on, Started(cfg, readerAddr), []);
    if cfg.singleFallbackEach > 0 {
      ModSmall(0, cfg.singleFallbackEach);
    }
    assert SentPorts([]) == [];
    assert SentSingles([]) == 0;
    assert SinglesDue(cfg, 0) == 0;
  }

  lemma RecordKeepsRotation(cfg: Config, on: seq<bool>, run: Run, log: seq<Event>, s: Sighting)
    requires Rotatable(on) && Rotates(cfg, on)(run, log)
    ensures Rotates(cfg, on)(Record(run, s).state, log + Record(run, s).events)
  {
    if s.tag.epc == [] {
      assert log + [] == log;
    } else {
      UnsentKeepsRotation(cfg, on, run, log, Record(run, s).events[0]);
    }
  }

  lemma NoTagKeepsRotation(cfg: Config, on: seq<bool>, run: Run, log: seq<Event>, status: Byte)
    requires Rotatable(on) && Rotates(cfg, on)(run, log)
    ensures Rotates(cfg, on)(NoTag(cfg, run, status).state, log + NoTag(cfg, run, status).events)
  {
    var outcome := NoTag(cfg, run, status);
    if outcome.events == [] {
      assert log + [] == log;
    } else {
      UnsentKeepsRotation(cfg, on, run, log, outcome.events[0]);
    }
  }

  /** How often a byte occurs. */
  function Occurrences(bytes: seq<Byte>, b: Byte): nat {
    if bytes == [] then
      0
    else
      Occurrences(bytes[..|bytes| - 1], b) + if bytes[|bytes| - 1] == b then 1 else 0
  }

  lemma {:induction false} OccurrencesAreTurns(pick: nat -> nat, ports: seq<Byte>, p: nat)
    requires p < PORTS && Follows(pick, ports)
    ensures Occurrences(ports, 0x80 + p) == Turns(pick, 0, |ports|, p)
  {
    if ports != [] {
      OccurrencesAreTurns(pick, ports[..|ports| - 1], p);
    }
  }

  lemma ShareOfRotation(on: seq<bool>, run: Run, ports: seq<Byte>, p: nat)
    requires Rotatable(on) && p < PORTS && RotatesOn(on, run, ports)
    ensures var times := Occurrences(ports, 0x80 + p);
            && Count(on) > 0
            && (on[p] ==> run.rounds / Count(on) <= times <= RoundedUp(run.rounds, Count(on)))
            && (!on[p] ==> times == 0)
  {
    CountIsPositive(on);
    OccurrencesAreTurns(Rotation(on, 0), ports, p);
    if on[p] {
      FairShare(on, 0, 0, run.rounds, p);
    } else {
      NoTurnForDisabled(on, 0, 0, run.rounds, p);
    }
  }

  /** In every interleaving, an enabled antenna is named in its fair share of the inventory commands and a
      disabled one in none. */
  lemma AntennasShareFairly(cfg: Config, on: seq<bool>, readerAddr: Byte, sections: seq<Section>, p: nat)
    requires Rotatable(on) && p < PORTS
    ensures var outcome := Interleaved(cfg, on, readerAddr, sections);
            var n := outcome.state.rounds;
            var times := Occurrences(SentPorts(outcome.events), 0x80 + p);
            && Count(on) > 0
            && (on[p] ==> n / Count(on) <= times <= RoundedUp(n, Count(on)))
            && (!on[p] ==> times == 0)
  {
    AntennasRotate(cfg, on, readerAddr, sections);
    var outcome := Interleaved(cfg, on, readerAddr, sections);
    ShareOfRotation(on, outcome.state, SentPorts(outcome.events), p);
  }
}
