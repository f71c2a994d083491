/**
 What an answer of the reader makes the client do, told by its bytes: the
 sections that its frame is consumed in.
 */
module InventoryFrames {
  import opened Bytes
  import opened Scanner
  import opened Dedup
  import opened Effects
  import opened Inventory
  import opened InventoryRuns
  import opened InventoryTags

  /** Every frame is first asked for its address, if the client adopts addresses. */
  function Adopting(cfg: Config, frame: Frame): seq<Section> {
    if cfg.autoAddress then [Adopt(frame.address)] else []
  }

  // ----- Inventory answers -----

  /** A payload of readings is recorded tag by tag, whatever its status and whatever follows it. */
  lemma ReadingsAreSighted(cfg: Config, frame: Frame, mask: Byte, readings: seq<Reading>, trailing: seq<Byte>)
    requires frame.command == 0x01 && 1 <= |readings| <= 255
    requires frame.data == Payload(mask, readings) + trailing
    ensures var sections := SectionsOf(cfg, frame);
            var n := |Adopting(cfg, frame)|;
            && sections[..n] == Adopting(cfg, frame)
            && |sections| == n + |readings|
            && forall i | 0 <= i < |readings| ::
                 sections[n + i]
                 == Sight(Sighting(InventoryG2, Tag(AntennaId(mask), readings[i].epc, readings[i].rssi)))
  {
    PayloadParses(frame, mask, readings, trailing);
    var sights := SightSections(Parsed(frame).tags);
    assert SectionsOf(cfg, frame) == Adopting(cfg, frame) + sights;
    forall i | 0 <= i < |readings|
      ensures sights[i] == Sight(Sighting(InventoryG2, Tag(AntennaId(mask), readings[i].epc, readings[i].rssi)))
    {
      assert Sightings(Parsed(frame).tags)[i] == Sighting(InventoryG2, Parsed(frame).tags[i]);
    }
  }

  /** An inventory answer that announces no tag: with status 0 it is only a count, and otherwise it may be a
      no-tag answer. */
  lemma NoTagSections(cfg: Config, frame: Frame)
    requires frame.command == 0x01 && (|frame.data| < 2 || frame.data[1] == 0)
    ensures SectionsOf(cfg, frame)
            == Adopting(cfg, frame)
               + if frame.status != 0 then [CountNoTag(frame.status)]
                 else if frame.data != [] && frame.data[0] > 0 then [Report(CountOnly(frame.data[0]))]
                 else []
  {
    NoTagIsAnnounced(frame);
  }

  /** A payload that does not parse is at most reported. */
  lemma FailureSections(cfg: Config, frame: Frame)
    requires frame.command == 0x01 && Parsed(frame).Failed?
    ensures SectionsOf(cfg, frame)
            == Adopting(cfg, frame)
               + if Parsed(frame).error.MissingRssi? then [] else [Report(BadPayload(Parsed(frame).error))]
  {
    ErrorsAreOfEntries(frame);
  }

  /** Five statuses count as a no-tag answer. */
  lemma NoTagStatuses(status: Byte)
    ensures CountsNoTag(CountNoTag(status)) <==> 1 <= status <= 4 || status == 0xFB
  {}

  // ----- Single-tag answers -----

  /** The layout of a single-tag answer. */
  predicate IsSingle(data: seq<Byte>, antenna: Byte, count: Byte, epc: seq<Byte>) {
    |epc| <= 255 && [antenna, count, |epc|] + epc <= data
  }

  lemma SingleHasLayout(data: seq<Byte>)
    requires |data| >= 3 && |data| >= 3 + data[2] as int
    ensures IsSingle(data, data[0], data[1], data[3..3 + data[2] as int])
  {
    var n := data[2] as int;
    assert [data[0], data[1], data[2]] + data[3..3 + n] == data[..3 + n];
  }

  /** A single-tag answer is usable exactly when its status is 0 or 1 and its payload has that layout, with
      anything behind it; and what it says is what it was laid out from. */
  lemma SingleParsedIff(frame: Frame, antenna: Byte, count: Byte, epc: seq<Byte>)
    ensures SingleParsed(frame) == Single(antenna, count, epc) <==>
            && frame.command == 0x0F && (frame.status == 0 || frame.status == 1)
            && IsSingle(frame.data, antenna, count, epc)
  {
    if SingleParsed(frame).Single? {
      SingleHasLayout(frame.data);
    }
    if IsSingle(frame.data, antenna, count, epc) {
      var layout := [antenna, count, |epc|] + epc;
      assert frame.data[..|layout|] == layout;
      assert frame.data[3..3 + |epc|] == layout[3..];
    }
  }

  /** A single-tag answer with a tag records it, without a signal strength; one without counts as a no-tag
      answer, if its status is 1; and any other does nothing. */
  lemma SingleIsSighted(cfg: Config, frame: Frame, antenna: Byte, count: Byte, epc: seq<Byte>)
    requires frame.command == 0x0F && (frame.status == 0 || frame.status == 1)
    requires IsSingle(frame.data, antenna, count, epc)
    ensures SectionsOf(cfg, frame)
            == Adopting(cfg, frame)
               + if count > 0 && epc != [] then [Sight(Sighting(InventorySingle, Tag(antenna, epc, 0)))]
                 else [CountNoTag(frame.status)]
  {
    SingleParsedIff(frame, antenna, count, epc);
  }

  lemma UnusableSingle(cfg: Config, frame: Frame)
    requires frame.command == 0x0F
    requires (frame.status != 0 && frame.status != 1) || forall a, n, epc :: !IsSingle(frame.data, a, n, epc)
    ensures SectionsOf(cfg, frame) == Adopting(cfg, frame)
  {
    if SingleParsed(frame).Single? {
      SingleHasLayout(frame.data);
    }
  }

  /** The other answers: one is reported, and the rest are ignored. */
  lemma OtherAnswers(cfg: Config, frame: Frame)
    requires frame.command != 0x01 && frame.command != 0x0F
    ensures SectionsOf(cfg, frame) == Adopting(cfg, frame) + if frame.command == 0x21 then [Report(ReaderInfo)] else []
  {}

  // ----- Answers without tags switch the target -----

  /** An answer without tags that counts: to an inventory command, or to a single-tag one. */
  predicate IsNoTagAnswer(frame: Frame) {
    || (frame.command == 0x01 && (|frame.data| < 2 || frame.data[1] == 0)
        && (1 <= frame.status <= 4 || frame.status == 0xFB))
    || (frame.command == 0x0F && frame.status == 1 && |frame.data| >= 3 && (frame.data[1] == 0 || frame.data[2] == 0)
        && |frame.data| >= 3 + frame.data[2] as int)
  }

  lemma NoTagAnswerCounts(cfg: Config, frame: Frame)
    requires IsNoTagAnswer(frame)
    ensures SectionsOf(cfg, frame) == Adopting(cfg, frame) + [CountNoTag(frame.status)]
    ensures CountsNoTag(CountNoTag(frame.status))
  {
    NoTagStatuses(frame.status);
    if frame.command == 0x01 {
      NoTagSections(cfg, frame);
    } else {
      SingleHasLayout(frame.data);
      var epc := frame.data[3..3 + frame.data[2] as int];
      SingleIsSighted(cfg, frame, frame.data[0], frame.data[1], epc);
    }
  }

  lemma {:induction false} NoTagAnswersCount(cfg: Config, frames: seq<Frame>)
    requires forall f | f in frames :: IsNoTagAnswer(f)
    ensures NoTagAnswers(AllSections(cfg, frames)) == |frames|
    ensures forall s | s in AllSections(cfg, frames) :: !EndsTheRow(s)
  {
    if frames != [] {
      var n := |frames| - 1;
      assert frames[n] in frames;
      NoTagAnswersCount(cfg, frames[..n]);
      NoTagAnswerCounts(cfg, frames[n]);
      var before := AllSections(cfg, frames[..n]);
      var last := CountNoTag(frames[n].status);
      AnswersGrow(before, Adopting(cfg, frames[n]), last);
      assert AllSections(cfg, frames) == before + (Adopting(cfg, frames[n]) + [last]);
    }
  }

  lemma AnswersGrow(before: seq<Section>, adopting: seq<Section>, last: Section)
    requires |adopting| <= 1 && (adopting != [] ==> adopting[0].Adopt?) && CountsNoTag(last)
    ensures NoTagAnswers(before + (adopting + [last])) == NoTagAnswers(before) + 1
  {
    var all := before + (adopting + [last]);
    assert all[..|all| - 1] == before + adopting;
    if adopting != [] {
      assert (before + adopting)[..|before + adopting| - 1] == before;
    } else {
      assert before + adopting == before;
    }
  }

  /** After k answers without tags, the target has been switched once for every N of them. */
  predicate IsSwitchedBy(cfg: Config, k: nat, run: Run)
    requires cfg.noTagABSwitch > 0
  {
    && run.noTagHit == k % cfg.noTagABSwitch
    && run.target / 2 == cfg.target / 2
    && run.target % 2 == (cfg.target % 2 + k / cfg.noTagABSwitch) % 2
  }

  lemma ScheduleOfFresh(cfg: Config, readerAddr: Byte, k: nat, after: Run, log: seq<Event>)
    requires Switches(cfg) && OnSchedule(cfg, Started(cfg, readerAddr), k, after, log)
    ensures IsSwitchedBy(cfg, k, after)
  {
    assert Started(cfg, readerAddr).noTagHit == 0 && Started(cfg, readerAddr).target == cfg.target;
  }

  lemma SectionsSwitch(cfg: Config, on: seq<bool>, readerAddr: Byte, sections: seq<Section>)
    requires Rotatable(on) && Switches(cfg) && forall s | s in sections :: !EndsTheRow(s)
    ensures IsSwitchedBy(cfg, NoTagAnswers(sections), Interleaved(cfg, on, readerAddr, sections).state)
  {
    SwitchingSchedule(cfg, on, Started(cfg, readerAddr), sections);
    var outcome := Interleaved(cfg, on, readerAddr, sections);
    ScheduleOfFresh(cfg, readerAddr, NoTagAnswers(sections), outcome.state, outcome.events);
  }

  /** From the bytes of the answers to the target of a fresh run. */
  lemma NoTagAnswersSwitch(cfg: Config, on: seq<bool>, readerAddr: Byte, frames: seq<Frame>)
    requires Rotatable(on) && cfg.session > 1 && cfg.noTagABSwitch > 0
    requires forall f | f in frames :: IsNoTagAnswer(f)
    ensures IsSwitchedBy(cfg, |frames|, RunAll(Answers(cfg), Started(cfg, readerAddr), frames).state)
  {
    NoTagAnswersCount(cfg, frames);
    AnswersAreSections(cfg, on, Started(cfg, readerAddr), frames);
    SectionsSwitch(cfg, on, readerAddr, AllSections(cfg, frames));
  }
}
