/**
 What goes out of an inventory run, told by what has gone in: which commands the
 reader is sent, which tags are reported, and when the target is switched, for
 every order of the receiver's and the sender's sections.
 */
module InventoryLog {
  import opened Bytes
  import opened Antennas
  import opened Effects
  import opened Inventory
  import opened InventoryRuns
  import opened Modular
  import InventoryTags
  import Reader18

  // ----- What the sections add up to -----

  /** How many rounds have begun. */
  function Rounds(sections: seq<Section>): nat {
    if sections == [] then
      0
    else
      Rounds(sections[..|sections| - 1]) + if sections[|sections| - 1].Round? then 1 else 0
  }

  /** The last address adopted, or that of the start. */
  function Address(sections: seq<Section>, atStart: Byte): Byte {
    if sections == [] then
      atStart
    else
      var last := sections[|sections| - 1];
      if last.Adopt? then last.address else Address(sections[..|sections| - 1], atStart)
  }

  /** A tag with its round number. */
  datatype Seen = Seen(sighting: Sighting, rounds: nat)

  /** The tags that have been recorded, in order. */
  function Recorded(sections: seq<Section>): seq<Seen> {
    if sections == [] then
      []
    else
      var before, last := sections[..|sections| - 1], sections[|sections| - 1];
      Recorded(before) + if EndsTheRow(last) then [Seen(last.sighting, Rounds(before))] else []
  }

  /** The number of no-tag answers since the last tag. */
  function Row(sections: seq<Section>): nat {
    if sections == [] then
      0
    else
      var before, last := sections[..|sections| - 1], sections[|sections| - 1];
      if EndsTheRow(last) then 0 else Row(before) + if CountsNoTag(last) then 1 else 0
  }

  /** How often a row has come to another n answers. */
  function Due(sections: seq<Section>, n: nat): nat
    requires n > 0
  {
    if sections == [] then
      0
    else
      Due(sections[..|sections| - 1], n)
      + if CountsNoTag(sections[|sections| - 1]) && Row(sections) % n == 0 then 1 else 0
  }

  // ----- What the log says -----

  /** The tags of a log, in order. */
  function Reads(log: seq<Event>): seq<Seen> {
    if log == [] then
      []
    else
      var last := log[|log| - 1];
      Reads(log[..|log| - 1])
      + if last.TagRead? then
          [Seen(Sighting(last.source, InventoryTags.Tag(last.antenna, last.epc, last.rssi)), last.rounds)]
        else
          []
  }

  /** The target that the log names last, or the one of the start. */
  function Target(log: seq<Event>, atStart: Byte): Byte {
    if log == [] then
      atStart
    else
      var last := log[|log| - 1];
      if last.TargetSwitched? then last.target else Target(log[..|log| - 1], atStart)
  }

  /** Every switch names another target than the one before, of the same pair. */
  predicate Alternates(log: seq<Event>, atStart: Byte) {
    forall i | 0 <= i < |log| && log[i].TargetSwitched? ::
      var before := Target(log[..i], atStart);
      log[i].target != before && log[i].target / 2 == before / 2
  }

  /** An inventory command names the configured values and the target of the time; a single-tag command has
      no payload; and no other command is sent. */
  predicate InForce(cfg: Config, log: seq<Event>, i: nat)
    requires i < |log|
  {
    log[i].Sent? ==>
      var Command(_, command, payload) := log[i].command;
      if command == 0x01 then
        && |payload| == 5
        && payload[0] == cfg.qValue && payload[1] == cfg.session && payload[4] == cfg.scanTime
        && payload[2] == Target(log[..i], cfg.target)
      else
        command == 0x0F && payload == []
  }

  predicate AllInForce(cfg: Config, log: seq<Event>) {
    forall i | 0 <= i < |log| :: InForce(cfg, log, i)
  }

  // ----- One more event -----

  lemma OneMoreEvent(cfg: Config, log: seq<Event>, e: Event)
    ensures Target(log + [e], cfg.target) == if e.TargetSwitched? then e.target else Target(log, cfg.target)
    ensures log + [] == log && Reads(log) + [] == Reads(log)
  {
    assert (log + [e])[..|log|] == log;
  }

  lemma InForceStays(cfg: Config, log: seq<Event>, e: Event)
    requires AllInForce(cfg, log) && Alternates(log, cfg.target)
    requires e.Sent? ==> InForce(cfg, log + [e], |log|)
    requires e.TargetSwitched? ==>
               e.target != Target(log, cfg.target) && e.target / 2 == Target(log, cfg.target) / 2
    ensures AllInForce(cfg, log + [e]) && Alternates(log + [e], cfg.target)
  {
    var longer := log + [e];
    assert longer[..|log|] == log;
    forall i | 0 <= i < |log| ensures longer[..i] == log[..i] && longer[i] == log[i] {}
    forall i | 0 <= i < |longer| ensures InForce(cfg, longer, i) {
      assert i < |log| ==> InForce(cfg, log, i);
    }
  }

  // ----- What every section keeps -----

  /** The log agrees with the run and has been right so far. */
  predicate Faithful(cfg: Config, run: Run, log: seq<Event>) {
    run.target == Target(log, cfg.target) && AllInForce(cfg, log) && Alternates(log, cfg.target)
  }

  lemma ReportIsFaithful(cfg: Config, run: Run, after: Run, log: seq<Event>, e: Event)
    requires Faithful(cfg, run, log) && !e.Sent? && !e.TargetSwitched? && after.target == run.target
    ensures Faithful(cfg, after, log + [e])
  {
    OneMoreEvent(cfg, log, e);
    InForceStays(cfg, log, e);
  }

  lemma NoTagIsFaithful(cfg: Config, run: Run, log: seq<Event>, status: Byte)
    requires Faithful(cfg, run, log)
    ensures Faithful(cfg, NoTag(cfg, run, status).state, log + NoTag(cfg, run, status).events)
  {
    var after := NoTag(cfg, run, status);
    OneMoreEvent(cfg, log, TargetSwitched(Flip(run.target)));
    if after.events != [] {
      InForceStays(cfg, log, TargetSwitched(Flip(run.target)));
    }
  }

  lemma SendIsFaithful(cfg: Config, run: Run, after: Run, log: seq<Event>, e: Event)
    requires Faithful(cfg, run, log) && e.Sent? && after.target == run.target
    requires if e.command.command == 0x01 then
               exists port :: e.command.payload == [cfg.qValue, cfg.session, run.target, port, cfg.scanTime]
             else
               e.command.command == 0x0F && e.command.payload == []
    ensures Faithful(cfg, after, log + [e])
  {
    OneMoreEvent(cfg, log, e);
    assert (log + [e])[..|log|] == log;
    InForceStays(cfg, log, e);
  }

  /** The commands of one round. */
  predicate IsRound(cfg: Config, run: Run, port: Byte, events: seq<Event>) {
    && 1 <= |events| <= 2
    && events[0] == Sent(Reader18.Command(
         run.readerAddr, 0x01, [cfg.qValue, cfg.session, run.target, port, cfg.scanTime]))
    && (|events| == 2 <==> SingleDue(cfg, run.rounds + 1))
    && (|events| == 2 ==> events[1] == Sent(Reader18.Command(run.readerAddr, 0x0F, [])))
  }

  lemma PollIsRound(cfg: Config, on: seq<bool>, run: Run)
    requires Rotatable(on)
    ensures var round := Poll(cfg, on, run);
            && IsRound(cfg, run, 0x80 + Choose(on, run.antIdx % PORTS), round.events)
            && round.state == run.(rounds := run.rounds + 1, antIdx := round.state.antIdx)
  {
    RoundShape(cfg, on, run, 0x80 + Choose(on, run.antIdx % PORTS));
  }

  lemma PollIsFaithful(cfg: Config, on: seq<bool>, run: Run, log: seq<Event>)
    requires Rotatable(on) && Faithful(cfg, run, log)
    ensures Faithful(cfg, Poll(cfg, on, run).state, log + Poll(cfg, on, run).events)
  {
    PollIsRound(cfg, on, run);
    var Effect(next, events) := Poll(cfg, on, run);
    assert events[0].command.payload
           == [cfg.qValue, cfg.session, run.target, 0x80 + Choose(on, run.antIdx % PORTS), cfg.scanTime];
    SendIsFaithful(cfg, run, next, log, events[0]);
    if |events| == 2 {
      SendIsFaithful(cfg, next, next, log + [events[0]], events[1]);
      assert log + events == log + [events[0]] + [events[1]];
    } else {
      assert log + events == log + [events[0]];
    }
  }

  lemma SectionIsFaithful(cfg: Config, on: seq<bool>, run: Run, log: seq<Event>, section: Section)
    requires Rotatable(on) && Faithful(cfg, run, log)
    ensures var after := Taking(cfg, on)(run, section); Faithful(cfg, after.state, log + after.events)
  {
    match section
    case Adopt(address) => OneMoreEvent(cfg, log, ReaderInfo);
    case Sight(sighting) =>
      OneMoreEvent(cfg, log, ReaderInfo);
      var after := Record(run, sighting);
      if after.events != [] {
        ReportIsFaithful(cfg, run, after.state, log, after.events[0]);
      }
    case CountNoTag(status) => NoTagIsFaithful(cfg, run, log, status);
    case Report(notice) => ReportIsFaithful(cfg, run, run, log, notice);
    case Round => PollIsFaithful(cfg, on, run, log);
  }

  /** In every interleaving, each inventory command has the configured Q value, session and scan time, and
      names the target of the last switch before it, or the configured one; and each switch in the log is
      one from A to B or back. */
  lemma CommandsAreInForce(cfg: Config, on: seq<bool>, readerAddr: Byte, sections: seq<Section>)
    requires Rotatable(on)
    ensures var outcome := Interleaved(cfg, on, readerAddr, sections);
            && AllInForce(cfg, outcome.events)
            && Alternates(outcome.events, cfg.target)
            && outcome.state.target == Target(outcome.events, cfg.target)
  {
    var inv: Invariant := (run, log) => Faithful(cfg, run, log);
    forall run: Run, log: seq<Event>, section: Section | inv(run, log)
      ensures var after := Taking(cfg, on)(run, section); inv(after.state, log + after.events)
    {
      SectionIsFaithful(cfg, on, run, log, section);
    }
    InterleavingKeeps(cfg, on, inv, readerAddr, sections);
  }

  // ----- The tags of the log -----

  /** The address of the start. */
  function StartAddress(cfg: Config, readerAddr: Byte): Byte {
    if readerAddr == 0 then cfg.readerAddress else readerAddr
  }

  /** The run and the log agree with the sections. */
  predicate Agrees(cfg: Config, readerAddr: Byte, sections: seq<Section>, outcome: Outcome) {
    && outcome.state.rounds == Rounds(sections)
    && outcome.state.readerAddr == Address(sections, StartAddress(cfg, readerAddr))
    && Reads(outcome.events) == Recorded(sections)
    && outcome.state.lastTag == (if Recorded(sections) == [] then []
                                 else Recorded(sections)[|Recorded(sections)| - 1].sighting.tag.epc)
  }

  lemma SectionsGrow(sections: seq<Section>, section: Section, atStart: Byte)
    ensures var more := sections + [section];
            && Rounds(more) == Rounds(sections) + (if section.Round? then 1 else 0)
            && Address(more, atStart) == (if section.Adopt? then section.address else Address(sections, atStart))
            && Recorded(more)
               == Recorded(sections) + (if EndsTheRow(section) then [Seen(section.sighting, Rounds(sections))] else [])
            && Row(more) == if EndsTheRow(section) then 0 else Row(sections) + if CountsNoTag(section) then 1 else 0
  {
    assert (sections + [section])[..|sections|] == sections;
  }

  /** What one section reports and changes. */
  predicate OneSectionOn(section: Section, before: Outcome, after: Outcome) {
    && Reads(after.events) == Reads(before.events)
       + (if EndsTheRow(section) then [Seen(section.sighting, before.state.rounds)] else [])
    && after.state.rounds == before.state.rounds + (if section.Round? then 1 else 0)
    && after.state.readerAddr == (if section.Adopt? then section.address else before.state.readerAddr)
    && after.state.lastTag == (if EndsTheRow(section) then section.sighting.tag.epc else before.state.lastTag)
  }

  lemma RecordReports(cfg: Config, before: Outcome, sighting: Sighting)
    ensures var after := Record(before.state, sighting);
            OneSectionOn(Sight(sighting), before, Effect(after.state, before.events + after.events))
  {
    var after := Record(before.state, sighting);
    if after.events == [] {
      OneMoreEvent(cfg, before.events, ReaderInfo);
    } else {
      OneMoreRead(cfg, before.events, after.events[0]);
    }
  }

  lemma NoTagReports(cfg: Config, before: Outcome, status: Byte)
    ensures var after := NoTag(cfg, before.state, status);
            OneSectionOn(CountNoTag(status), before, Effect(after.state, before.events + after.events))
  {
    OneMoreEvent(cfg, before.events, ReaderInfo);
    OneMoreRead(cfg, before.events, TargetSwitched(Flip(before.state.target)));
  }

  lemma TakingReports(cfg: Config, on: seq<bool>, before: Outcome, section: Section)
    requires Rotatable(on)
    ensures OneSectionOn(section, before, Then(Taking(cfg, on), before, section))
  {
    match section
    case Adopt(address) => OneMoreEvent(cfg, before.events, ReaderInfo);
    case Sight(sighting) => RecordReports(cfg, before, sighting);
    case CountNoTag(status) => NoTagReports(cfg, before, status);
    case Report(notice) =>
      OneMoreRead(cfg, before.events, notice);
      OneMoreEvent(cfg, before.events, notice);
    case Round =>
      RoundReadsNothing(cfg, on, before);
      OneMoreEvent(cfg, before.events, ReaderInfo);
  }

  lemma OneMoreRead(cfg: Config, log: seq<Event>, e: Event)
    ensures Reads(log + [e])
            == Reads(log) + if e.TagRead? then
                              [Seen(Sighting(e.source, InventoryTags.Tag(e.antenna, e.epc, e.rssi)), e.rounds)]
                            else []
  {
    assert (log + [e])[..|log|] == log;
  }

  lemma OneMoreSection(cfg: Config, readerAddr: Byte, sections: seq<Section>, section: Section,
                       before: Outcome, after: Outcome)
    requires Agrees(cfg, readerAddr, sections, before) && OneSectionOn(section, before, after)
    ensures Agrees(cfg, readerAddr, sections + [section], after)
  {
    SectionsGrow(sections, section, StartAddress(cfg, readerAddr));
  }

  lemma RoundReadsNothing(cfg: Config, on: seq<bool>, before: Outcome)
    requires Rotatable(on)
    ensures var after := Poll(cfg, on, before.state);
            && Reads(before.events + after.events) == Reads(before.events)
            && after.state == before.state.(rounds := before.state.rounds + 1, antIdx := after.state.antIdx)
  {
    PollIsRound(cfg, on, before.state);
    var events := Poll(cfg, on, before.state).events;
    OneMoreRead(cfg, before.events, events[0]);
    OneMoreEvent(cfg, before.events, events[0]);
    if |events| == 2 {
      OneMoreRead(cfg, before.events + [events[0]], events[1]);
      assert before.events + events == before.events + [events[0]] + [events[1]];
    } else {
      assert before.events + events == before.events + [events[0]];
    }
  }

  /** In every interleaving, the tags reported are those recorded, in order, each with its source, antenna,
      signal strength and the number of rounds begun before it; and the client knows the last one. */
  lemma {:induction false} TagsAreReported(cfg: Config, on: seq<bool>, readerAddr: Byte, sections: seq<Section>)
    requires Rotatable(on)
    ensures Agrees(cfg, readerAddr, sections, Interleaved(cfg, on, readerAddr, sections))
  {
    if sections != [] {
      var n := |sections| - 1;
      TagsAreReported(cfg, on, readerAddr, sections[..n]);
      assert sections == sections[..n] + [sections[n]];
      var before := Interleaved(cfg, on, readerAddr, sections[..n]);
      TakingReports(cfg, on, before, sections[n]);
      OneMoreSection(cfg, readerAddr, sections[..n], sections[n], before, Then(Taking(cfg, on), before, sections[n]));
    }
  }

  /** The command of the next round, told by the sections and the log before it. */
  function NextCommand(cfg: Config, on: seq<bool>, readerAddr: Byte, sections: seq<Section>, log: seq<Event>):
    Reader18.Command
    requires Rotatable(on)
  {
    Reader18.Command(
      Address(sections, StartAddress(cfg, readerAddr)), 0x01,
      [cfg.qValue, cfg.session, Target(log, cfg.target), 0x80 + Rotation(on, 0)(Rounds(sections)), cfg.scanTime])
  }

  lemma StateBeforeRound(cfg: Config, on: seq<bool>, readerAddr: Byte, sections: seq<Section>)
    requires Rotatable(on)
    ensures var Effect(run, log) := Interleaved(cfg, on, readerAddr, sections);
            && run.rounds == Rounds(sections)
            && run.readerAddr == Address(sections, StartAddress(cfg, readerAddr))
            && run.target == Target(log, cfg.target)
            && Choose(on, run.antIdx % PORTS) == Rotation(on, 0)(Rounds(sections))
  {
    TagsAreReported(cfg, on, readerAddr, sections);
    CommandsAreInForce(cfg, on, readerAddr, sections);
    AntennasRotate(cfg, on, readerAddr, sections);
    NextTurn(on, Rounds(sections));
  }

  /** Whatever has happened before it, a round sends an inventory command to the last adopted address, with
      the target of the time and for the port whose turn it is, and a single-tag command when one is due. */
  lemma RoundSends(cfg: Config, on: seq<bool>, readerAddr: Byte, sections: seq<Section>)
    requires Rotatable(on)
    ensures var log := Interleaved(cfg, on, readerAddr, sections).events;
            var command := NextCommand(cfg, on, readerAddr, sections, log);
            Interleaved(cfg, on, readerAddr, sections + [Round]).events
            == log + ([Sent(command)]
                      + if cfg.singleFallbackEach > 0 && (Rounds(sections) + 1) % cfg.singleFallbackEach == 0
                        then [Sent(Reader18.Command(command.address, 0x0F, []))] else [])
  {
    var before := Interleaved(cfg, on, readerAddr, sections);
    assert (sections + [Round])[..|sections|] == sections;
    StateBeforeRound(cfg, on, readerAddr, sections);
    PollIsRound(cfg, on, before.state);
    RoundIs(cfg, before.state, 0x80 + Choose(on, before.state.antIdx % PORTS), Poll(cfg, on, before.state).events);
  }

  lemma RoundIs(cfg: Config, run: Run, port: Byte, events: seq<Event>)
    requires IsRound(cfg, run, port, events)
    ensures var payload := [cfg.qValue, cfg.session, run.target, port, cfg.scanTime];
            events == [Sent(Reader18.Command(run.readerAddr, 0x01, payload))]
                      + if cfg.singleFallbackEach > 0 && (run.rounds + 1) % cfg.singleFallbackEach == 0
                        then [Sent(Reader18.Command(run.readerAddr, 0x0F, []))] else []
  {}

  // ----- The target, after any sections -----

  ghost predicate FollowsRows(cfg: Config, sections: seq<Section>, outcome: Outcome)
    requires Switches(cfg)
  {
    var n := cfg.noTagABSwitch;
    && outcome.state.noTagHit == Row(sections) % n
    && Switchings(outcome.events) == Due(sections, n)
    && IsFlipped(cfg.target, Due(sections, n), outcome.state.target)
  }

  lemma NoTagFollowsRows(cfg: Config, sections: seq<Section>, before: Outcome, status: Byte)
    requires Switches(cfg) && FollowsRows(cfg, sections, before)
    ensures var after := NoTag(cfg, before.state, status);
            FollowsRows(cfg, sections + [CountNoTag(status)], Effect(after.state, before.events + after.events))
  {
    var more := sections + [CountNoTag(status)];
    SectionsGrow(sections, CountNoTag(status), 0);
    assert more[..|sections|] == sections;
    ModSuccessor(Row(sections), cfg.noTagABSwitch);
    OneMoreFlip(cfg.target, Due(sections, cfg.noTagABSwitch), before.state.target);
    SwitchingsGrow(before.events, TargetSwitched(Flip(before.state.target)));
  }

  /** A section that is no no-tag answer. */
  lemma OtherRows(sections: seq<Section>, section: Section, n: nat)
    requires n > 0 && !section.CountNoTag?
    ensures Row(sections + [section]) == if EndsTheRow(section) then 0 else Row(sections)
    ensures Due(sections + [section], n) == Due(sections, n)
  {
    assert (sections + [section])[..|sections|] == sections;
  }

  lemma RecordFollowsRows(cfg: Config, sections: seq<Section>, before: Outcome, sighting: Sighting)
    requires Switches(cfg) && FollowsRows(cfg, sections, before)
    ensures var after := Record(before.state, sighting);
            FollowsRows(cfg, sections + [Sight(sighting)], Effect(after.state, before.events + after.events))
  {
    OtherRows(sections, Sight(sighting), cfg.noTagABSwitch);
    ModSmall(0, cfg.noTagABSwitch);
    var after := Record(before.state, sighting);
    SwitchingsGrow(before.events, if after.events == [] then ReaderInfo else after.events[0]);
  }

  lemma OtherFollowsRows(cfg: Config, on: seq<bool>, sections: seq<Section>, before: Outcome, section: Section)
    requires Rotatable(on) && Switches(cfg) && FollowsRows(cfg, sections, before) && !section.CountNoTag?
    ensures FollowsRows(cfg, sections + [section], Then(Taking(cfg, on), before, section))
  {
    OtherRows(sections, section, cfg.noTagABSwitch);
    match section
    case Adopt(address) => SwitchingsGrow(before.events, ReaderInfo);
    case Sight(sighting) => RecordFollowsRows(cfg, sections, before, sighting);
    case Report(notice) => SwitchingsGrow(before.events, notice);
    case Round => PollKeepsSwitchings(cfg, on, before.state, before.events);
  }

  /** In every interleaving, the hit count is the length of the present row of no-tag answers, modulo the
      threshold N; the target has been switched once for every N answers of every row, and nothing else has
      switched it. */
  lemma {:induction false} TargetFollowsRows(cfg: Config, on: seq<bool>, readerAddr: Byte, sections: seq<Section>)
    requires Rotatable(on) && Switches(cfg)
    ensures FollowsRows(cfg, sections, Interleaved(cfg, on, readerAddr, sections))
  {
    if sections == [] {
      ModSmall(0, cfg.noTagABSwitch);
    } else {
      var n := |sections| - 1;
      TargetFollowsRows(cfg, on, readerAddr, sections[..n]);
      var before := Interleaved(cfg, on, readerAddr, sections[..n]);
      assert sections == sections[..n] + [sections[n]];
      if sections[n].CountNoTag? {
        NoTagFollowsRows(cfg, sections[..n], before, sections[n].status);
      } else {
        OtherFollowsRows(cfg, on, sections[..n], before, sections[n]);
      }
    }
  }
}
