/**
 The inventory runtime of the SDK client: bytes in, tag events and reader
 commands out. The specification is a set of functions on a run's state; the
 class is the client, whose methods carry them out on its fields.
 */
module Inventory {
  import opened Bytes
  import opened Scanner
  import opened Reader18
  import opened InventoryTags
  import opened Antennas
  import opened Effects

  const CMD_GET_READER_INFO: Byte := 0x21
  const CMD_INVENTORY_SINGLE: Byte := 0x0F
  const STATUS_SUCCESS: Byte := 0x00
  const STATUS_NO_TAG: Byte := 0x01
  const STATUS_NO_TAG_OR_TIMEOUT: Byte := 0xFB

  datatype Config = Config(
    autoAddress: bool,
    readerAddress: Byte,
    qValue: Byte,
    session: Byte,
    target: Byte,
    antennaMask: Octet,
    scanTime: Byte,
    noTagABSwitch: int,
    singleFallbackEach: int)

  function Normalize(cfg: Config): Config {
    cfg.(antennaMask := if cfg.antennaMask == 0 then 0x01 else cfg.antennaMask,
         scanTime := if cfg.scanTime == 0 then 0x01 else cfg.scanTime,
         noTagABSwitch := if cfg.noTagABSwitch < 0 then 0 else cfg.noTagABSwitch,
         singleFallbackEach := if cfg.singleFallbackEach < 0 then 0 else cfg.singleFallbackEach)
  }

  /** Normalizing makes a configuration usable, changes no usable one, and no behaviour: the same ports are
      enabled, and switching and single-tag rounds are what they were. */
  lemma NormalizeChangesLittle(cfg: Config, rounds: nat)
    ensures var n := Normalize(cfg);
            && (n == cfg <==>
                  cfg.antennaMask != 0 && cfg.scanTime != 0 && cfg.noTagABSwitch >= 0 && cfg.singleFallbackEach >= 0)
            && Normalize(n) == n
            && Ports(n.antennaMask) == Ports(cfg.antennaMask)
            && n.scanTime == (if cfg.scanTime == 0 then 1 else cfg.scanTime)
            && Switches(n) == Switches(cfg) && SingleDue(n, rounds) == SingleDue(cfg, rounds)
            && (Switches(cfg) ==> n.noTagABSwitch == cfg.noTagABSwitch)
            && n == cfg.(antennaMask := n.antennaMask, scanTime := n.scanTime, noTagABSwitch := n.noTagABSwitch,
                         singleFallbackEach := n.singleFallbackEach)
  {}

  datatype Source = InventoryG2 | InventorySingle

  datatype Event =
    | TagRead(source: Source, epc: seq<Byte>, antenna: int, rssi: int, isNew: bool, rounds: nat, uniqueTags: nat)
    | TargetSwitched(target: Byte)
    | ReaderInfo
    | CountOnly(count: nat)
    | BadPayload(error: ParseError)
    | Sent(command: Command)

  datatype Run = Run(
    seen: set<seq<Byte>>,
    rounds: nat,
    uniqueTags: nat,
    noTagHit: nat,
    antIdx: nat,
    readerAddr: Byte,
    target: Byte,
    lastTag: seq<Byte>)

  type Outcome = Effect<Run, Event>

  // ----- Starting a run -----

  function Started(cfg: Config, readerAddr: Byte): Run {
    Run({}, 0, 0, 0, 0, if readerAddr == 0 then cfg.readerAddress else readerAddr, cfg.target, [])
  }

  // ----- What one answer does -----

  predicate CountsAsNoTag(status: Byte) {
    status in {STATUS_NO_TAG, STATUS_NO_TAG_OR_TIMEOUT, 0x02, 0x03, 0x04}
  }

  predicate Switches(cfg: Config) {
    cfg.session > 1 && cfg.noTagABSwitch > 0
  }

  function Flip(target: Byte): Byte {
    if target % 2 == 0 then target + 1 else target - 1
  }

  function NoTag(cfg: Config, run: Run, status: Byte): Outcome {
    if !CountsAsNoTag(status) then
      Effect(run, [])
    else if Switches(cfg) && run.noTagHit + 1 >= cfg.noTagABSwitch then
      Effect(run.(noTagHit := 0, target := Flip(run.target)), [TargetSwitched(Flip(run.target))])
    else
      Effect(run.(noTagHit := run.noTagHit + 1), [])
  }

  datatype Sighting = Sighting(source: Source, tag: Tag)

  function Record(run: Run, s: Sighting): Outcome {
    if s.tag.epc == [] then
      Effect(run, [])
    else
      var isNew := s.tag.epc !in run.seen;
      var unique := if isNew then run.uniqueTags + 1 else run.uniqueTags;
      Effect(
        run.(noTagHit := 0, seen := run.seen + {s.tag.epc}, uniqueTags := unique, lastTag := s.tag.epc),
        [TagRead(s.source, s.tag.epc, s.tag.antenna, s.tag.rssi, isNew, run.rounds, unique)])
  }

  function Sightings(tags: seq<Tag>): seq<Sighting> {
    seq(|tags|, i requires 0 <= i < |tags| => Sighting(InventoryG2, tags[i]))
  }

  function InventoryAnswer(cfg: Config, run: Run, frame: Frame): Outcome {
    match Parsed(frame)
    case Failed(error) => Effect(run, if Reported(error) then [BadPayload(error)] else [])
    case Tags(tags) =>
      if tags != [] then
        RunAll(Record, run, Sightings(tags))
      else if frame.status == STATUS_SUCCESS then
        Effect(run, if frame.data != [] && frame.data[0] > 0 then [CountOnly(frame.data[0])] else [])
      else
        NoTag(cfg, run, frame.status)
  }

  /** Only errors whose text says "truncated" or "invalid" are passed on. */
  predicate Reported(error: ParseError) {
    error.Truncated? || error.InvalidEpcLength?
  }

  datatype SingleResult = Single(antenna: Byte, tagCount: nat, epc: seq<Byte>) | Unusable

  function SingleParsed(frame: Frame): SingleResult {
    if frame.command != CMD_INVENTORY_SINGLE then
      Unusable
    else if frame.status != STATUS_NO_TAG && frame.status != STATUS_SUCCESS then
      Unusable
    else if |frame.data| < 3 || |frame.data| < 3 + frame.data[2] as int then
      Unusable
    else
      Single(frame.data[0], frame.data[1], frame.data[3..3 + frame.data[2] as int])
  }

  function SingleAnswer(cfg: Config, run: Run, frame: Frame): Outcome {
    match SingleParsed(frame)
    case Unusable => Effect(run, [])
    case Single(antenna, tagCount, epc) =>
      if tagCount > 0 && epc != [] then
        Record(run, Sighting(InventorySingle, Tag(antenna, epc, 0)))
      else
        NoTag(cfg, run, frame.status)
  }

  function Addressed(cfg: Config, run: Run, frame: Frame): Run {
    if cfg.autoAddress then run.(readerAddr := frame.address) else run
  }

  function Answer(cfg: Config, run: Run, frame: Frame): Outcome {
    if frame.command == CMD_INVENTORY then
      InventoryAnswer(cfg, Addressed(cfg, run, frame), frame)
    else if frame.command == CMD_INVENTORY_SINGLE then
      SingleAnswer(cfg, Addressed(cfg, run, frame), frame)
    else
      Effect(Addressed(cfg, run, frame), if frame.command == CMD_GET_READER_INFO then [ReaderInfo] else [])
  }

  function Answers(cfg: Config): Step<Run, Frame, Event> {
    (run: Run, frame: Frame) => Answer(cfg, run, frame)
  }

  // ----- What one packet does -----

  const BUFFER_LIMIT: nat := 8192
  const BUFFER_KEPT: nat := 4096

  /** The parser buffer and the run it feeds. */
  datatype Intake = Intake(buffer: seq<Byte>, run: Run)

  function Joined(buffer: seq<Byte>, data: seq<Byte>): seq<Byte> {
    var all := buffer + data;
    if |all| > BUFFER_LIMIT then all[|all| - BUFFER_KEPT..] else all
  }

  function Consume(cfg: Config, intake: Intake, data: seq<Byte>): Effect<Intake, Event> {
    var all := Joined(intake.buffer, data);
    var outcome := RunAll(Answers(cfg), intake.run, Frames(Verified, all));
    Effect(Intake(Cut(Verified, all).rest, outcome.state), outcome.events)
  }

  // ----- What one round does -----

  function InventoryCommand(cfg: Config, run: Run, port: Byte): Command {
    Command(run.readerAddr, CMD_INVENTORY, [cfg.qValue, cfg.session, run.target, port, cfg.scanTime])
  }

  function SingleCommand(run: Run): Command {
    Command(run.readerAddr, CMD_INVENTORY_SINGLE, [])
  }

  predicate SingleDue(cfg: Config, rounds: nat) {
    cfg.singleFallbackEach > 0 && rounds % cfg.singleFallbackEach == 0
  }

  /** The ports of a usable antenna mask. */
  predicate Rotatable(on: seq<bool>) {
    |on| == PORTS && true in on
  }

  /** One turn of the transmit loop, with a normalized configuration and the ports of its mask. */
  function Poll(cfg: Config, on: seq<bool>, run: Run): Outcome
    requires Rotatable(on)
  {
    var port := Choose(on, run.antIdx % PORTS);
    var next := run.(rounds := run.rounds + 1, antIdx := (port + 1) % PORTS);
    Effect(next,
      [Sent(InventoryCommand(cfg, next, 0x80 + port))]
      + if SingleDue(cfg, next.rounds) then [Sent(SingleCommand(next))] else [])
  }

  // ----- The client -----

  class InventoryClient {
    var cfg: Config
    var inventoryOn: bool
    var seen: set<seq<Byte>>
    var parserBuffer: seq<Byte>
    var rounds: nat
    var uniqueTags: nat
    var noTagHit: nat
    var antIdx: nat
    var readerAddr: Byte
    var targetValue: Byte
    var lastTagEPC: seq<Byte>

    ghost function State(): Run
      reads this
    {
      Run(seen, rounds, uniqueTags, noTagHit, antIdx, readerAddr, targetValue, lastTagEPC)
    }

    constructor (cfg: Config)
      ensures !inventoryOn && this.cfg == Normalize(cfg) && parserBuffer == []
    {
      this.cfg := Normalize(cfg);
      inventoryOn := false;
      seen, parserBuffer, rounds, uniqueTags, noTagHit, antIdx := {}, [], 0, 0, 0, 0;
      readerAddr, targetValue, lastTagEPC := Normalize(cfg).readerAddress, Normalize(cfg).target, [];
    }

    /** Refused without a connection or while a run is on; otherwise a fresh state. connected is what the
        transport says of itself when it is asked. */
    method StartInventory(connected: bool) returns (ok: bool)
      modifies this
      ensures ok == (connected && !old(inventoryOn)) && inventoryOn == (ok || old(inventoryOn)) && cfg == old(cfg)
      ensures ok ==> State() == Started(cfg, old(readerAddr)) && parserBuffer == []
      ensures !ok ==> State() == old(State()) && parserBuffer == old(parserBuffer)
    {
      if !connected {
        return false;
      }
      if inventoryOn {
        return false;
      }
      inventoryOn := true;
      seen := {};
      parserBuffer := [];
      rounds := 0;
      uniqueTags := 0;
      noTagHit := 0;
      antIdx := 0;
      lastTagEPC := [];
      targetValue := cfg.target;
      if readerAddr == 0 {
        readerAddr := cfg.readerAddress;
      }
      return true;
    }

    method ObserveNoTag(status: Byte) returns (events: seq<Event>)
      modifies this`noTagHit, this`targetValue
      ensures Effect(State(), events) == NoTag(cfg, old(State()), status)
    {
      if status !in {STATUS_NO_TAG, STATUS_NO_TAG_OR_TIMEOUT, 0x02, 0x03, 0x04} {
        return [];
      }
      noTagHit := noTagHit + 1;
      if cfg.session > 1 && cfg.noTagABSwitch > 0 && noTagHit >= cfg.noTagABSwitch {
        targetValue := Flip(targetValue);
        noTagHit := 0;
        return [TargetSwitched(targetValue)];
      }
      return [];
    }

    method RecordTag(source: Source, antenna: int, rssi: int, epc: seq<Byte>) returns (events: seq<Event>)
      modifies this`noTagHit, this`seen, this`uniqueTags, this`lastTagEPC
      ensures Effect(State(), events) == Record(old(State()), Sighting(source, Tag(antenna, epc, rssi)))
    {
      if epc == [] {
        return [];
      }
      noTagHit := 0;
      var known := epc in seen;
      if !known {
        seen := seen + {epc};
        uniqueTags := uniqueTags + 1;
      }
      assert seen == old(seen) + {epc};
      lastTagEPC := epc;
      return [TagRead(source, epc, antenna, rssi, !known, rounds, uniqueTags)];
    }

    method HandleInventoryFrame(frame: Frame) returns (events: seq<Event>)
      modifies this`noTagHit, this`targetValue, this`seen, this`uniqueTags, this`lastTagEPC
      ensures Effect(State(), events) == InventoryAnswer(cfg, old(State()), frame)
    {
      var parse := ParseInventoryG2Tags(frame);
      if parse.Failed? {
        return if Reported(parse.error) then [BadPayload(parse.error)] else [];
      }
      var tags := parse.tags;
      if |tags| > 0 {
        events := [];
        ghost var sightings := Sightings(tags);
        for i := 0 to |tags|
          invariant Effect(State(), events) == RunAll(Record, old(State()), sightings[..i])
        {
          RunLast(Record, old(State()), sightings, i);
          var more := RecordTag(InventoryG2, tags[i].antenna, tags[i].rssi, tags[i].epc);
          events := events + more;
        }
        assert sightings[..|tags|] == sightings;
        return events;
      }
      if frame.status == STATUS_SUCCESS {
        var count: int := if |frame.data| == 0 then 0 else frame.data[0];
        return if count > 0 then [CountOnly(count)] else [];
      }
      events := ObserveNoTag(frame.status);
    }

    method HandleInventorySingleFrame(frame: Frame) returns (events: seq<Event>)
      modifies this`noTagHit, this`targetValue, this`seen, this`uniqueTags, this`lastTagEPC
      ensures Effect(State(), events) == SingleAnswer(cfg, old(State()), frame)
    {
      var result := SingleParsed(frame);
      if result.Unusable? {
        return [];
      }
      if result.tagCount > 0 && |result.epc| > 0 {
        events := RecordTag(InventorySingle, result.antenna, 0, result.epc);
        return events;
      }
      events := ObserveNoTag(frame.status);
    }

    method ConsumeFrame(frame: Frame) returns (events: seq<Event>)
      modifies this`noTagHit, this`targetValue, this`seen, this`uniqueTags, this`lastTagEPC, this`readerAddr
      ensures Effect(State(), events) == Answer(cfg, old(State()), frame)
    {
      if cfg.autoAddress {
        readerAddr := frame.address;
      }
      events := [];
      if frame.command == CMD_INVENTORY {
        events := HandleInventoryFrame(frame);
      } else if frame.command == CMD_INVENTORY_SINGLE {
        events := HandleInventorySingleFrame(frame);
      } else if frame.command == CMD_GET_READER_INFO {
        events := [ReaderInfo];
      }
    }

    method ConsumePacket(data: seq<Byte>) returns (events: seq<Event>)
      modifies this`parserBuffer, this`noTagHit, this`targetValue, this`seen, this`uniqueTags, this`lastTagEPC,
        this`readerAddr
      ensures Effect(Intake(parserBuffer, State()), events)
           == Consume(cfg, Intake(old(parserBuffer), old(State())), data)
    {
      parserBuffer := parserBuffer + data;
      if |parserBuffer| > 8192 {
        parserBuffer := parserBuffer[|parserBuffer| - 4096..];
      }
      var frames, remaining := ParseFrames(parserBuffer);
      parserBuffer := remaining;
      events := ConsumeFrames(frames);
    }

    method ConsumeFrames(frames: seq<Frame>) returns (events: seq<Event>)
      modifies this`noTagHit, this`targetValue, this`seen, this`uniqueTags, this`lastTagEPC, this`readerAddr
      ensures Effect(State(), events) == RunAll(Answers(cfg), old(State()), frames)
    {
      events := [];
      for i := 0 to |frames|
        invariant Effect(State(), events) == RunAll(Answers(cfg), old(State()), frames[..i])
      {
        RunLast(Answers(cfg), old(State()), frames, i);
        var more := ConsumeFrame(frames[i]);
        events := events + more;
      }
      assert frames[..|frames|] == frames;
    }

    /** The packets of the next round: an inventory command and, when it is due, a single-tag one. */
    method NextInventoryCommand() returns (inventory: seq<Byte>, single: seq<Byte>, ok: bool)
      modifies this`cfg, this`rounds, this`antIdx
      ensures ok == inventoryOn
      ensures !ok ==> State() == old(State()) && cfg == old(cfg) && inventory == single == []
      ensures ok ==> cfg == Normalize(old(cfg)) && Rotatable(Ports(cfg.antennaMask))
      ensures ok ==>
                var round := Poll(cfg, Ports(cfg.antennaMask), old(State()));
                && State() == round.state
                && inventory == Packet(round.events[0].command)
                && single == if |round.events| == 2 then Packet(round.events[1].command) else []
    {
      if !inventoryOn {
        return [], [], false;
      }
      cfg := Normalize(cfg);
      SomePortEnabled(cfg.antennaMask);
      inventory, single := NextRound(Ports(cfg.antennaMask));
      return inventory, single, true;
    }

    method NextRound(ghost on: seq<bool>) returns (inventory: seq<Byte>, single: seq<Byte>)
      requires Rotatable(on) && on == Ports(cfg.antennaMask)
      modifies this`rounds, this`antIdx
      ensures var round := Poll(cfg, on, old(State()));
              && State() == round.state
              && inventory == Packet(round.events[0].command)
              && single == if |round.events| == 2 then Packet(round.events[1].command) else []
    {
      rounds := rounds + 1;
      var antenna, nextIdx := NextInventoryAntenna(cfg.antennaMask, antIdx);
      antIdx := nextIdx;
      RoundShape(cfg, on, old(State()), antenna);
      inventory := BuildCommand(readerAddr, CMD_INVENTORY,
                                [cfg.qValue, cfg.session, targetValue, antenna, cfg.scanTime]);
      single := [];
      if SingleDue(cfg, rounds) {
        single := BuildCommand(readerAddr, CMD_INVENTORY_SINGLE, []);
      }
    }
  }

  lemma RoundShape(cfg: Config, on: seq<bool>, run: Run, antenna: Byte)
    requires Rotatable(on) && antenna as int == 0x80 + Choose(on, run.antIdx % PORTS)
    ensures var round := Poll(cfg, on, run);
            && round.state == run.(rounds := run.rounds + 1, antIdx := (Choose(on, run.antIdx % PORTS) + 1) % PORTS)
            && round.events[0] == Sent(InventoryCommand(cfg, run, antenna))
            && (|round.events| == 2 <==> SingleDue(cfg, run.rounds + 1))
            && (|round.events| == 2 ==> round.events[1] == Sent(SingleCommand(run)))
  {}

  // ----- Failures that nobody hears of -----

  /** A failed parse produces no event at all exactly when the payload ends behind the EPC of one of the
      announced tags, so that only its signal strength is missing. */
  lemma FailureIsSilentIff(cfg: Config, run: Run, frame: Frame)
    requires frame.command == CMD_INVENTORY && |frame.data| >= 2 && Parsed(frame).Failed?
    ensures Answer(cfg, run, frame).events == []
            <==> exists readings, epc :: EndsAfterEpc(frame, readings, epc)
  {
    FailsWithMissingRssiIff(frame);
  }

  /** So the tag of an answer that announces just one, and ends behind its EPC, is lost without a word. */
  lemma LoneTagWithoutRssiIsLost(cfg: Config, run: Run, frame: Frame, mask: Byte, epc: seq<Byte>)
    requires frame.command == CMD_INVENTORY && 1 <= |epc| <= 255 && frame.data == [mask, 1, |epc|] + epc
    ensures Parsed(frame).Failed? && Answer(cfg, run, frame).events == []
  {
    LoneTagWithoutRssiFails(frame, mask, epc);
    FailureIsSilentIff(cfg, run, frame);
  }
}
