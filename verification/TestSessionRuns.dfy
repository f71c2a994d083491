/** What holds over every run of calls of the test-session manager. */
module TestSessionRuns {
  import opened Dedup
  import opened Epcs
  import opened Effects
  import opened TestSession

  function Run(calls: seq<Call>): Outcome {
    RunAll(Answers, NEW, calls)
  }

  predicate Sane(s: Session) {
    && !(s.active && s.awaitingFile)
    && (!s.active ==> s.expected == {} && s.read == {} && s.fileName == "")
    && (s.active ==> s.expected != {})
    && s.read <= s.expected
    && forall e | e in s.expected :: e != "" && Canonical(e)
  }

  /** The session that an answer belongs to; 0 for answers outside of any. */
  function SessionOf(answer: Answer): nat {
    match answer
    case Loaded(stats) => stats.sessionID
    case Matched(_, _, _, _, _, session) => session
    case Stopped(session, _, _, _, _, _) => session
    case _ => 0
  }

  /** The EPCs newly read in session id, in the order in which they were read. */
  function News(log: seq<Answer>, id: nat): seq<Epc> {
    if log == [] then
      []
    else
      var last := log[|log| - 1];
      News(log[..|log| - 1], id)
      + if last.Matched? && last.newlyRead && last.session == id then [last.epc] else []
  }

  /** Loading session id has reported n unique EPCs. */
  ghost predicate Reported(log: seq<Answer>, id: nat, n: nat) {
    exists i :: 0 <= i < |log| && log[i].Loaded? && log[i].stats.sessionID == id && log[i].stats.uniqueEPCs == n
  }

  /** How an answer fits what was answered before it. */
  ghost predicate Fits(before: seq<Answer>, answer: Answer) {
    match answer
    case Loaded(stats) =>
      && stats.totalLines == stats.validLines + stats.invalidLines
      && stats.validLines == stats.uniqueEPCs + stats.duplicateLines
      && stats.uniqueEPCs > 0
      && forall i | 0 <= i < |before| :: SessionOf(before[i]) < stats.sessionID
    case Matched(newlyRead, epc, _, readCount, total, session) =>
      && Reported(before, session, total)
      && readCount <= total
      && if newlyRead then
           epc !in News(before, session) && readCount == |News(before, session)| + 1
         else
           epc in News(before, session) && readCount == |News(before, session)|
    case Stopped(session, _, total, read, unread, _) =>
      && Reported(before, session, total)
      && read == |News(before, session)|
      && read + unread == total && unread >= 0
    case _ => true
  }

  ghost predicate Consistent(log: seq<Answer>) {
    forall i | 0 <= i < |log| :: Fits(log[..i], log[i])
  }

  /** The state agrees with the answers so far. */
  ghost predicate Agrees(s: Session, log: seq<Answer>) {
    && (forall i | 0 <= i < |log| :: SessionOf(log[i]) <= s.id)
    && (s.active ==>
          && Reported(log, s.id, |s.expected|)
          && |News(log, s.id)| == |s.read|
          && forall e :: e in s.read <==> e in News(log, s.id))
  }

  ghost predicate Invariant(s: Session, log: seq<Answer>) {
    Sane(s) && Consistent(log) && Agrees(s, log)
  }

  // ----- Every call keeps it -----

  lemma CallKeepsSane(s: Session, call: Call)
    requires Sane(s)
    ensures Sane(Answers(s, call).state)
  {
    if call.LoadFile? && Parsed(call.lines).out != [] {
      ParsedIsClean(call.lines);
      assert Parsed(call.lines).out[0] in Elements(Parsed(call.lines).out);
    }
  }

  lemma NewsOfOneMore(log: seq<Answer>, answer: Answer, id: nat)
    ensures News(log + [answer], id)
            == News(log, id) + if answer.Matched? && answer.newlyRead && answer.session == id then [answer.epc] else []
  {
    assert (log + [answer])[..|log|] == log;
  }

  lemma {:induction false} NoNews(log: seq<Answer>, id: nat)
    requires forall i | 0 <= i < |log| :: SessionOf(log[i]) < id
    ensures News(log, id) == []
  {
    if log != [] {
      assert SessionOf(log[|log| - 1]) < id;
      NoNews(log[..|log| - 1], id);
    }
  }

  lemma ReportedStays(log: seq<Answer>, answer: Answer, id: nat, n: nat)
    requires Reported(log, id, n)
    ensures Reported(log + [answer], id, n)
  {
    var i :| 0 <= i < |log| && log[i].Loaded? && log[i].stats.sessionID == id && log[i].stats.uniqueEPCs == n;
    assert (log + [answer])[i] == log[i];
  }

  lemma ConsistentOneMore(log: seq<Answer>, answer: Answer)
    requires Consistent(log) && Fits(log, answer)
    ensures Consistent(log + [answer])
  {
    var all := log + [answer];
    forall i | 0 <= i < |all| ensures Fits(all[..i], all[i]) {
      assert all[..i] == if i < |log| then log[..i] else log;
    }
  }

  lemma LoadKeeps(s: Session, log: seq<Answer>, chat: int, fileName: string, t: Tally)
    requires Invariant(s, log) && |t.out| <= t.valid <= t.total && Distinct(t.out)
    ensures var after := Loads(s, chat, fileName, t);
            && |after.events| == 1
            && Fits(log, after.events[0]) && Agrees(after.state, log + after.events)
  {
    var after := Loads(s, chat, fileName, t);
    var answer := after.events[0];
    if answer.NoValidEPC? {
      OtherAnswerAgrees(s, log, answer);
    } else {
      DistinctSize(t.out);
      var all := log + [answer];
      assert all[|log|] == answer;
      NoNews(log, s.id + 1);
      NewsOfOneMore(log, answer, s.id + 1);
    }
  }

  /** An answer outside of any session changes nothing about the sessions. */
  lemma OtherAnswerAgrees(s: Session, log: seq<Answer>, answer: Answer)
    requires Agrees(s, log) && (answer.NotMatched? || answer.NotStopped? || answer.NoValidEPC?)
    ensures Agrees(s, log + [answer])
  {
    NewsOfOneMore(log, answer, s.id);
    if s.active {
      ReportedStays(log, answer, s.id, |s.expected|);
    }
  }

  lemma ReadKeeps(s: Session, log: seq<Answer>, epc: Epc)
    requires Invariant(s, log)
    ensures var after := Reads(s, epc);
            && |after.events| == 1
            && Fits(log, after.events[0]) && Agrees(after.state, log + after.events)
  {
    var after := Reads(s, epc);
    var answer := after.events[0];
    if answer.NotMatched? {
      OtherAnswerAgrees(s, log, answer);
    } else {
      Within(s.read + {epc}, s.expected);
      assert epc in s.read ==> s.read + {epc} == s.read;
      NewsOfOneMore(log, answer, s.id);
      ReportedStays(log, answer, s.id, |s.expected|);
    }
  }

  lemma {:induction false} Within(a: set<Epc>, b: set<Epc>)
    requires a <= b
    ensures |a| <= |b|
    decreases |b|
  {
    if a != {} {
      var e :| e in a;
      Within(a - {e}, b - {e});
    }
  }

  lemma StopKeeps(s: Session, log: seq<Answer>, chat: int)
    requires Invariant(s, log)
    ensures var after := Stops(s, chat);
            && |after.events| == 1
            && Fits(log, after.events[0]) && Agrees(after.state, log + after.events)
  {
    Within(s.read, s.expected);
    if !MayStop(s, chat) {
      OtherAnswerAgrees(s, log, Stops(s, chat).events[0]);
    }
  }

  lemma CallFits(s: Session, log: seq<Answer>, call: Call)
    requires Invariant(s, log)
    ensures |Answers(s, call).events| == 1
    ensures Fits(log, Answers(s, call).events[0])
    ensures Agrees(Answers(s, call).state, log + Answers(s, call).events)
  {
    match call
    case RequestFile(chat) =>
    case LoadFile(chat, fileName, lines) =>
      ParsedIsClean(lines);
      LoadKeeps(s, log, chat, fileName, Parsed(lines));
    case RecordRead(raw) => ReadKeeps(s, log, Normalize(raw));
    case Stop(chat) => StopKeeps(s, log, chat);
  }

  lemma CallKeepsInvariant(s: Session, log: seq<Answer>, call: Call)
    requires Invariant(s, log)
    ensures Invariant(Answers(s, call).state, log + Answers(s, call).events)
  {
    CallKeepsSane(s, call);
    CallFits(s, log, call);
    InvariantOneMore(Answers(s, call).state, log, Answers(s, call).events);
  }

  lemma InvariantOneMore(t: Session, log: seq<Answer>, answers: seq<Answer>)
    requires |answers| == 1 && Sane(t) && Consistent(log) && Fits(log, answers[0]) && Agrees(t, log + answers)
    ensures Invariant(t, log + answers)
  {
    assert answers == [answers[0]];
    ConsistentOneMore(log, answers[0]);
  }

  /** Over every run of calls: the state is sane, and every answer fits those before it. */
  lemma {:induction false} RunIsConsistent(calls: seq<Call>)
    ensures Invariant(Run(calls).state, Run(calls).events)
  {
    if calls != [] {
      var n := |calls| - 1;
      RunIsConsistent(calls[..n]);
      CallKeepsInvariant(Run(calls[..n]).state, Run(calls[..n]).events, calls[n]);
    }
  }

  // ----- What it means -----

  lemma {:induction false} NewsAreDistinct(log: seq<Answer>, id: nat)
    requires Consistent(log)
    ensures Distinct(News(log, id))
  {
    if log != [] {
      var n := |log| - 1;
      forall i | 0 <= i < n ensures Fits(log[..n][..i], log[..n][i]) {
        assert log[..n][..i] == log[..i];
        assert Fits(log[..i], log[i]);
      }
      NewsAreDistinct(log[..n], id);
      assert Fits(log[..n], log[n]);
    }
  }

  /** Never active and awaiting a file; an inactive test has no file and expects and has read nothing; what is read is
      expected; in each session every EPC is newly read at most once; and at every time, what is read and
      what is not add up to the number of unique EPCs that loading the file reported. */
  lemma SessionSafety(calls: seq<Call>)
    ensures var s, log := Run(calls).state, Run(calls).events;
            && (forall id, chat :: !(IsActive(s, id) && Awaits(s, chat)))
            && (!s.active ==> s.expected == {} && s.read == {} && s.fileName == "")
            && s.read <= s.expected
            && (forall id :: Distinct(News(log, id)))
            && (s.active ==>
                  Elements(News(log, s.id)) == s.read && Reported(log, s.id, |s.read| + |s.expected - s.read|))
  {
    RunIsConsistent(calls);
    var s, log := Run(calls).state, Run(calls).events;
    forall id: nat ensures Distinct(News(log, id)) {
      NewsAreDistinct(log, id);
    }
    assert s.expected == s.read + (s.expected - s.read);
  }

  /** The number that a load reported for its session is the only one. */
  lemma ReportedOnce(calls: seq<Call>, id: nat, m: nat, n: nat)
    requires Reported(Run(calls).events, id, m) && Reported(Run(calls).events, id, n)
    ensures m == n
  {
    RunIsConsistent(calls);
    var log := Run(calls).events;
    var i :| 0 <= i < |log| && log[i].Loaded? && log[i].stats.sessionID == id && log[i].stats.uniqueEPCs == m;
    var j :| 0 <= j < |log| && log[j].Loaded? && log[j].stats.sessionID == id && log[j].stats.uniqueEPCs == n;
    LaterLoad(log, i, j);
    LaterLoad(log, j, i);
  }

  lemma LaterLoad(log: seq<Answer>, i: nat, j: nat)
    requires Consistent(log) && i < |log| && j < |log| && log[i].Loaded? && log[j].Loaded?
    ensures i < j ==> log[i].stats.sessionID < log[j].stats.sessionID
  {
    if i < j {
      assert Fits(log[..j], log[j]);
      assert SessionOf(log[..j][i]) < log[j].stats.sessionID;
    }
  }

  /** A session that was opened and is no longer active is never active again. */
  lemma {:induction false} NeverActiveAgain(s: Session, calls: seq<Call>, id: nat)
    requires id <= s.id && !IsActive(s, id)
    ensures var t := RunAll(Answers, s, calls).state;
            s.id <= t.id && !IsActive(t, id)
  {
    if calls != [] {
      var n := |calls| - 1;
      NeverActiveAgain(s, calls[..n], id);
      OneMoreInactive(RunAll(Answers, s, calls[..n]).state, calls[n], id);
    }
  }

  /** The calls that end a session of this owner: a new file, or a stop by the owner; anyone may stop it if
      its owner is chat 0. */
  predicate Ends(call: Call, owner: int) {
    match call
    case RequestFile(_) => true
    case LoadFile(_, _, lines) => Parsed(lines).out != []
    case RecordRead(_) => false
    case Stop(chat) => owner == 0 || chat == owner
  }

  /** The EPCs of the tags that were presented. */
  function Presented(calls: seq<Call>): set<Epc> {
    set call | call in calls && call.RecordRead? :: Normalize(call.raw)
  }

  lemma PresentedOneMore(calls: seq<Call>)
    requires calls != []
    ensures var n := |calls| - 1;
            Presented(calls)
            == Presented(calls[..n]) + if calls[n].RecordRead? then {Normalize(calls[n].raw)} else {}
  {
    assert calls == calls[..|calls| - 1] + [calls[|calls| - 1]];
  }

  predicate NoneEnds(calls: seq<Call>, owner: int) {
    forall call | call in calls :: !Ends(call, owner)
  }

  /** The same session, with what was expected and has been presented. */
  function Lasting(s: Session, presented: set<Epc>): Session {
    s.(read := s.read + presented * s.expected)
  }

  lemma OneMoreRead(s: Session, epc: Epc)
    requires s.active && "" !in s.expected
    ensures Reads(s, epc).state == Lasting(s, {epc})
  {
    assert s.read + {epc} * s.expected == if epc in s.expected then s.read + {epc} else s.read;
  }

  lemma OneMoreCall(s: Session, call: Call)
    requires s.active && "" !in s.expected
    ensures var t := Answers(s, call).state;
            && s.id <= t.id
            && (IsActive(t, s.id) <==> !Ends(call, s.owner))
            && (IsActive(t, s.id) ==> t == Lasting(s, if call.RecordRead? then {Normalize(call.raw)} else {}))
  {
    if call.RecordRead? {
      OneMoreRead(s, Normalize(call.raw));
    } else {
      assert s.read + {} * s.expected == s.read;
    }
  }

  lemma LastingTwice(s: Session, a: set<Epc>, b: set<Epc>)
    ensures Lasting(Lasting(s, a), b) == Lasting(s, a + b)
  {
    assert s.read + a * s.expected + b * s.expected == s.read + (a + b) * s.expected;
  }

  lemma OneMoreInactive(s: Session, call: Call, id: nat)
    requires id <= s.id && !IsActive(s, id)
    ensures var t := Answers(s, call).state;
            s.id <= t.id && !IsActive(t, id)
  {}

  /** A session lasts exactly as long as none of the calls that end it comes; until then only what is read
      changes, and that is what was expected and has been presented. */
  lemma {:induction false} SessionLastsIff(s: Session, calls: seq<Call>)
    requires s.active && "" !in s.expected
    ensures var t := RunAll(Answers, s, calls).state;
            && s.id <= t.id
            && (IsActive(t, s.id) <==> NoneEnds(calls, s.owner))
            && (IsActive(t, s.id) ==> t == Lasting(s, Presented(calls)))
  {
    if calls == [] {
      assert Presented([]) == {};
      assert s.read + {} * s.expected == s.read;
    } else {
      var n := |calls| - 1;
      var before := RunAll(Answers, s, calls[..n]).state;
      SessionLastsIff(s, calls[..n]);
      assert NoneEnds(calls, s.owner) <==> NoneEnds(calls[..n], s.owner) && !Ends(calls[n], s.owner) by {
        assert calls == calls[..n] + [calls[n]];
      }
      if IsActive(before, s.id) {
        OneMoreCall(before, calls[n]);
        PresentedOneMore(calls);
        LastingTwice(s, Presented(calls[..n]), if calls[n].RecordRead? then {Normalize(calls[n].raw)} else {});
      } else {
        OneMoreInactive(before, calls[n], s.id);
      }
    }
  }
}
