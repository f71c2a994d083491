/**
 The test mode told by its calls alone: which load a session comes from, what it
 holds, and what every call is answered, without the state of the manager.
 */
module TestSessionAnswers {
  import opened Dedup
  import opened Epcs
  import opened Effects
  import opened TestSession
  import opened TestSessionRuns

  /** A load that opens a session. */
  predicate Opens(call: Call) {
    call.LoadFile? && Parsed(call.lines).out != []
  }

  /** How many sessions have been opened. */
  function Opened(calls: seq<Call>): nat {
    if calls == [] then 0 else Opened(calls[..|calls| - 1]) + if Opens(calls[|calls| - 1]) then 1 else 0
  }

  /** Call i has opened a session, and none after it has ended it. */
  ghost predicate OpenSince(calls: seq<Call>, i: nat) {
    && i < |calls| && Opens(calls[i])
    && forall call | call in calls[i + 1..] :: !Ends(call, calls[i].chat)
  }

  function Expected(load: Call): set<Epc>
    requires load.LoadFile?
  {
    Elements(Parsed(load.lines).out)
  }

  /** The session opened by call i. */
  function SessionSince(calls: seq<Call>, i: nat): Session
    requires i < |calls| && calls[i].LoadFile?
  {
    var LoadFile(chat, fileName, _) := calls[i];
    Session(false, chat, true, Opened(calls), fileName, Expected(calls[i]),
            Presented(calls[i + 1..]) * Expected(calls[i]))
  }

  lemma {:induction false} IdIsOpened(calls: seq<Call>)
    ensures Run(calls).state.id == Opened(calls)
  {
    if calls != [] {
      IdIsOpened(calls[..|calls| - 1]);
    }
  }

  lemma {:induction false} OpenedAddsNothing(calls: seq<Call>, i: nat)
    requires i <= |calls| && forall call | call in calls[i..] :: !Opens(call)
    ensures Opened(calls) == Opened(calls[..i])
    decreases |calls|
  {
    if i < |calls| {
      var n := |calls| - 1;
      assert calls[n] == calls[i..][n - i];
      assert calls[..n][i..] == calls[i..][..n - i];
      OpenedAddsNothing(calls[..n], i);
      assert calls[..n][..i] == calls[..i];
    } else {
      assert calls[..i] == calls;
    }
  }

  /** What is left of the session of call i, after the calls since. */
  lemma SinceIsActive(calls: seq<Call>, i: nat)
    requires OpenSince(calls, i)
    ensures Run(calls).state == SessionSince(calls, i)
  {
    var now, later := calls[..i + 1], calls[i + 1..];
    assert calls == now + later && now[..i] == calls[..i] && now[i] == calls[i];
    RunConcat(Answers, NEW, now, later);
    var s := Run(now).state;
    IdIsOpened(calls[..i]);
    ParsedIsClean(calls[i].lines);
    assert Run(now).state == Answers(Run(now[..i]).state, calls[i]).state;
    SessionLastsIff(s, later);
    assert {} + Presented(later) * s.expected == Presented(later) * s.expected;
    OpenedAddsNothing(calls, i + 1);
  }

  lemma {:induction false} ActiveIsSince(calls: seq<Call>)
    requires Run(calls).state.active
    ensures exists i: nat :: OpenSince(calls, i)
  {
    if calls != [] {
      var n := |calls| - 1;
      var before := Run(calls[..n]).state;
      if Opens(calls[n]) {
        assert OpenSince(calls, n);
      } else {
        assert before.active;
        ActiveIsSince(calls[..n]);
        var i: nat :| OpenSince(calls[..n], i);
        SinceIsActive(calls[..n], i);
        ParsedIsClean(calls[i].lines);
        OneMoreCall(before, calls[n]);
        StaysOpen(calls, i);
      }
    }
  }

  lemma StaysOpen(calls: seq<Call>, i: nat)
    requires calls != [] && OpenSince(calls[..|calls| - 1], i) && !Ends(calls[|calls| - 1], calls[i].chat)
    ensures OpenSince(calls, i)
  {
    var n := |calls| - 1;
    assert calls[i + 1..] == calls[..n][i + 1..] + [calls[n]];
  }

  /** After any calls, a test is active exactly when some load has opened a session that no call since has
      ended; the session has the owner, the file name and the EPCs of that load, its number is that of the
      loads so far, and what is read is what was expected and has been presented since. */
  lemma ActiveIff(calls: seq<Call>)
    ensures Run(calls).state.active <==> exists i: nat :: OpenSince(calls, i)
    ensures forall i: nat | OpenSince(calls, i) :: Run(calls).state == SessionSince(calls, i)
    ensures Run(calls).state.id == Opened(calls)
  {
    IdIsOpened(calls);
    if Run(calls).state.active {
      ActiveIsSince(calls);
    }
    forall i: nat | OpenSince(calls, i) ensures Run(calls).state == SessionSince(calls, i) {
      SinceIsActive(calls, i);
    }
  }

  // ----- Waiting for a file -----

  /** Call i has asked for a file, and there has been none since, and no other request. */
  ghost predicate AskedSince(calls: seq<Call>, i: nat) {
    && i < |calls| && calls[i].RequestFile?
    && forall call | call in calls[i + 1..] :: !call.RequestFile? && !Opens(call)
  }

  /** The last call decides, or leaves it as it was. */
  lemma AskedOneMore(calls: seq<Call>, i: nat)
    requires calls != []
    ensures var n := |calls| - 1;
            AskedSince(calls, i) <==>
            if calls[n].RequestFile? then i == n else !Opens(calls[n]) && AskedSince(calls[..n], i)
  {
    var n := |calls| - 1;
    if i < n {
      assert calls[i + 1..] == calls[..n][i + 1..] + [calls[n]];
    }
  }

  /** The request that is still open, if any. */
  ghost predicate IsAsked(calls: seq<Call>, s: Session) {
    && (s.awaitingFile <==> exists i: nat :: AskedSince(calls, i))
    && (forall i: nat | AskedSince(calls, i) :: s.owner == calls[i].chat)
  }

  lemma {:induction false} AwaitingSince(calls: seq<Call>)
    ensures IsAsked(calls, Run(calls).state)
  {
    if calls != [] {
      var n := |calls| - 1;
      AwaitingSince(calls[..n]);
      RunIsConsistent(calls[..n]);
      AskedAfter(calls, Run(calls[..n]).state);
    }
  }

  lemma AskedAfter(calls: seq<Call>, before: Session)
    requires calls != [] && IsAsked(calls[..|calls| - 1], before) && !(before.active && before.awaitingFile)
    ensures IsAsked(calls, Answers(before, calls[|calls| - 1]).state)
  {
    var n := |calls| - 1;
    forall i: nat
      ensures AskedSince(calls, i) <==>
              if calls[n].RequestFile? then i == n else !Opens(calls[n]) && AskedSince(calls[..n], i)
    {
      AskedOneMore(calls, i);
    }
    if calls[n].RequestFile? {
      assert AskedSince(calls, n);
    } else if before.awaitingFile && !Opens(calls[n]) {
      var i: nat :| AskedSince(calls[..n], i);
      assert AskedSince(calls, i);
    }
  }

  /** After any calls, a file is awaited from a chat exactly when that chat, or chat 0, has made the last
      request for one, and no file has been loaded since. */
  lemma AwaitsIff(calls: seq<Call>, chat: int)
    ensures Awaits(Run(calls).state, chat)
            <==> exists i: nat :: AskedSince(calls, i) && (calls[i].chat == 0 || calls[i].chat == chat)
  {
    AwaitingSince(calls);
    if Awaits(Run(calls).state, chat) {
      var i: nat :| AskedSince(calls, i);
      assert Run(calls).state.owner == calls[i].chat;
    }
  }

  // ----- What a call is answered -----

  /** The answer to a call after others. */
  function AnswerTo(calls: seq<Call>, call: Call): seq<Answer> {
    Answers(Run(calls).state, call).events
  }

  lemma AnswerIsLogged(calls: seq<Call>, call: Call)
    ensures Run(calls + [call]).events == Run(calls).events + AnswerTo(calls, call)
  {
    assert (calls + [call])[..|calls|] == calls;
  }

  lemma ReadInSession(s: Session, e: Epc, presented: set<Epc>)
    requires s.active && "" !in s.expected && s.read == presented * s.expected
    ensures Reads(s, e).events
            == [if e in s.expected then
                  Matched(e !in presented, e, s.owner, |(presented + {e}) * s.expected|, |s.expected|, s.id)
                else NotMatched]
  {
    if e in s.expected {
      assert s.read + {e} == (presented + {e}) * s.expected;
    }
  }

  /** While the session of call i is open, a tag is matched exactly if the file had it, and new exactly if it
      has not been presented since. */
  lemma ReadWhileOpen(calls: seq<Call>, i: nat, raw: string)
    requires OpenSince(calls, i)
    ensures var e, expected, presented := Normalize(raw), Expected(calls[i]), Presented(calls[i + 1..]);
            AnswerTo(calls, RecordRead(raw))
            == [if e in expected then
                  Matched(e !in presented, e, calls[i].chat, |(presented + {e}) * expected|, |expected|, Opened(calls))
                else NotMatched]
  {
    SinceIsActive(calls, i);
    ParsedIsClean(calls[i].lines);
    ReadInSession(Run(calls).state, Normalize(raw), Presented(calls[i + 1..]));
  }

  /** The answer to a stop, from the owner, the file name and the sets of a session. */
  function StopAnswer(owner: int, fileName: string, expected: set<Epc>, read: set<Epc>, id: nat, chat: int): Answer {
    if owner == 0 || chat == owner then
      Stopped(id, fileName, |expected|, |read|, |expected| - |read|, owner)
    else
      NotStopped(NotTheOwner)
  }

  lemma StopInSession(s: Session, chat: int)
    requires s.active
    ensures Stops(s, chat).events == [StopAnswer(s.owner, s.fileName, s.expected, s.read, s.id, chat)]
  {}

  /** And only the owner can stop the test, and gets the totals. */
  lemma StopWhileOpen(calls: seq<Call>, i: nat, chat: int)
    requires OpenSince(calls, i)
    ensures var read := Presented(calls[i + 1..]) * Expected(calls[i]);
            AnswerTo(calls, Stop(chat))
            == [StopAnswer(calls[i].chat, calls[i].fileName, Expected(calls[i]), read, Opened(calls), chat)]
  {
    SinceIsActive(calls, i);
    StopInSession(Run(calls).state, chat);
  }

  lemma AnswersWhileClosed(calls: seq<Call>, raw: string, chat: int)
    requires forall i: nat :: !OpenSince(calls, i)
    ensures AnswerTo(calls, RecordRead(raw)) == [NotMatched]
    ensures AnswerTo(calls, Stop(chat)) == [NotStopped(NoActiveTest)]
  {
    ActiveIff(calls);
  }

  /** A file is answered by its counts, and by the number of the session if it opens one. */
  lemma AnswersToFile(calls: seq<Call>, chat: int, fileName: string, lines: seq<string>)
    ensures var Tally(out, total, valid) := Parsed(lines);
            var number := if out == [] then 0 else Opened(calls) + 1;
            var stats := LoadStats(fileName, total, valid, |out|, valid - |out|, total - valid, number);
            AnswerTo(calls, LoadFile(chat, fileName, lines)) == [if out == [] then NoValidEPC(stats) else Loaded(stats)]
  {
    IdIsOpened(calls);
  }
}
