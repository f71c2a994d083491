/**
 The service one call at a time is the pipeline with one thread running: the
 steps of one caller or one worker, with no other thread's step between them,
 do to the shared state exactly what the sequential service says.
 */
module Sequential {
  import opened Folds
  import opened Dedup
  import opened Epcs
  import opened Pipeline
  import PipelineSafety
  import RecentSeen
  import opened Service

  function Shares(s: State): Shared {
    Shared(s.channel, s.queued, s.inflight, s.cache, s.recentSeen, s.scanActive, s.stats)
  }

  lemma AfterBoth(c: Config, s: State, a: seq<Action>, b: seq<Action>)
    ensures After(c, s, a + b) == After(c, After(c, s, a), b)
  {
    FoldAppend(Scheduler(c), s, a, b);
  }

  lemma AfterOne(c: Config, s: State, a: Action)
    ensures After(c, s, [a]) == Moves(c, s, a)
  {
    assert [a][..0] == [];
    assert FoldLeft(Scheduler(c), s, [a]) == Scheduler(c)(FoldLeft(Scheduler(c), s, []), a);
  }

  lemma AfterThree(c: Config, s: State, x: Action, y: Action, z: Action)
    ensures After(c, s, [x, y, z]) == Moves(c, Moves(c, Moves(c, s, x), y), z)
  {
    AfterBoth(c, s, [x], [y]);
    AfterBoth(c, s, [x] + [y], [z]);
    AfterOne(c, s, x);
    AfterOne(c, Moves(c, s, x), y);
    AfterOne(c, Moves(c, Moves(c, s, x), y), z);
    assert [x, y, z] == [x] + [y] + [z];
  }

  /** Caller i may take any step: no caller holds the mutex. */
  predicate Free(s: State, i: nat) {
    i < |s.callers| && !MutexHeld(s)
  }

  lemma Unblocked(c: Config, s: State, i: nat, step: CallerStep)
    requires Free(s, i) && !step.Collect?
    ensures Moves(c, s, ByCaller(i, step)) == CallerMoves(c, s, i, step)
    ensures Free(CallerMoves(c, s, i, step), i)
  {
    var t := CallerMoves(c, s, i, step);
    PipelineSafety.CallerStepExchanges(c, s, i, step);
    assert !t.callers[i].Picking?;
    forall k | 0 <= k < |t.callers| ensures !t.callers[k].Picking? {
      assert t.callers[k] == if k == i then t.callers[i] else s.callers[k];
    }
  }

  /** Only caller i has moved, to where it is now, and the shared state is v. */
  predicate CallerDid(s: State, i: nat, t: State, v: Shared, here: Caller)
    requires i < |s.callers|
  {
    t.callers == s.callers[i := here] && t.workers == s.workers && Shares(t) == v
  }

  lemma StaysFree(s: State, i: nat, t: State, v: Shared, here: Caller)
    requires Free(s, i) && CallerDid(s, i, t, v, here) && !here.Picking?
    ensures Free(t, i)
  {}

  lemma CallerDidBoth(s: State, i: nat, t: State, u: State, v: Shared, w: Shared, mid: Caller, here: Caller)
    requires i < |s.callers| && CallerDid(s, i, t, v, mid)
    requires CallerDid(t, i, u, w, here)
    ensures CallerDid(s, i, u, w, here)
  {}

  // ----- Enqueueing -----

  function EnqueueSteps(i: nat): seq<Action> {
    [ByCaller(i, Reserve), ByCaller(i, Send), ByCaller(i, RollBack)]
  }

  lemma EnqueueAlone(c: Config, s: State, i: nat, epc: Epc, todo: seq<Epc>)
    requires Free(s, i) && s.callers[i] == Entering(epc, todo)
    ensures CallerDid(s, i, After(c, s, EnqueueSteps(i)), Enqueued(c, Shares(s), epc), Pipeline.Next(todo))
  {
    Unblocked(c, s, i, Reserve);
    var a := CallerMoves(c, s, i, Reserve);
    Unblocked(c, a, i, Send);
    var b := CallerMoves(c, a, i, Send);
    Unblocked(c, b, i, RollBack);
    AfterThree(c, s, ByCaller(i, Reserve), ByCaller(i, Send), ByCaller(i, RollBack));
    if epc == "" || Known(Shares(s), epc) {
      assert a.callers[i] == Pipeline.Next(todo);
    } else {
      ReservedAlone(c, a, i, epc, todo);
      assert s.queued + {epc} - {epc} == s.queued;
    }
  }

  lemma ReservedAlone(c: Config, s: State, i: nat, epc: Epc, todo: seq<Epc>)
    requires i < |s.callers| && s.callers[i] == Sending(epc, todo)
    ensures var b := CallerMoves(c, s, i, Send);
            && i < |b.callers|
            && CallerDid(s, i, CallerMoves(c, b, i, RollBack),
                         if |s.channel| < c.queueSize then Shares(s).(channel := s.channel + [epc])
                         else Shares(s).(queued := s.queued - {epc}, stats := s.stats.CountDrop()),
                         Pipeline.Next(todo))
  {
    var b := CallerMoves(c, s, i, Send);
    assert b.callers[i] == if |s.channel| < c.queueSize then Pipeline.Next(todo) else Dropping(epc, todo);
  }

  function ReplaySteps(i: nat, n: nat): seq<Action> {
    if n == 0 then [] else EnqueueSteps(i) + ReplaySteps(i, n - 1)
  }

  lemma {:induction false} ReplayAlone(c: Config, s: State, i: nat, todo: seq<Epc>)
    requires Free(s, i) && s.callers[i] == Pipeline.Next(todo)
    ensures CallerDid(s, i, After(c, s, ReplaySteps(i, |todo|)), EnqueuedAll(c, Shares(s), todo), Resting)
    decreases |todo|
  {
    if todo != [] {
      var t := After(c, s, EnqueueSteps(i));
      EnqueueAlone(c, s, i, todo[0], todo[1..]);
      StaysFree(s, i, t, Enqueued(c, Shares(s), todo[0]), Pipeline.Next(todo[1..]));
      ReplayAlone(c, t, i, todo[1..]);
      AfterBoth(c, s, EnqueueSteps(i), ReplaySteps(i, |todo| - 1));
      FoldFirst(Enqueuer(c), Shares(s), todo);
      CallerDidBoth(s, i, t, After(c, t, ReplaySteps(i, |todo| - 1)), Shares(t),
                    EnqueuedAll(c, Shares(s), todo), Pipeline.Next(todo[1..]), Resting);
    }
  }

  // ----- HandleEPC -----

  function AskSteps(i: nat): seq<Action> {
    [ByCaller(i, AskCache), ByCaller(i, CountMiss), ByCaller(i, CountHit)]
  }

  function HandleSteps(i: nat, epc: Epc, now: int): seq<Action> {
    [ByCaller(i, Handle(epc, now))] + (AskSteps(i) + EnqueueSteps(i))
  }

  /** The steps of one caller through HandleEPC do what the sequential HandleEPC does. */
  lemma HandleAlone(c: Config, s: State, i: nat, epc: Epc, now: int)
    requires Free(s, i) && s.callers[i] == Resting
    ensures CallerDid(s, i, After(c, s, HandleSteps(i, epc, now)), Handled(c, Shares(s), epc, now).0, Resting)
  {
    var a := CallerMoves(c, s, i, Handle(epc, now));
    Unblocked(c, s, i, Handle(epc, now));
    AfterOne(c, s, ByCaller(i, Handle(epc, now)));
    AfterBoth(c, s, [ByCaller(i, Handle(epc, now))], AskSteps(i) + EnqueueSteps(i));
    if epc == "" || !s.scanActive {
      RestWhenResting(c, a, i);
    } else {
      assert CallerDid(s, i, a, Sighted(c, Shares(s), epc, now), Looking(epc));
      DecideAlone(c, a, i, epc);
      var t := After(c, a, AskSteps(i) + EnqueueSteps(i));
      CallerDidBoth(s, i, a, t, Shares(a), Shares(t), Looking(epc), Resting);
    }
  }

  /** From the question to the cache on. */
  lemma DecideAlone(c: Config, s: State, i: nat, epc: Epc)
    requires Free(s, i) && s.callers[i] == Looking(epc)
    ensures CallerDid(s, i, After(c, s, AskSteps(i) + EnqueueSteps(i)),
                      if epc in s.cache then Enqueued(c, Hit(Shares(s)), epc) else Missed(Shares(s)), Resting)
  {
    var t := After(c, s, AskSteps(i));
    AskAlone(c, s, i, epc);
    AfterBoth(c, s, AskSteps(i), EnqueueSteps(i));
    if epc in s.cache {
      StaysFree(s, i, t, Hit(Shares(s)), Entering(epc, []));
      EnqueueAlone(c, t, i, epc, []);
      var u := After(c, t, EnqueueSteps(i));
      CallerDidBoth(s, i, t, u, Shares(t), Shares(u), Entering(epc, []), Resting);
    } else {
      StaysFree(s, i, t, Missed(Shares(s)), Resting);
      EnqueueWhenResting(c, t, i);
    }
  }

  lemma AskAlone(c: Config, s: State, i: nat, epc: Epc)
    requires Free(s, i) && s.callers[i] == Looking(epc)
    ensures var t := After(c, s, AskSteps(i));
            if epc in s.cache then CallerDid(s, i, t, Hit(Shares(s)), Entering(epc, []))
            else CallerDid(s, i, t, Missed(Shares(s)), Resting)
  {
    Unblocked(c, s, i, AskCache);
    var a := CallerMoves(c, s, i, AskCache);
    Unblocked(c, a, i, CountMiss);
    var b := CallerMoves(c, a, i, CountMiss);
    Unblocked(c, b, i, CountHit);
    AfterThree(c, s, ByCaller(i, AskCache), ByCaller(i, CountMiss), ByCaller(i, CountHit));
    assert a.callers[i] == if epc in s.cache then Hitting(epc) else Missing(epc);
    assert b.callers[i] == if epc in s.cache then Hitting(epc) else Resting;
  }

  lemma EnqueueWhenResting(c: Config, s: State, i: nat)
    requires i < |s.callers| && s.callers[i] == Resting
    ensures After(c, s, EnqueueSteps(i)) == s
  {
    AfterThree(c, s, ByCaller(i, Reserve), ByCaller(i, Send), ByCaller(i, RollBack));
  }

  lemma RestWhenResting(c: Config, s: State, i: nat)
    requires i < |s.callers| && s.callers[i] == Resting
    ensures After(c, s, AskSteps(i) + EnqueueSteps(i)) == s
  {
    AfterThree(c, s, ByCaller(i, AskCache), ByCaller(i, CountMiss), ByCaller(i, CountHit));
    AfterBoth(c, s, AskSteps(i), EnqueueSteps(i));
    EnqueueWhenResting(c, s, i);
  }

  // ----- Collecting -----

  function Asking(i: nat, epcs: seq<Epc>): seq<Action> {
    if epcs == [] then [] else Asking(i, epcs[..|epcs| - 1]) + [ByCaller(i, AskAbout(epcs[|epcs| - 1]))]
  }

  lemma AskOneAlone(c: Config, s: State, i: nat, e: Epc)
    requires i < |s.callers| && s.callers[i].Picking? && e in s.callers[i].pending
    ensures var here := s.callers[i];
            CallerDid(s, i, After(c, s, [ByCaller(i, AskAbout(e))]), Shares(s),
                      Picking(here.pending - {e}, here.found + Picked(s.cache, e), here.guarded))
  {
    AfterOne(c, s, ByCaller(i, AskAbout(e)));
  }

  lemma ReleaseAlone(c: Config, s: State, i: nat, found: seq<Epc>, guarded: bool)
    requires i < |s.callers| && s.callers[i] == Picking({}, found, guarded)
    ensures CallerDid(s, i, After(c, s, [ByCaller(i, Release)]), Shares(s),
                      if guarded then Pipeline.Collected(found) else Pipeline.Next(found))
  {
    AfterOne(c, s, ByCaller(i, Release));
  }

  /** Asking about drafts collects them in order, and asking about others collects nothing. */
  lemma {:induction false} AskingAlone(c: Config, s: State, i: nat, epcs: seq<Epc>, drafts: bool)
    requires i < |s.callers| && s.callers[i].Picking? && Distinct(epcs) && Elements(epcs) <= s.callers[i].pending
    requires forall e | e in epcs :: Picked(s.cache, e) == if drafts then [e] else []
    ensures var here := s.callers[i];
            CallerDid(s, i, After(c, s, Asking(i, epcs)), Shares(s),
                      Picking(here.pending - Elements(epcs), here.found + (if drafts then epcs else []), here.guarded))
  {
    var here := s.callers[i];
    if epcs == [] {
      assert here.pending - Elements<Epc>([]) == here.pending && here.found + [] == here.found;
      assert s.callers[i := here] == s.callers;
    } else {
      var n := |epcs| - 1;
      var e := epcs[n];
      assert epcs == epcs[..n] + [e] && e in epcs;
      assert Elements(epcs) == Elements(epcs[..n]) + {e};
      AskingAlone(c, s, i, epcs[..n], drafts);
      var t := After(c, s, Asking(i, epcs[..n]));
      AfterBoth(c, s, Asking(i, epcs[..n]), [ByCaller(i, AskAbout(e))]);
      AskOneAlone(c, t, i, e);
      OneMoreAsked(here, epcs[..n], e, drafts);
      var u := After(c, t, [ByCaller(i, AskAbout(e))]);
      CallerDidBoth(s, i, t, u, Shares(s), Shares(s), t.callers[i], u.callers[i]);
    }
  }

  lemma OneMoreAsked(here: Caller, epcs: seq<Epc>, e: Epc, drafts: bool)
    requires here.Picking?
    ensures here.pending - Elements(epcs) - {e} == here.pending - (Elements(epcs) + {e})
    ensures here.found + (if drafts then epcs else []) + (if drafts then [e] else [])
            == here.found + if drafts then epcs + [e] else []
  {}

  lemma {:induction false} SomeOrder(epcs: set<Epc>) returns (order: seq<Epc>)
    ensures Distinct(order) && Elements(order) == epcs
  {
    if epcs == {} {
      order := [];
    } else {
      var e :| e in epcs;
      var rest := SomeOrder(epcs - {e});
      assert e !in Elements(rest);
      order := rest + [e];
      assert Elements(order) == Elements(rest) + {e};
    }
  }

  /** From the collection to the end of its loop. */
  function CollectSteps(i: nat, now: int, replay: seq<Epc>, others: seq<Epc>): seq<Action> {
    [ByCaller(i, Collect(now))] + LoopSteps(i, replay, others)
  }

  lemma ReplayIsPicked(c: Config, v: Shared, focus: seq<Epc>, now: int, replay: seq<Epc>, others: seq<Epc>)
    requires IsReplay(c, v, focus, now, replay)
    requires Elements(others) == Sought(RecentSeen.Fresh(v.recentSeen, now, c.ttl), NonEmpty(focus)) - Elements(replay)
    ensures forall e | e in replay :: Picked(v.cache, e) == [e]
    ensures forall e | e in others :: Picked(v.cache, e) == []
    ensures Elements(replay) <= Sought(RecentSeen.Fresh(v.recentSeen, now, c.ttl), NonEmpty(focus))
  {
    forall e | e in replay ensures e in Candidates(c, v, focus, now) {
      assert e in Elements(replay);
    }
    forall e | e in others ensures Picked(v.cache, e) == [] {
      assert e in Elements(others);
      assert e !in Candidates(c, v, focus, now);
    }
  }

  /** Every replay list can come out of the loop, whatever its order; others is the order in which the rest
      of the window comes up. */
  lemma CollectAlone(c: Config, s: State, i: nat, focus: seq<Epc>, guarded: bool, now: int, replay: seq<Epc>)
    returns (others: seq<Epc>)
    requires Free(s, i) && s.callers[i] == Collecting(NonEmpty(focus), guarded)
    requires IsReplay(c, Shares(s), focus, now, replay)
    ensures CallerDid(s, i, After(c, s, CollectSteps(i, now, replay, others)), Collects(c, Shares(s), now),
                      if guarded then Pipeline.Collected(replay) else Pipeline.Next(replay))
  {
    var pending := Sought(RecentSeen.Fresh(s.recentSeen, now, c.ttl), NonEmpty(focus));
    others := SomeOrder(pending - Elements(replay));
    ReplayIsPicked(c, Shares(s), focus, now, replay, others);
    assert Elements(replay) + Elements(others) == pending;
    var a := CallerMoves(c, s, i, Collect(now));
    AfterOne(c, s, ByCaller(i, Collect(now)));
    AfterBoth(c, s, [ByCaller(i, Collect(now))], LoopSteps(i, replay, others));
    LoopAlone(c, a, i, [], guarded, replay, others);
    assert [] + replay == replay;
    var u := After(c, a, LoopSteps(i, replay, others));
    CallerDidBoth(s, i, a, u, Shares(a), Shares(u), a.callers[i], u.callers[i]);
  }

  function LoopSteps(i: nat, replay: seq<Epc>, others: seq<Epc>): seq<Action> {
    Asking(i, replay) + (Asking(i, others) + [ByCaller(i, Release)])
  }

  lemma LoopAlone(c: Config, s: State, i: nat, found: seq<Epc>, guarded: bool, replay: seq<Epc>, others: seq<Epc>)
    requires i < |s.callers| && s.callers[i] == Picking(Elements(replay) + Elements(others), found, guarded)
    requires Distinct(replay) && Distinct(others) && Elements(replay) !! Elements(others)
    requires forall e | e in replay :: Picked(s.cache, e) == [e]
    requires forall e | e in others :: Picked(s.cache, e) == []
    ensures CallerDid(s, i, After(c, s, LoopSteps(i, replay, others)), Shares(s),
                      if guarded then Pipeline.Collected(found + replay) else Pipeline.Next(found + replay))
  {
    var last := [ByCaller(i, Release)];
    AfterBoth(c, s, Asking(i, replay), Asking(i, others) + last);
    AskingAlone(c, s, i, replay, true);
    var t := After(c, s, Asking(i, replay));
    AfterBoth(c, t, Asking(i, others), last);
    assert Elements(replay) + Elements(others) - Elements(replay) == Elements(others);
    AskingAlone(c, t, i, others, false);
    var u := After(c, t, Asking(i, others));
    assert found + replay + [] == found + replay;
    assert Elements(others) - Elements(others) == {};
    CallerDidBoth(s, i, t, u, Shares(s), Shares(s), t.callers[i], Picking({}, found + replay, guarded));
    ReleaseAlone(c, u, i, found + replay, guarded);
    var v := After(c, u, last);
    CallerDidBoth(s, i, u, v, Shares(s), Shares(s), u.callers[i], v.callers[i]);
  }

  // ----- Switching the scan on, and new drafts -----

  lemma SwitchOnAlone(c: Config, s: State, i: nat, now: int, replay: seq<Epc>) returns (others: seq<Epc>)
    requires Free(s, i) && s.callers[i] == Resting && !s.scanActive
    requires IsReplay(c, Shares(s), [], now, replay)
    ensures var t := After(c, s, [ByCaller(i, SetScanActive(true))]
                                 + (CollectSteps(i, now, replay, others) + ReplaySteps(i, |replay|)));
            CallerDid(s, i, t, Replayed(c, Shares(s).(scanActive := true), now, replay), Resting)
  {
    var on := [ByCaller(i, SetScanActive(true))];
    Unblocked(c, s, i, SetScanActive(true));
    var a := CallerMoves(c, s, i, SetScanActive(true));
    AfterOne(c, s, on[0]);
    assert NonEmpty([]) == {};
    others := CollectAlone(c, a, i, [], false, now, replay);
    AfterBoth(c, s, on, CollectSteps(i, now, replay, others) + ReplaySteps(i, |replay|));
    CollectedReplays(c, a, i, CollectSteps(i, now, replay, others), Collects(c, Shares(a), now), replay);
    var u := After(c, a, CollectSteps(i, now, replay, others) + ReplaySteps(i, |replay|));
    CallerDidBoth(s, i, a, u, Shares(a), Shares(u), a.callers[i], Resting);
  }

  /** Switching off, or to what it is, only sets the flag. */
  lemma SwitchOtherwiseAlone(c: Config, s: State, i: nat, active: bool)
    requires Free(s, i) && s.callers[i] == Resting && (!active || s.scanActive)
    ensures CallerDid(s, i, After(c, s, [ByCaller(i, SetScanActive(active))]),
                      Shares(s).(scanActive := active), Resting)
  {
    Unblocked(c, s, i, SetScanActive(active));
    AfterOne(c, s, ByCaller(i, SetScanActive(active)));
    assert s.callers[i := Resting] == s.callers;
  }

  lemma CollectedReplays(c: Config, s: State, i: nat, steps: seq<Action>, v: Shared, replay: seq<Epc>)
    requires Free(s, i) && CallerDid(s, i, After(c, s, steps), v, Pipeline.Next(replay))
    ensures CallerDid(s, i, After(c, s, steps + ReplaySteps(i, |replay|)), EnqueuedAll(c, v, replay), Resting)
  {
    var t := After(c, s, steps);
    AfterBoth(c, s, steps, ReplaySteps(i, |replay|));
    StaysFree(s, i, t, v, Pipeline.Next(replay));
    ReplayAlone(c, t, i, replay);
    CallerDidBoth(s, i, t, After(c, t, ReplaySteps(i, |replay|)), v, EnqueuedAll(c, v, replay),
                  Pipeline.Next(replay), Resting);
  }

  function DraftsSteps(i: nat, step: CallerStep, now: int, replay: seq<Epc>, others: seq<Epc>, n: nat): seq<Action> {
    [ByCaller(i, step)] + (CollectSteps(i, now, replay, others) + [ByCaller(i, AskScanActive)] + ReplaySteps(i, n))
  }

  /** The drafts replace the cache, or are added to it. */
  lemma DraftsAlone(
      c: Config, s: State, i: nat, step: CallerStep, cache: set<Epc>, now: int, replay: seq<Epc>)
    returns (others: seq<Epc>)
    requires Free(s, i) && s.callers[i] == Resting && (step.ReplaceCache? || step.AddToCache?)
    requires cache == if step.ReplaceCache? then NonEmpty(step.drafts) else s.cache + NonEmpty(step.drafts)
    requires IsReplay(c, Shares(s).(cache := cache), step.drafts, now, replay)
    ensures var n := if s.scanActive then |replay| else 0;
            CallerDid(s, i, After(c, s, DraftsSteps(i, step, now, replay, others, n)),
                      Replayed(c, Shares(s).(cache := cache), now, replay), Resting)
  {
    var a := CallerMoves(c, s, i, step);
    var n := if s.scanActive then |replay| else 0;
    Unblocked(c, s, i, step);
    AfterOne(c, s, ByCaller(i, step));
    assert CallerDid(s, i, a, Shares(s).(cache := cache), Collecting(NonEmpty(step.drafts), true));
    others := CollectAlone(c, a, i, step.drafts, true, now, replay);
    var steps := CollectSteps(i, now, replay, others) + [ByCaller(i, AskScanActive)];
    AfterBoth(c, s, [ByCaller(i, step)], steps + ReplaySteps(i, n));
    AskScanActiveAlone(c, a, i, CollectSteps(i, now, replay, others), Collects(c, Shares(a), now), replay);
    if s.scanActive {
      CollectedReplays(c, a, i, steps, Collects(c, Shares(a), now), replay);
    } else {
      assert steps + [] == steps;
    }
    var u := After(c, a, steps + ReplaySteps(i, n));
    CallerDidBoth(s, i, a, u, Shares(a), Shares(u), a.callers[i], Resting);
  }

  lemma AskScanActiveAlone(c: Config, s: State, i: nat, steps: seq<Action>, v: Shared, replay: seq<Epc>)
    requires Free(s, i) && CallerDid(s, i, After(c, s, steps), v, Pipeline.Collected(replay))
    ensures CallerDid(s, i, After(c, s, steps + [ByCaller(i, AskScanActive)]), v,
                      if v.scanActive then Pipeline.Next(replay) else Resting)
  {
    var t := After(c, s, steps);
    AfterBoth(c, s, steps, [ByCaller(i, AskScanActive)]);
    AfterOne(c, t, ByCaller(i, AskScanActive));
    StaysFree(s, i, t, v, Pipeline.Collected(replay));
    Unblocked(c, t, i, AskScanActive);
  }

  // ----- A worker's turn -----

  predicate WorkerDid(s: State, j: nat, t: State, v: Shared, here: Worker)
    requires j < |s.workers|
  {
    t.workers == s.workers[j := here] && t.callers == s.callers && Shares(t) == v
  }

  lemma WorkerDidBoth(s: State, j: nat, t: State, u: State, v: Shared, w: Shared, mid: Worker, here: Worker)
    requires j < |s.workers| && WorkerDid(s, j, t, v, mid) && WorkerDid(t, j, u, w, here)
    ensures WorkerDid(s, j, u, w, here)
  {}

  /** Worker j may take any step. */
  predicate WorkerFree(s: State, j: nat) {
    j < |s.workers| && !MutexHeld(s)
  }

  lemma WorkerUnblocked(c: Config, s: State, j: nat, step: WorkerStep)
    requires WorkerFree(s, j)
    ensures Moves(c, s, ByWorker(j, step)) == WorkerMoves(c, s, j, step)
    ensures WorkerFree(WorkerMoves(c, s, j, step), j)
  {
    PipelineSafety.OnlyThisWorkerMoves(c, s, j, step);
  }

  /** The submit attempts from number k on. */
  function SubmitSteps(c: Config, j: nat, erp: nat -> Reply, k: nat): seq<Action>
    requires k <= c.submitRetry
    decreases c.submitRetry - k
  {
    [ByWorker(j, Submit(erp(k)))]
    + if Terminal(erp(k)) || k == c.submitRetry then [] else SubmitSteps(c, j, erp, k + 1)
  }

  function Replies(erp: nat -> Reply, n: nat): seq<Reply> {
    seq(n, k requires 0 <= k < n => erp(k))
  }

  /** Worker j has made its last attempt, number last, and nothing else has changed. */
  predicate Attempted(s: State, j: nat, t: State, epc: Epc, erp: nat -> Reply, last: nat)
    requires j < |s.workers|
  {
    WorkerDid(s, j, t, Shares(s),
              if Terminal(erp(last)) then Removing(epc, Replies(erp, last + 1))
              else Failing(epc, Replies(erp, last + 1)))
  }

  lemma AttemptedBehind(s: State, j: nat, t: State, u: State, epc: Epc, erp: nat -> Reply, last: nat)
    requires j < |s.workers| && j < |t.workers|
    requires t.workers == s.workers[j := t.workers[j]] && t.callers == s.callers && Shares(t) == Shares(s)
    requires Attempted(t, j, u, epc, erp, last)
    ensures Attempted(s, j, u, epc, erp, last)
  {}

  lemma {:induction false} SubmitAlone(c: Config, s: State, j: nat, epc: Epc, erp: nat -> Reply, k: nat)
    requires k <= c.submitRetry && j < |s.workers| && s.workers[j] == Submitting(epc, Replies(erp, k))
    ensures Attempted(s, j, After(c, s, SubmitSteps(c, j, erp, k)), epc, erp, LastAttempt(c.submitRetry, erp, k))
    decreases c.submitRetry - k
  {
    var first := [ByWorker(j, Submit(erp(k)))];
    AttemptAlone(c, s, j, epc, erp, k);
    if Terminal(erp(k)) || k == c.submitRetry {
      assert first + [] == first;
    } else {
      var t := After(c, s, first);
      var rest := SubmitSteps(c, j, erp, k + 1);
      SubmitAlone(c, t, j, epc, erp, k + 1);
      AfterBoth(c, s, first, rest);
      AttemptedBehind(s, j, t, After(c, t, rest), epc, erp, LastAttempt(c.submitRetry, erp, k + 1));
    }
  }

  lemma AttemptAlone(c: Config, s: State, j: nat, epc: Epc, erp: nat -> Reply, k: nat)
    requires k <= c.submitRetry && j < |s.workers| && s.workers[j] == Submitting(epc, Replies(erp, k))
    ensures WorkerDid(s, j, After(c, s, [ByWorker(j, Submit(erp(k)))]), Shares(s),
                      if Terminal(erp(k)) then Removing(epc, Replies(erp, k + 1))
                      else if k < c.submitRetry then Submitting(epc, Replies(erp, k + 1))
                      else Failing(epc, Replies(erp, k + 1)))
  {
    AfterOne(c, s, ByWorker(j, Submit(erp(k))));
    assert Replies(erp, k) + [erp(k)] == Replies(erp, k + 1);
  }

  function FinishSteps(j: nat): seq<Action> {
    [ByWorker(j, RemoveFromCache), ByWorker(j, CountResult), ByWorker(j, CountError)]
    + [ByWorker(j, UnlockInflight)]
  }

  lemma FinishAlone(c: Config, s: State, j: nat, epc: Epc, replies: seq<Reply>)
    requires WorkerFree(s, j) && replies != []
    requires s.workers[j] == if Terminal(replies[|replies| - 1]) then Removing(epc, replies) else Failing(epc, replies)
    ensures WorkerDid(s, j, After(c, s, FinishSteps(j)),
                      Settled(Shares(s), epc, replies[|replies| - 1]).(inflight := s.inflight - {epc}), Waiting)
  {
    var steps := [ByWorker(j, RemoveFromCache), ByWorker(j, CountResult), ByWorker(j, CountError)];
    WorkerUnblocked(c, s, j, RemoveFromCache);
    var a := WorkerMoves(c, s, j, RemoveFromCache);
    WorkerUnblocked(c, a, j, CountResult);
    var b := WorkerMoves(c, a, j, CountResult);
    WorkerUnblocked(c, b, j, CountError);
    var d := WorkerMoves(c, b, j, CountError);
    WorkerUnblocked(c, d, j, UnlockInflight);
    AfterThree(c, s, steps[0], steps[1], steps[2]);
    AfterOne(c, d, ByWorker(j, UnlockInflight));
    AfterBoth(c, s, steps, [ByWorker(j, UnlockInflight)]);
    assert a.workers[j] == if Terminal(replies[|replies| - 1]) then Counting(epc, replies) else Failing(epc, replies);
    assert d.workers[j] == Unlocking(epc);
  }

  function ProbeSteps(j: nat): seq<Action> {
    [ByWorker(j, Receive), ByWorker(j, ClearQueued), ByWorker(j, ProbeCache)]
  }

  lemma ProbeAlone(c: Config, s: State, j: nat)
    requires WorkerFree(s, j) && s.workers[j] == Waiting && s.channel != []
    ensures var epc := s.channel[0];
            WorkerDid(s, j, After(c, s, ProbeSteps(j)), Taken(Shares(s)),
                      if epc != "" && epc in s.cache then Present(epc) else Waiting)
  {
    WorkerUnblocked(c, s, j, Receive);
    var a := WorkerMoves(c, s, j, Receive);
    WorkerUnblocked(c, a, j, ClearQueued);
    var b := WorkerMoves(c, a, j, ClearQueued);
    WorkerUnblocked(c, b, j, ProbeCache);
    AfterThree(c, s, ByWorker(j, Receive), ByWorker(j, ClearQueued), ByWorker(j, ProbeCache));
    assert a.workers[j] == Received(s.channel[0]);
    assert b.workers[j] == Cleared(s.channel[0]);
  }

  lemma LockAlone(c: Config, s: State, j: nat)
    requires WorkerFree(s, j) && (s.workers[j].Present? || s.workers[j] == Waiting)
    ensures var t := After(c, s, [ByWorker(j, LockInflight)]);
            if s.workers[j].Present? && s.workers[j].epc !in s.inflight then
              WorkerDid(s, j, t, Shares(s).(inflight := s.inflight + {s.workers[j].epc}),
                        Submitting(s.workers[j].epc, []))
            else
              WorkerDid(s, j, t, Shares(s), Waiting)
  {
    WorkerUnblocked(c, s, j, LockInflight);
    AfterOne(c, s, ByWorker(j, LockInflight));
    if s.workers[j] == Waiting {
      assert s.workers[j := Waiting] == s.workers;
    }
  }

  lemma DeliverAlone(c: Config, s: State, j: nat, epc: Epc, erp: nat -> Reply)
    requires WorkerFree(s, j) && s.workers[j] == Submitting(epc, [])
    ensures WorkerDid(s, j, After(c, s, SubmitSteps(c, j, erp, 0) + FinishSteps(j)),
                      Settled(Shares(s), epc, erp(LastAttempt(c.submitRetry, erp, 0))).(inflight := s.inflight - {epc}),
                      Waiting)
  {
    var last := LastAttempt(c.submitRetry, erp, 0);
    var t := After(c, s, SubmitSteps(c, j, erp, 0));
    AfterBoth(c, s, SubmitSteps(c, j, erp, 0), FinishSteps(j));
    assert Replies(erp, 0) == [];
    SubmitAlone(c, s, j, epc, erp, 0);
    FinishAlone(c, t, j, epc, Replies(erp, last + 1));
    var u := After(c, t, FinishSteps(j));
    WorkerDidBoth(s, j, t, u, Shares(t), Shares(u), t.workers[j], Waiting);
  }

  function LockAndDeliver(c: Config, j: nat, erp: nat -> Reply, locks: bool): seq<Action> {
    [ByWorker(j, LockInflight)] + if locks then SubmitSteps(c, j, erp, 0) + FinishSteps(j) else []
  }

  function TurnSteps(c: Config, s: State, j: nat, erp: nat -> Reply): seq<Action>
    requires s.channel != []
  {
    ProbeSteps(j) + LockAndDeliver(c, j, erp, WillSubmit(Taken(Shares(s)), s.channel[0]))
  }

  /** From the lock on: what the sequential service does with an EPC that it has found in the cache. */
  lemma LockAndDeliverAlone(c: Config, s: State, j: nat, epc: Epc, erp: nat -> Reply)
    requires WorkerFree(s, j)
    requires s.workers[j] == if epc != "" && epc in s.cache then Present(epc) else Waiting
    ensures WorkerDid(s, j, After(c, s, LockAndDeliver(c, j, erp, WillSubmit(Shares(s), epc))),
                      Processed(c, Shares(s), epc, erp), Waiting)
  {
    var first := [ByWorker(j, LockInflight)];
    LockAlone(c, s, j);
    if WillSubmit(Shares(s), epc) {
      var t := After(c, s, first);
      AfterBoth(c, s, first, SubmitSteps(c, j, erp, 0) + FinishSteps(j));
      DeliverAlone(c, t, j, epc, erp);
      assert s.inflight + {epc} - {epc} == s.inflight;
      var u := After(c, t, SubmitSteps(c, j, erp, 0) + FinishSteps(j));
      WorkerDidBoth(s, j, t, u, Shares(t), Shares(u), t.workers[j], Waiting);
    } else {
      assert first + [] == first;
    }
  }

  lemma TurnAlone(c: Config, s: State, j: nat, erp: nat -> Reply)
    requires WorkerFree(s, j) && s.workers[j] == Waiting && s.channel != []
    ensures WorkerDid(s, j, After(c, s, TurnSteps(c, s, j, erp)),
                      Processed(c, Taken(Shares(s)), s.channel[0], erp), Waiting)
  {
    var epc := s.channel[0];
    var t := After(c, s, ProbeSteps(j));
    ProbeAlone(c, s, j);
    LockAndDeliverAlone(c, t, j, epc, erp);
    AfterBoth(c, s, ProbeSteps(j), LockAndDeliver(c, j, erp, WillSubmit(Taken(Shares(s)), epc)));
    var u := After(c, t, LockAndDeliver(c, j, erp, WillSubmit(Taken(Shares(s)), epc)));
    WorkerDidBoth(s, j, t, u, Shares(t), Shares(u), t.workers[j], Waiting);
  }
}
