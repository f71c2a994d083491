/**
 The submit service one call at a time: a class with the fields and methods of
 the gateway's service, and functions on its shared state that say what each call
 does. How calls interleave is the subject of the pipeline modules.
 */
module Service {
  import opened Folds
  import opened Dedup
  import opened EpcLists
  import opened Epcs
  import opened RecentSeen
  import opened CacheStore
  import P = Pipeline

  type Config = P.Config

  /** Everything that callers and workers share. */
  datatype Shared = Shared(
    channel: seq<Epc>,
    queued: set<Epc>,
    inflight: set<Epc>,
    cache: set<Epc>,
    recentSeen: map<Epc, int>,
    scanActive: bool,
    stats: P.Stats)

  // ----- What one call does -----

  predicate Known(v: Shared, epc: Epc) {
    epc in v.queued || epc in v.inflight
  }

  predicate Accepts(c: Config, v: Shared, epc: Epc) {
    epc != "" && !Known(v, epc) && |v.channel| < c.queueSize
  }

  function Enqueued(c: Config, v: Shared, epc: Epc): Shared {
    if Accepts(c, v, epc) then
      v.(channel := v.channel + [epc], queued := v.queued + {epc})
    else if epc != "" && !Known(v, epc) then
      v.(stats := v.stats.CountDrop())
    else
      v
  }

  function Enqueuer(c: Config): (Shared, Epc) -> Shared {
    (v: Shared, epc: Epc) => Enqueued(c, v, epc)
  }

  function EnqueuedAll(c: Config, v: Shared, epcs: seq<Epc>): Shared {
    FoldLeft(Enqueuer(c), v, epcs)
  }

  datatype Ingest = Invalid | ScanInactive(epc: Epc) | Miss(epc: Epc) | Queued(epc: Epc) | QueuedOrDropped(epc: Epc)

  function Sighted(c: Config, v: Shared, epc: Epc, now: int): Shared {
    v.(recentSeen := Fresh(v.recentSeen[epc := now], now, c.ttl),
       stats := v.stats.CountSeen(v.scanActive))
  }

  function Hit(v: Shared): Shared {
    v.(stats := v.stats.CountHit())
  }

  function Missed(v: Shared): Shared {
    v.(stats := v.stats.CountMiss())
  }

  function Handled(c: Config, v: Shared, epc: Epc, now: int): (Shared, Ingest) {
    var seen := Sighted(c, v, epc, now);
    if epc == "" then
      (v, Invalid)
    else if !v.scanActive then
      (seen, ScanInactive(epc))
    else if epc !in v.cache then
      (Missed(seen), Miss(epc))
    else
      (Enqueued(c, Hit(seen), epc), if Accepts(c, v, epc) then Queued(epc) else QueuedOrDropped(epc))
  }

  /** An empty focus is no filter. */
  predicate InFocus(focus: seq<Epc>, epc: Epc) {
    NonEmpty(focus) == {} || epc in NonEmpty(focus)
  }

  /** The replay set: seen within the TTL, a draft, and in focus. */
  function Candidates(c: Config, v: Shared, focus: seq<Epc>, now: int): set<Epc> {
    set e | e in Fresh(v.recentSeen, now, c.ttl) && InFocus(focus, e) && e != "" && e in v.cache
  }

  function Collects(c: Config, v: Shared, now: int): Shared {
    v.(recentSeen := Fresh(v.recentSeen, now, c.ttl))
  }

  /** A replay list holds the whole replay set, each EPC once, in any order. */
  predicate IsReplay(c: Config, v: Shared, focus: seq<Epc>, now: int, replay: seq<Epc>) {
    Distinct(replay) && Elements(replay) == Candidates(c, v, focus, now)
  }

  /** New drafts arrived: collect what has been seen of them, and enqueue it if the scan is on. */
  function Replayed(c: Config, v: Shared, now: int, replay: seq<Epc>): Shared {
    if v.scanActive then EnqueuedAll(c, Collects(c, v, now), replay) else Collects(c, v, now)
  }

  /** The number of the last attempt: the first one with a terminal reply, or else the last one allowed. */
  function LastAttempt(retries: nat, erp: nat -> P.Reply, k: nat): (last: nat)
    requires k <= retries
    ensures k <= last <= retries
    ensures P.Terminal(erp(last)) || last == retries
    ensures forall i | k <= i < last :: !P.Terminal(erp(i))
    decreases retries - k
  {
    if P.Terminal(erp(k)) || k == retries then k else LastAttempt(retries, erp, k + 1)
  }

  predicate WillSubmit(v: Shared, epc: Epc) {
    epc != "" && epc in v.cache && epc !in v.inflight
  }

  function Counted(v: Shared, reply: P.Reply): Shared {
    match reply
    case Submitted => v.(stats := v.stats.CountSubmitted())
    case NotFound => v.(stats := v.stats.CountNotFound())
    case Failure => v.(stats := v.stats.CountError())
  }

  function Settled(v: Shared, epc: Epc, reply: P.Reply): Shared {
    Counted(if P.Terminal(reply) then v.(cache := v.cache - {epc}) else v, reply)
  }

  function Processed(c: Config, v: Shared, epc: Epc, erp: nat -> P.Reply): Shared {
    if WillSubmit(v, epc) then Settled(v, epc, erp(LastAttempt(c.submitRetry, erp, 0))) else v
  }

  /** After so many calls, exactly the counter of the last reply has been raised, by one. */
  predicate Tallies(was: P.Submits, now: P.Submits, calls: nat, erp: nat -> P.Reply) {
    && now.submittedOK == was.submittedOK + (if calls > 0 && erp(calls - 1) == P.Submitted then 1 else 0)
    && now.submitNotFound == was.submitNotFound + (if calls > 0 && erp(calls - 1) == P.NotFound then 1 else 0)
    && now.submitErrors == was.submitErrors + (if calls > 0 && erp(calls - 1) == P.Failure then 1 else 0)
    && now.queueDropped == was.queueDropped
  }

  function Taken(v: Shared): Shared
    requires v.channel != []
  {
    v.(channel := v.channel[1..], queued := v.queued - {v.channel[0]})
  }

  // ----- The service -----

  class Service {
    const c: Config
    const cache: Store
    var channel: seq<Epc>
    var queued: set<Epc>
    var inflight: set<Epc>
    var recentSeen: map<Epc, int>
    var scanActive: bool
    var stats: P.Stats
    ghost var history: seq<Event>

    function View(): Shared
      reads this, cache
    {
      Shared(channel, queued, inflight, cache.epcs, recentSeen, scanActive, stats)
    }

    /** The channel keeps its bound, has no duplicates and is all reserved, and recentSeen is the window on
        the history of sightings and collections. */
    ghost predicate Valid()
      reads this, cache
    {
      && cache.Valid()
      && |channel| <= c.queueSize && Distinct(channel) && Elements(channel) <= queued
      && recentSeen == Window(history, c.ttl)
    }

    constructor (c: Config, cache: Store, scanDefaultActive: bool)
      requires cache.Valid()
      ensures Valid() && this.c == c && this.cache == cache && history == []
      ensures View() == Shared([], {}, {}, cache.epcs, map[], scanDefaultActive, P.NO_STATS)
    {
      this.c := c;
      this.cache := cache;
      channel, queued, inflight, recentSeen, history := [], {}, {}, map[], [];
      scanActive := scanDefaultActive;
      stats := P.NO_STATS;
    }

    method Enqueue(epc: Epc) returns (ok: bool)
      requires Valid()
      modifies this
      ensures Valid() && history == old(history)
      ensures ok == Accepts(c, old(View()), epc)
      ensures View() == Enqueued(c, old(View()), epc)
    {
      if epc == "" || epc in queued || epc in inflight {
        return false;
      }
      queued := queued + {epc};
      if |channel| < c.queueSize {
        channel := channel + [epc];
        return true;
      }
      queued := queued - {epc};
      stats := stats.CountDrop();
      return false;
    }

    method EnqueueEach(epcs: seq<Epc>)
      requires Valid()
      modifies this
      ensures Valid() && history == old(history)
      ensures View() == EnqueuedAll(c, old(View()), epcs)
    {
      for i := 0 to |epcs|
        invariant Valid() && history == old(history)
        invariant View() == EnqueuedAll(c, old(View()), epcs[..i])
      {
        assert epcs[..i + 1][..i] == epcs[..i];
        var _ := Enqueue(epcs[i]);
      }
      assert epcs[..|epcs|] == epcs;
    }

    method GcRecentSeen(now: int)
      modifies this`recentSeen
      ensures recentSeen == Fresh(old(recentSeen), now, c.ttl)
    {
      var pending := recentSeen.Keys;
      while pending != {}
        invariant pending <= recentSeen.Keys <= old(recentSeen).Keys
        invariant forall e | e in recentSeen :: recentSeen[e] == old(recentSeen)[e]
        invariant forall e | e in old(recentSeen) ::
                    e in recentSeen <==> e in pending || now - old(recentSeen)[e] <= c.ttl
        decreases |pending|
      {
        var epc :| epc in pending;
        pending := pending - {epc};
        if now - recentSeen[epc] > c.ttl {
          recentSeen := recentSeen - {epc};
        }
      }
    }

    /** The section of HandleEPC under the mutex. */
    method Sight(epc: Epc, now: int)
      requires Valid()
      modifies this
      ensures Valid() && history == old(history) + [Saw(epc, now)]
      ensures View() == Sighted(c, old(View()), epc, now)
    {
      WindowAfter(history, Saw(epc, now), c.ttl);
      recentSeen := recentSeen[epc := now];
      GcRecentSeen(now);
      history := history + [Saw(epc, now)];
      stats := stats.(tags := stats.tags.(seenTotal := stats.tags.seenTotal + 1));
      if !scanActive {
        stats := stats.(tags := stats.tags.(scanInactive := stats.tags.scanInactive + 1));
      }
    }

    method HandleEPC(rawEPC: string, now: int) returns (result: Ingest)
      requires Valid()
      modifies this
      ensures Valid()
      ensures history == old(history) + if Normalize(rawEPC) == "" then [] else [Saw(Normalize(rawEPC), now)]
      ensures View() == Handled(c, old(View()), Normalize(rawEPC), now).0
      ensures result == Handled(c, old(View()), Normalize(rawEPC), now).1
    {
      var epc := NormalizeEPC(rawEPC);
      result := HandleNormalized(epc, now);
    }

    method HandleNormalized(epc: Epc, now: int) returns (result: Ingest)
      requires Valid()
      modifies this
      ensures Valid()
      ensures history == old(history) + if epc == "" then [] else [Saw(epc, now)]
      ensures View() == Handled(c, old(View()), epc, now).0
      ensures result == Handled(c, old(View()), epc, now).1
    {
      if epc == "" {
        assert history + [] == history;
        return Invalid;
      }
      Sight(epc, now);
      if !scanActive {
        return ScanInactive(epc);
      }
      if !cache.Has(epc) {
        stats := stats.CountMiss();
        return Miss(epc);
      }
      stats := stats.CountHit();
      var ok := Enqueue(epc);
      return if ok then Queued(epc) else QueuedOrDropped(epc);
    }

    method CollectReplayCandidates(now: int, focus: seq<Epc>) returns (out: seq<Epc>)
      requires Valid()
      modifies this
      ensures Valid() && history == old(history) + [Collected(now)]
      ensures IsReplay(c, old(View()), focus, now, out)
      ensures View() == Collects(c, old(View()), now)
    {
      var focusSet := FocusSet(focus);
      WindowAfter(history, Collected(now), c.ttl);
      GcRecentSeen(now);
      history := history + [Collected(now)];
      out := SelectCandidates(focusSet);
      SelectedAreCandidates(c, old(View()), focus, now, out);
    }

    method FocusSet(focus: seq<Epc>) returns (focusSet: set<Epc>)
      ensures focusSet == NonEmpty(focus)
    {
      focusSet := {};
      for i := 0 to |focus|
        invariant focusSet == NonEmpty(focus[..i])
      {
        NonEmptyOneMore(focus, i);
        if focus[i] != "" {
          focusSet := focusSet + {focus[i]};
        }
      }
      assert focus[..|focus|] == focus;
    }

    /** The loop over recentSeen, in whatever order the map yields its keys. */
    method SelectCandidates(focusSet: set<Epc>) returns (out: seq<Epc>)
      ensures Distinct(out)
      ensures forall e :: e in out <==>
                e in recentSeen && (focusSet == {} || e in focusSet) && e != "" && e in cache.epcs
    {
      out := [];
      var pending := recentSeen.Keys;
      while pending != {}
        invariant pending <= recentSeen.Keys
        invariant Distinct(out)
        invariant forall e :: e in out <==>
                    && e in recentSeen.Keys - pending
                    && (focusSet == {} || e in focusSet) && e != "" && e in cache.epcs
        decreases |pending|
      {
        var epc :| epc in pending;
        pending := pending - {epc};
        if focusSet != {} && epc !in focusSet {
          continue;
        }
        if cache.Has(epc) {
          out := out + [epc];
        }
      }
    }

    /** Returns the size of the replay set when this switches the scan on, and zero otherwise. */
    method SetScanActive(active: bool, now: int) returns (count: nat, ghost replay: seq<Epc>)
      requires Valid()
      modifies this
      ensures Valid() && count == |replay|
      ensures if active && !old(scanActive) then
                && history == old(history) + [Collected(now)]
                && IsReplay(c, old(View()), [], now, replay)
                && View() == Replayed(c, old(View()).(scanActive := true), now, replay)
              else
                && history == old(history) && replay == []
                && View() == old(View()).(scanActive := active)
    {
      var becameActive := active && !scanActive;
      scanActive := active;
      if !becameActive {
        return 0, [];
      }
      var found := CollectReplayCandidates(now, []);
      EnqueueEach(found);
      return |found|, found;
    }

    /** Returns how many drafts are new to the cache, and the size of the replay set. */
    method AddDraftEPCs(epcs: seq<string>, now: int) returns (added: nat, count: nat, ghost replay: seq<Epc>)
      requires Valid()
      modifies this, cache
      ensures Valid() && count == |replay| && history == old(history) + [Collected(now)]
      ensures added == |NonEmpty(Cleaned(epcs)) - old(cache.epcs)|
      ensures var v := old(View()).(cache := old(cache.epcs) + NonEmpty(Cleaned(epcs)));
              IsReplay(c, v, Cleaned(epcs), now, replay) && View() == Replayed(c, v, now, replay)
    {
      var clean := NormalizeEPCList(epcs);
      added := cache.Add(clean);
      var found := CollectReplayCandidates(now, clean);
      if scanActive {
        EnqueueEach(found);
      }
      count, replay := |found|, found;
    }

    /** The cache becomes what the ERP has just sent. */
    method RefreshCache(fetched: seq<Epc>, now: int) returns (ghost replay: seq<Epc>)
      requires Valid()
      modifies this, cache
      ensures Valid() && history == old(history) + [Collected(now)]
      ensures var v := old(View()).(cache := NonEmpty(fetched));
              IsReplay(c, v, fetched, now, replay) && View() == Replayed(c, v, now, replay)
    {
      cache.Replace(fetched);
      var found := CollectReplayCandidates(now, fetched);
      if scanActive {
        EnqueueEach(found);
      }
      replay := found;
    }

    method LockInflight(epc: Epc) returns (ok: bool)
      requires Valid()
      modifies this
      ensures Valid() && history == old(history)
      ensures ok == (epc !in old(inflight))
      ensures View() == old(View()).(inflight := old(inflight) + {epc})
    {
      if epc in inflight {
        assert inflight + {epc} == inflight;
        return false;
      }
      inflight := inflight + {epc};
      return true;
    }

    method UnlockInflight(epc: Epc)
      requires Valid()
      modifies this
      ensures Valid() && history == old(history)
      ensures View() == old(View()).(inflight := old(inflight) - {epc})
    {
      inflight := inflight - {epc};
    }

    /** Submits at most submitRetry + 1 times; erp says what each attempt is answered. */
    method ProcessSubmit(epc: Epc, erp: nat -> P.Reply) returns (calls: nat)
      requires Valid()
      modifies this, cache
      ensures Valid() && history == old(history)
      ensures calls == if WillSubmit(old(View()), epc) then LastAttempt(c.submitRetry, erp, 0) + 1 else 0
      ensures View() == Processed(c, old(View()), epc, erp)
      ensures calls > 0 <==> epc != "" && epc in old(cache.epcs) && epc !in old(inflight)
      ensures Tallies(old(stats.submits), stats.submits, calls, erp)
    {
      if epc == "" || !cache.Has(epc) {
        return 0;
      }
      var locked := LockInflight(epc);
      if !locked {
        assert inflight == old(inflight);
        return 0;
      }
      calls := SubmitLocked(epc, erp);
      UnlockInflight(epc);
      assert inflight == old(inflight);
    }

    method SubmitLocked(epc: Epc, erp: nat -> P.Reply) returns (calls: nat)
      requires Valid()
      modifies this, cache
      ensures Valid() && history == old(history)
      ensures calls == LastAttempt(c.submitRetry, erp, 0) + 1
      ensures View() == Settled(old(View()), epc, erp(calls - 1))
    {
      var attempt := 0;
      while attempt <= c.submitRetry
        invariant attempt <= c.submitRetry + 1
        invariant Valid() && history == old(history) && View() == old(View())
        invariant attempt <= c.submitRetry ==>
                    LastAttempt(c.submitRetry, erp, 0) == LastAttempt(c.submitRetry, erp, attempt)
        invariant attempt == c.submitRetry + 1 ==>
                    LastAttempt(c.submitRetry, erp, 0) == c.submitRetry && !P.Terminal(erp(c.submitRetry))
      {
        var reply := erp(attempt);
        attempt := attempt + 1;
        if P.Terminal(reply) {
          cache.Remove(epc);
          if reply.Submitted? {
            stats := stats.CountSubmitted();
          } else {
            stats := stats.CountNotFound();
          }
          return attempt;
        }
      }
      stats := stats.CountError();
      return attempt;
    }

    /** One turn of a worker that finds the channel not empty. */
    method WorkerTurn(erp: nat -> P.Reply) returns (calls: nat)
      requires Valid() && channel != []
      modifies this, cache
      ensures Valid() && history == old(history)
      ensures View() == Processed(c, Taken(old(View())), old(channel)[0], erp)
      ensures Tallies(old(stats.submits), stats.submits, calls, erp)
    {
      var epc := channel[0];
      TakingKeeps(channel, queued);
      channel := channel[1..];
      queued := queued - {epc};
      calls := ProcessSubmit(epc, erp);
    }
  }

  lemma SelectedAreCandidates(c: Config, v: Shared, focus: seq<Epc>, now: int, out: seq<Epc>)
    requires forall e :: e in out <==>
               && e in Fresh(v.recentSeen, now, c.ttl) && (NonEmpty(focus) == {} || e in NonEmpty(focus))
               && e != "" && e in v.cache
    ensures Elements(out) == Candidates(c, v, focus, now)
  {}

  lemma TakingKeeps(channel: seq<Epc>, queued: set<Epc>)
    requires channel != [] && Distinct(channel) && Elements(channel) <= queued
    ensures Distinct(channel[1..]) && Elements(channel[1..]) <= queued - {channel[0]}
  {
    forall e | e in channel[1..] ensures e in queued && e != channel[0] {
      assert e in channel && e in Elements(channel);
    }
  }
}
