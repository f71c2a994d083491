/** What a replay achieves, and what exactly it loses. */
module Replay {
  import opened Dedup
  import opened EpcLists
  import opened Epcs
  import opened RecentSeen
  import opened Service

  function Unknown(v: Shared): Epc -> bool {
    (e: Epc) => e != "" && !Known(v, e)
  }

  function News(v: Shared, epcs: seq<Epc>): seq<Epc> {
    Filter(Unknown(v), epcs)
  }

  /** What the free slots of the channel can take. */
  function Taking(c: Config, v: Shared, news: seq<Epc>): seq<Epc>
    requires |v.channel| <= c.queueSize
  {
    if |v.channel| + |news| <= c.queueSize then news else news[..c.queueSize - |v.channel|]
  }

  function Sent(v: Shared, took: seq<Epc>, dropped: nat): Shared {
    v.(channel := v.channel + took, queued := v.queued + Elements(took),
       stats := v.stats.(submits := v.stats.submits.(queueDropped := v.stats.submits.queueDropped + dropped)))
  }

  /** Enqueuing a list without repetition puts its new EPCs into the channel, in order, as far as there is
      room, and counts exactly the others as dropped. */
  lemma {:induction false} EnqueuedAllExactly(c: Config, v: Shared, epcs: seq<Epc>)
    requires Distinct(epcs) && |v.channel| <= c.queueSize
    ensures var took := Taking(c, v, News(v, epcs));
            EnqueuedAll(c, v, epcs) == Sent(v, took, |News(v, epcs)| - |took|)
  {
    if epcs == [] {
      assert v.channel + [] == v.channel;
    } else {
      var n := |epcs| - 1;
      EnqueuedAllExactly(c, v, epcs[..n]);
      FilterHas(Unknown(v), epcs[..n]);
      assert News(v, epcs[..n]) + [] == News(v, epcs[..n]);
      assert EnqueuedAll(c, v, epcs) == Enqueued(c, EnqueuedAll(c, v, epcs[..n]), epcs[n]);
      OneMore(c, v, News(v, epcs[..n]), epcs[n]);
    }
  }

  lemma OneMore(c: Config, v: Shared, news: seq<Epc>, e: Epc)
    requires |v.channel| <= c.queueSize && e !in news
    ensures var took := Taking(c, v, news);
            var before := Sent(v, took, |news| - |took|);
            var all := if Unknown(v)(e) then news + [e] else news;
            var takes := Taking(c, v, all);
            Enqueued(c, before, e) == Sent(v, takes, |all| - |takes|)
  {
    var took := Taking(c, v, news);
    var before := Sent(v, took, |news| - |took|);
    assert e !in took;
    assert Known(before, e) <==> Known(v, e);
    if Unknown(v)(e) {
      if |v.channel| + |news| < c.queueSize {
        assert v.channel + news + [e] == v.channel + (news + [e]);
        assert Elements(news + [e]) == Elements(news) + {e};
      } else {
        assert (news + [e])[..c.queueSize - |v.channel|] == news[..c.queueSize - |v.channel|];
      }
    }
  }

  function Unplaced(v: Shared, epcs: set<Epc>): set<Epc> {
    set e | e in epcs && e != "" && !Known(v, e)
  }

  /** What the free slots cannot take of n new EPCs. */
  function Excess(c: Config, v: Shared, n: nat): nat {
    if |v.channel| + n > c.queueSize then |v.channel| + n - c.queueSize else 0
  }

  lemma LossIsExact(c: Config, v: Shared, epcs: seq<Epc>)
    requires Distinct(epcs) && |v.channel| <= c.queueSize
    ensures var after := EnqueuedAll(c, v, epcs);
            && |Unplaced(after, Elements(epcs))| == Excess(c, v, |Unplaced(v, Elements(epcs))|)
            && after.stats.submits.queueDropped == v.stats.submits.queueDropped + |Unplaced(after, Elements(epcs))|
  {
    var news := News(v, epcs);
    EnqueuedAllExactly(c, v, epcs);
    NewsAreUnplaced(v, epcs);
    var took := Taking(c, v, news);
    var rest := news[|took|..];
    assert news == took + rest;
    RestIsUnplaced(v, epcs, took, rest);
  }

  lemma NewsAreUnplaced(v: Shared, epcs: seq<Epc>)
    requires Distinct(epcs)
    ensures Distinct(News(v, epcs))
    ensures |Unplaced(v, Elements(epcs))| == |News(v, epcs)|
  {
    FilterHas(Unknown(v), epcs);
    FilterStaysDistinct(Unknown(v), epcs);
    assert Elements(News(v, epcs)) == Unplaced(v, Elements(epcs));
    DistinctSize(News(v, epcs));
  }

  lemma RestIsUnplaced(v: Shared, epcs: seq<Epc>, took: seq<Epc>, rest: seq<Epc>)
    requires News(v, epcs) == took + rest && Distinct(took + rest)
    ensures |Unplaced(Sent(v, took, |rest|), Elements(epcs))| == |rest|
  {
    FilterHas(Unknown(v), epcs);
    forall i, j | 0 <= i < j < |rest| ensures rest[i] != rest[j] {
      assert (took + rest)[|took| + i] == rest[i] && (took + rest)[|took| + j] == rest[j];
    }
    forall i, j | 0 <= i < |took| && 0 <= j < |rest| ensures took[i] != rest[j] {
      assert (took + rest)[i] == took[i] && (took + rest)[|took| + j] == rest[j];
    }
    forall e ensures e in Elements(rest) <==> e in took + rest && e !in took {}
    assert Elements(rest) == Unplaced(Sent(v, took, |rest|), Elements(epcs));
    DistinctSize(rest);
  }

  /** Switching the scan on, with nobody taking from the channel meanwhile: every draft seen within the TTL
      is queued or in flight afterwards, except as many as QueueDropped has grown by, and that is the
      number of new ones beyond the free slots. Nothing that was known is forgotten. */
  lemma ReplayIsComplete(c: Config, v: Shared, now: int, replay: seq<Epc>)
    requires |v.channel| <= c.queueSize && IsReplay(c, v, [], now, replay)
    ensures var after := Replayed(c, v.(scanActive := true), now, replay);
            var wanted := Candidates(c, v, [], now);
            && |replay| == |wanted|
            && after.stats.submits.queueDropped - v.stats.submits.queueDropped == |Unplaced(after, wanted)|
            && |Unplaced(after, wanted)| == Excess(c, v, |Unplaced(v, wanted)|)
            && after.cache == v.cache && after.inflight == v.inflight
            && forall e | Known(v, e) :: Known(after, e)
  {
    var w := Collects(c, v.(scanActive := true), now);
    LossIsExact(c, w, replay);
    EnqueuedAllExactly(c, w, replay);
    DistinctSize(replay);
    assert Unplaced(w, Elements(replay)) == Unplaced(v, Elements(replay));
  }

  /** A tag that was sighted while the scan was off, or before its draft arrived, is not forgotten: if the
      clock only advances and the replay comes within the TTL of its last sighting, it is in the replay set,
      provided that it is a draft by then and in focus. A focus without a usable entry is no filter. */
  lemma SightingSurvives(c: Config, v: Shared, history: seq<Event>, focus: seq<Epc>, i: nat, now: int)
    requires v.recentSeen == Window(history, c.ttl)
    requires ClockAdvances(history + [Collected(now)])
    requires i < |history| && history[i].Saw? && LastSighting(history, history[i].epc, i)
    ensures var e := history[i].epc;
            e in Candidates(c, v, focus, now) <==>
            && e != "" && e in v.cache && now - history[i].at <= c.ttl
            && (e in focus || forall f | f in focus :: f == "")
  {
    var all := history + [Collected(now)];
    var e := history[i].epc;
    WindowAfter(history, Collected(now), c.ttl);
    WindowRefinesHistory(all, c.ttl);
    SightingsAreExact(history, e);
    assert all[..|history|] == history;
    assert Sightings(all) == Sightings(history);
    if f :| f in focus && f != "" {
      assert f in NonEmpty(focus);
    } else {
      assert NonEmpty(focus) == {};
    }
  }

  /** Adding drafts replays only EPCs of those drafts, unless the list has no usable EPC and there is
      something else to replay: an empty focus means no filter. */
  lemma OnlyAddedDraftsAreReplayedIff(c: Config, v: Shared, raw: seq<string>, now: int)
    ensures Candidates(c, v, Cleaned(raw), now) <= Elements(Cleaned(raw))
            <==> Cleaned(raw) != [] || Candidates(c, v, [], now) == {}
  {
    CleanedIsCanonical(raw);
    assert NonEmpty(Cleaned(raw)) == Elements(Cleaned(raw));
    if Cleaned(raw) != [] {
      assert Cleaned(raw)[0] in Elements(Cleaned(raw));
    }
  }

  /** A list in which no entry has a hexadecimal digit, the empty list for one, replays drafts that have
      nothing to do with it. */
  lemma NoUsableDraftReplaysAll(c: Config, v: Shared, raw: seq<string>, epc: Epc, now: int)
    requires forall i | 0 <= i < |raw| :: Normalize(raw[i]) == ""
    requires epc in Candidates(c, v, [], now)
    ensures Cleaned(raw) == [] && epc in Candidates(c, v, Cleaned(raw), now)
  {
    CleanedIsCanonical(raw);
    DistinctSize(Cleaned(raw));
    assert Elements(Cleaned(raw)) == {};
  }
}
