/** What one call of the service answers and counts, field by field. */
module ServiceCalls {
  import opened Epcs
  import opened Service
  import P = Pipeline

  function One(b: bool): nat {
    if b then 1 else 0
  }

  /** A tag is answered by exactly one of five outcomes, and it is queued exactly when the channel has
      grown by it. Each outcome has its own counter. */
  lemma HandleIsCounted(c: Config, v: Shared, epc: Epc, now: int)
    ensures var (after, answer) := Handled(c, v, epc, now);
            && (answer == Invalid <==> epc == "")
            && (answer == ScanInactive(epc) <==> epc != "" && !v.scanActive)
            && (answer == Miss(epc) <==> epc != "" && v.scanActive && epc !in v.cache)
            && (answer == Queued(epc) <==> after.channel == v.channel + [epc])
            && (answer == QueuedOrDropped(epc) <==>
                  epc != "" && v.scanActive && epc in v.cache && after.channel == v.channel)
            && after.stats.tags.seenTotal == v.stats.tags.seenTotal + One(answer != Invalid)
            && after.stats.tags.scanInactive == v.stats.tags.scanInactive + One(answer.ScanInactive?)
            && after.stats.tags.cacheMisses == v.stats.tags.cacheMisses + One(answer.Miss?)
            && after.stats.tags.cacheHits == v.stats.tags.cacheHits + One(answer.Queued? || answer.QueuedOrDropped?)
  {
    var (after, answer) := Handled(c, v, epc, now);
    assert after.channel == v.channel || after.channel == v.channel + [epc];
    assert |v.channel + [epc]| == |v.channel| + 1;
  }

  /** What the answer does not say: the reservation goes with the channel, and a drop is counted exactly for
      a new draft that finds the channel full. */
  lemma HandleReserves(c: Config, v: Shared, epc: Epc, now: int)
    ensures var (after, answer) := Handled(c, v, epc, now);
            && after.queued == (if answer.Queued? then v.queued + {epc} else v.queued)
            && after.stats.submits == v.stats.submits.(
                 queueDropped := v.stats.submits.queueDropped
                                 + One(answer.QueuedOrDropped? && epc !in v.queued && epc !in v.inflight))
            && (answer.QueuedOrDropped? ==> epc in v.queued || epc in v.inflight || |v.channel| >= c.queueSize)
            && after.cache == v.cache && after.inflight == v.inflight && after.scanActive == v.scanActive
  {}

  /** The attempts end at the first reply that is not a failure, or when the retries are used up; the last
      reply alone decides which one of the three counters is raised, and whether the draft is settled. */
  lemma SubmitIsCounted(c: Config, v: Shared, epc: Epc, erp: nat -> P.Reply)
    requires WillSubmit(v, epc)
    ensures var last := LastAttempt(c.submitRetry, erp, 0);
            var after := Processed(c, v, epc, erp);
            && (forall i: nat | i < last :: erp(i) == P.Failure)
            && (erp(last) == P.Failure ==> last == c.submitRetry)
            && after.stats.submits.submittedOK == v.stats.submits.submittedOK + One(erp(last) == P.Submitted)
            && after.stats.submits.submitNotFound == v.stats.submits.submitNotFound + One(erp(last) == P.NotFound)
            && after.stats.submits.submitErrors == v.stats.submits.submitErrors + One(erp(last) == P.Failure)
            && after.cache == (if erp(last) == P.Failure then v.cache else v.cache - {epc})
            && after == v.(cache := after.cache, stats := after.stats)
            && after.stats.tags == v.stats.tags
            && after.stats.submits.queueDropped == v.stats.submits.queueDropped
  {
    var last := LastAttempt(c.submitRetry, erp, 0);
    forall i: nat | i < last ensures erp(i) == P.Failure {
      assert !P.Terminal(erp(i));
    }
  }

  /** An EPC that is empty, no draft or in flight is passed over. */
  lemma OthersAreSkipped(c: Config, v: Shared, epc: Epc, erp: nat -> P.Reply)
    ensures epc == "" || epc !in v.cache || epc in v.inflight ==> Processed(c, v, epc, erp) == v
    ensures epc != "" && epc in v.cache && epc !in v.inflight <==> WillSubmit(v, epc)
  {}

  /** While the scan is off, new drafts put nothing into the channel and count nothing. */
  lemma NothingIsReplayedWhileOff(c: Config, v: Shared, now: int, replay: seq<Epc>)
    requires !v.scanActive
    ensures var after := Replayed(c, v, now, replay);
            after == v.(recentSeen := after.recentSeen)
  {}
}
