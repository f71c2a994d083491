/**
 The recently-seen window of the service: a map from EPC to the time of its last
 sighting, from which every operation eagerly deletes what is older than the TTL.
 */
module RecentSeen {
  import opened Epcs

  /** What happens to the window, in the order in which the mutex is taken. */
  datatype Event = Saw(epc: Epc, at: int) | Collected(at: int)

  function Fresh(seen: map<Epc, int>, now: int, ttl: int): map<Epc, int> {
    map e | e in seen && now - seen[e] <= ttl :: seen[e]
  }

  function After(seen: map<Epc, int>, event: Event, ttl: int): map<Epc, int> {
    match event
    case Saw(epc, at) => Fresh(seen[epc := at], at, ttl)
    case Collected(at) => Fresh(seen, at, ttl)
  }

  /** The window after a history. */
  function Window(history: seq<Event>, ttl: int): map<Epc, int> {
    if history == [] then map[] else After(Window(history[..|history| - 1], ttl), history[|history| - 1], ttl)
  }

  lemma WindowAfter(history: seq<Event>, event: Event, ttl: int)
    ensures Window(history + [event], ttl) == After(Window(history, ttl), event, ttl)
  {
    assert (history + [event])[..|history|] == history;
  }

  predicate Sights(event: Event, e: Epc) {
    event.Saw? && event.epc == e
  }

  /** Event i is the last sighting of e. */
  ghost predicate LastSighting(history: seq<Event>, e: Epc, i: nat) {
    && i < |history| && Sights(history[i], e)
    && forall j | i < j < |history| :: !Sights(history[j], e)
  }

  /** No event from i on came more than the TTL after it. */
  ghost predicate NeverExpired(history: seq<Event>, i: nat, ttl: int)
    requires i < |history|
  {
    forall j | i <= j < |history| :: history[j].at - history[i].at <= ttl
  }

  /** Whatever the times are: an EPC is in the window exactly when nothing that happened since its last
      sighting was more than the TTL later, and the window holds the time of that sighting. */
  lemma {:induction false} WindowIsExact(history: seq<Event>, ttl: int, e: Epc)
    ensures e in Window(history, ttl) <==>
            exists i: nat :: LastSighting(history, e, i) && NeverExpired(history, i, ttl)
    ensures forall i: nat | LastSighting(history, e, i) && e in Window(history, ttl) ::
              Window(history, ttl)[e] == history[i].at
  {
    if history != [] {
      var n := |history| - 1;
      WindowIsExact(history[..n], ttl, e);
      LastEvent(history, ttl, e);
    }
  }

  lemma LastEvent(history: seq<Event>, ttl: int, e: Epc)
    requires history != []
    requires var before := history[..|history| - 1];
             && (e in Window(before, ttl) <==>
                   exists i: nat :: LastSighting(before, e, i) && NeverExpired(before, i, ttl))
             && (forall i: nat | LastSighting(before, e, i) && e in Window(before, ttl) ::
                   Window(before, ttl)[e] == before[i].at)
    ensures e in Window(history, ttl) <==>
            exists i: nat :: LastSighting(history, e, i) && NeverExpired(history, i, ttl)
    ensures forall i: nat | LastSighting(history, e, i) && e in Window(history, ttl) ::
              Window(history, ttl)[e] == history[i].at
  {
    var n := |history| - 1;
    var before := history[..n];
    if Sights(history[n], e) {
      assert LastSighting(history, e, n);
      assert NeverExpired(history, n, ttl) <==> 0 <= ttl;
      forall i: nat | LastSighting(history, e, i) ensures i == n {}
    } else {
      forall i: nat ensures LastSighting(history, e, i) <==> LastSighting(before, e, i) {
        if LastSighting(history, e, i) {
          assert before[i] == history[i];
        }
      }
      forall i: nat | i < n
        ensures NeverExpired(history, i, ttl) <==>
                NeverExpired(before, i, ttl) && history[n].at - history[i].at <= ttl
      {}
    }
  }

  /** The clock never went back between two events. */
  ghost predicate ClockAdvances(history: seq<Event>) {
    forall i, j | 0 <= i < j < |history| :: history[i].at <= history[j].at
  }

  /** The last sightings of a history, without any deletion. */
  function Sightings(history: seq<Event>): map<Epc, int> {
    if history == [] then
      map[]
    else
      var last := history[|history| - 1];
      var before := Sightings(history[..|history| - 1]);
      if last.Saw? then before[last.epc := last.at] else before
  }

  lemma {:induction false} SightingsAreExact(history: seq<Event>, e: Epc)
    ensures e in Sightings(history) <==> exists i: nat :: LastSighting(history, e, i)
    ensures forall i: nat | LastSighting(history, e, i) ::
              e in Sightings(history) && Sightings(history)[e] == history[i].at
  {
    if history != [] {
      var n := |history| - 1;
      SightingsAreExact(history[..n], e);
      if Sights(history[n], e) {
        assert LastSighting(history, e, n);
      } else {
        forall i: nat ensures LastSighting(history, e, i) <==> LastSighting(history[..n], e, i) {
          if LastSighting(history, e, i) {
            assert history[..n][i] == history[i];
          }
        }
      }
    }
  }

  /** With a clock that never goes back, eager deletion loses nothing: the window is what a full history
      would show as fresh now. */
  lemma WindowRefinesHistory(history: seq<Event>, ttl: int)
    requires history != [] && ClockAdvances(history)
    ensures Window(history, ttl) == Fresh(Sightings(history), history[|history| - 1].at, ttl)
  {
    var n := |history| - 1;
    forall e ensures e in Window(history, ttl) <==> e in Fresh(Sightings(history), history[n].at, ttl) {
      WindowIsExact(history, ttl, e);
      SightingsAreExact(history, e);
      forall i: nat | LastSighting(history, e, i)
        ensures NeverExpired(history, i, ttl) <==> history[n].at - history[i].at <= ttl
      {}
    }
    forall e | e in Window(history, ttl) ensures Window(history, ttl)[e] == Sightings(history)[e] {
      WindowIsExact(history, ttl, e);
      SightingsAreExact(history, e);
    }
  }

  /** An EPC that a full history shows as fresh is missing from the window exactly when the clock has since
      been further ahead than now, by enough to expire the sighting. */
  lemma LostIff(history: seq<Event>, ttl: int, e: Epc)
    requires history != []
    ensures e in Fresh(Sightings(history), history[|history| - 1].at, ttl) && e !in Window(history, ttl) <==>
            exists i: nat, j: nat ::
              && LastSighting(history, e, i) && i <= j < |history|
              && history[j].at - history[i].at > ttl >= history[|history| - 1].at - history[i].at
  {
    WindowIsExact(history, ttl, e);
    SightingsAreExact(history, e);
    forall i: nat, k: nat | LastSighting(history, e, i) && LastSighting(history, e, k) ensures i == k {}
  }
}
