/** The draft cache: a set of EPCs behind a lock of its own, where each call is one atomic step. */
module CacheStore {
  import opened Epcs

  class Store {
    var epcs: set<Epc>

    predicate Valid()
      reads this
    {
      "" !in epcs
    }

    constructor ()
      ensures Valid() && epcs == {}
    {
      epcs := {};
    }

    method Replace(list: seq<Epc>)
      modifies this
      ensures Valid() && epcs == NonEmpty(list)
    {
      var next: set<Epc> := {};
      for i := 0 to |list|
        invariant next == NonEmpty(list[..i])
      {
        NonEmptyOneMore(list, i);
        if list[i] != "" {
          next := next + {list[i]};
        }
      }
      assert list[..|list|] == list;
      epcs := next;
    }

    /** Returns how many EPCs were not there before, each counted once. */
    method Add(list: seq<Epc>) returns (added: nat)
      requires Valid()
      modifies this
      ensures Valid() && epcs == old(epcs) + NonEmpty(list)
      ensures added == |NonEmpty(list) - old(epcs)|
    {
      added := 0;
      for i := 0 to |list|
        invariant Absorbed(old(epcs), list, i, epcs, added)
      {
        AbsorbOne(old(epcs), list, i, epcs, added);
        if list[i] == "" || list[i] in epcs {
          continue;
        }
        epcs := epcs + {list[i]};
        added := added + 1;
      }
      assert list[..|list|] == list;
    }

    method Remove(epc: Epc)
      requires Valid()
      modifies this
      ensures Valid() && epcs == old(epcs) - {epc}
    {
      if epc != "" {
        epcs := epcs - {epc};
      }
    }

    predicate Has(epc: Epc)
      reads this
    {
      epc != "" && epc in epcs
    }
  }

  /** The first i entries are in, and added counts those that were not there before. */
  ghost predicate Absorbed(was: set<Epc>, list: seq<Epc>, i: nat, now: set<Epc>, added: nat)
    requires i <= |list|
  {
    now == was + NonEmpty(list[..i]) && added == |NonEmpty(list[..i]) - was|
  }

  lemma AbsorbOne(was: set<Epc>, list: seq<Epc>, i: nat, now: set<Epc>, added: nat)
    requires i < |list| && Absorbed(was, list, i, now, added)
    ensures if list[i] == "" || list[i] in now then Absorbed(was, list, i + 1, now, added)
            else Absorbed(was, list, i + 1, now + {list[i]}, added + 1)
  {
    var before, after := NonEmpty(list[..i]), NonEmpty(list[..i + 1]);
    NonEmptyOneMore(list, i);
    if list[i] == "" || list[i] in now {
      assert after - was == before - was;
    } else {
      assert after - was == before - was + {list[i]};
    }
  }
}
