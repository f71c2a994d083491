/** Lists of EPCs as they come in: cleaned into canonical form, each EPC once. */
module EpcLists {
  import opened Dedup
  import opened Epcs

  predicate Usable(epc: Epc) {
    epc != ""
  }

  /** The drafts of a list in canonical form, each once. */
  function Cleaned(raw: seq<string>): seq<Epc> {
    Firsts(Filter(Usable, Map(Normalize, raw)))
  }

  method NormalizeEPCList(values: seq<string>) returns (out: seq<Epc>)
    ensures out == Cleaned(values)
  {
    var uniq: set<Epc> := {};
    out := [];
    for i := 0 to |values|
      invariant out == Cleaned(values[..i])
      invariant uniq == Elements(out)
    {
      CleanedLast(values, i);
      var epc := NormalizeEPC(values[i]);
      if epc == "" || epc in uniq {
        continue;
      }
      uniq := uniq + {epc};
      out := out + [epc];
    }
    assert values[..|values|] == values;
  }

  lemma CleanedLast(values: seq<string>, i: nat)
    requires i < |values|
    ensures Cleaned(values[..i + 1])
            == if Normalize(values[i]) == "" then Cleaned(values[..i])
               else WithNew(Cleaned(values[..i]), Normalize(values[i]))
  {
    assert values[..i + 1] == values[..i] + [values[i]];
    CleanedOneMore(values[..i], values[i]);
  }

  lemma CleanedOneMore(values: seq<string>, raw: string)
    ensures var epc := Normalize(raw);
            && Cleaned(values + [raw]) == (if epc == "" then Cleaned(values) else WithNew(Cleaned(values), epc))
            && Filter(Usable, Map(Normalize, values + [raw]))
               == Filter(Usable, Map(Normalize, values)) + if epc == "" then [] else [epc]
  {
    var before, now := Map(Normalize, values), Map(Normalize, values + [raw]);
    assert now[..|values|] == before && now[|values|] == Normalize(raw);
    FirstsOfOneMore(Filter(Usable, before), Normalize(raw));
  }

  /** A cleaned list holds the canonical form of every entry that has a hexadecimal digit, each once. */
  lemma CleanedIsCanonical(raw: seq<string>)
    ensures Distinct(Cleaned(raw))
    ensures forall e :: e in Cleaned(raw) <==> e != "" && exists i :: 0 <= i < |raw| && Normalize(raw[i]) == e
    ensures forall e | e in Cleaned(raw) :: Canonical(e)
  {
    CleanedHas(Map(Normalize, raw));
    MapHas(Normalize, raw);
    forall i | 0 <= i < |raw| ensures Canonical(Normalize(raw[i])) {
      NormalizeIsIdempotent(raw[i]);
    }
  }

  lemma CleanedHas(all: seq<Epc>)
    ensures Distinct(Firsts(Filter(Usable, all)))
    ensures forall e :: e in Firsts(Filter(Usable, all)) <==> e in all && e != ""
  {
    FilterHas(Usable, all);
    FirstsAreExact(Filter(Usable, all));
  }
}
