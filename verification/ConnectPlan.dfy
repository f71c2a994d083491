/**
 Which endpoints a connect tries, and in which order: candidates from the
 preferred one on, each with its own port, the scanned ports and the usual ones.
 */
module ConnectPlan {
  import opened Dedup
  import opened Endpoints

  datatype Candidate = Candidate(host: string, port: int)

  const FALLBACK_PORTS: seq<int> := [2022, 5000, 27011, 6000, 4001, 10001]

  // ----- The order of candidates -----

  function UpTo(n: int): seq<int> {
    if n <= 0 then [] else seq(n, i => i)
  }

  function InRange(total: int): int -> bool {
    (i: int) => 0 <= i < total
  }

  function Order(total: int, preferred: int): seq<int> {
    Firsts(Filter(InRange(total), [preferred] + UpTo(total)))
  }

  method CandidateConnectOrder(total: int, preferred: int) returns (order: seq<int>)
    ensures order == Order(total, preferred)
  {
    var all := [preferred] + UpTo(total);
    order := [];
    var seen: set<int> := {};
    for k := 0 to |all|
      invariant order == Firsts(Filter(InRange(total), all[..k]))
      invariant forall i :: i in seen <==> i in order
    {
      FilterLast(InRange(total), all, k);
      FirstsOfOneMore(Filter(InRange(total), all[..k]), all[k]);
      var i := all[k];
      if i < 0 || i >= total || i in seen {
        continue;
      }
      seen := seen + {i};
      order := order + [i];
    }
    assert all[..|all|] == all;
  }

  lemma OrderHas(total: nat, preferred: int)
    ensures Distinct(Order(total, preferred))
    ensures forall i :: i in Order(total, preferred) <==> 0 <= i < total
  {
    var all := [preferred] + UpTo(total);
    FilterHas(InRange(total), all);
    FirstsAreExact(Filter(InRange(total), all));
    forall i | 0 <= i < total ensures i in all {
      assert all[i + 1] == i;
    }
  }

  lemma DistinctRange(order: seq<int>, total: nat)
    requires Distinct(order) && forall i :: i in order <==> 0 <= i < total
    ensures |order| == total
  {
    var all := UpTo(total);
    forall i ensures i in all <==> 0 <= i < total {
      if 0 <= i < total {
        assert all[i] == i;
      }
    }
    assert Elements(order) == Elements(all);
    DistinctSize(order);
    DistinctSize(all);
  }

  lemma FirstIndexOfItem(items: seq<int>, total: nat, preferred: int, i: int)
    requires items == (if 0 <= preferred < total then [preferred] else []) + UpTo(total)
    requires 0 <= i < total && i != preferred
    ensures i in items && FirstIndex(items, i) == i + if 0 <= preferred < total then 1 else 0
  {
    assert items[i + if 0 <= preferred < total then 1 else 0] == i;
  }

  /** Every candidate comes exactly once: the preferred one first, if there is one, and the others in
      ascending order. */
  lemma OrderIsPermutation(total: nat, preferred: int)
    ensures var order := Order(total, preferred);
            && |order| == total
            && (forall i :: i in order <==> 0 <= i < total)
            && (0 <= preferred < total ==> order[0] == preferred)
            && forall a, b | 0 <= a < b < total && order[a] != preferred && order[b] != preferred :: order[a] < order[b]
  {
    var items := Filter(InRange(total), [preferred] + UpTo(total));
    var order := Firsts(items);
    OrderHas(total, preferred);
    DistinctRange(order, total);
    ItemsInRange(total, preferred);
    if 0 <= preferred < total {
      FirstStaysFirst(items);
    }
    FirstsAreExact(items);
    forall a, b | 0 <= a < b < total && order[a] != preferred && order[b] != preferred
      ensures order[a] < order[b]
    {
      assert order[a] in order && order[b] in order;
      FirstIndexOfItem(items, total, preferred, order[a]);
      FirstIndexOfItem(items, total, preferred, order[b]);
    }
  }

  lemma ItemsInRange(total: nat, preferred: int)
    ensures Filter(InRange(total), [preferred] + UpTo(total))
            == (if 0 <= preferred < total then [preferred] else []) + UpTo(total)
  {
    FilterOfAll(InRange(total), UpTo(total));
    FilterOfOneAndAll(InRange(total), preferred, UpTo(total));
  }

  lemma {:induction false} FilterOfAll<T>(keep: T -> bool, a: seq<T>)
    requires forall i | 0 <= i < |a| :: keep(a[i])
    ensures Filter(keep, a) == a
  {
    if a != [] {
      FilterOfAll(keep, a[..|a| - 1]);
    }
  }

  lemma {:induction false} FilterOfOneAndAll<T>(keep: T -> bool, x: T, a: seq<T>)
    requires forall i | 0 <= i < |a| :: keep(a[i])
    ensures Filter(keep, [x] + a) == (if keep(x) then [x] else []) + a
  {
    var all := [x] + a;
    if a == [] {
      assert all[..0] == [];
      assert Filter(keep, all) == Filter(keep, []) + if keep(x) then [x] else [];
    } else {
      FilterOfOneAndAll(keep, x, a[..|a| - 1]);
      assert all[..|all| - 1] == [x] + a[..|a| - 1];
    }
  }

  // ----- The order of ports -----

  predicate Positive(port: int) {
    port > 0
  }

  function Ports(primary: seq<int>, fallback: seq<int>): seq<int> {
    Firsts(Filter(Positive, primary + fallback))
  }

  method MergePortOrder(primary: seq<int>, fallback: seq<int>) returns (out: seq<int>)
    ensures out == Ports(primary, fallback)
  {
    var all := primary + fallback;
    out := [];
    var seen: set<int> := {};
    for k := 0 to |all|
      invariant out == Firsts(Filter(Positive, all[..k]))
      invariant forall p :: p in seen <==> p in out
    {
      FilterLast(Positive, all, k);
      FirstsOfOneMore(Filter(Positive, all[..k]), all[k]);
      var port := all[k];
      if port <= 0 || port in seen {
        continue;
      }
      seen := seen + {port};
      out := out + [port];
    }
    assert all[..|all|] == all;
  }

  lemma PortsAreExact(primary: seq<int>, fallback: seq<int>)
    ensures Distinct(Ports(primary, fallback))
    ensures forall p :: p in Ports(primary, fallback) <==> p > 0 && (p in primary || p in fallback)
    ensures primary != [] && primary[0] > 0 ==>
              Ports(primary, fallback) != [] && Ports(primary, fallback)[0] == primary[0]
  {
    var all := primary + fallback;
    FilterHas(Positive, all);
    FirstsAreExact(Filter(Positive, all));
    if primary != [] && primary[0] > 0 {
      FilterKeepsFirst(Positive, all);
      FirstStaysFirst(Filter(Positive, all));
    }
  }

  lemma {:induction false} FilterKeepsFirst<T>(keep: T -> bool, a: seq<T>)
    requires a != [] && keep(a[0])
    ensures Filter(keep, a) != [] && Filter(keep, a)[0] == a[0]
  {
    if |a| > 1 {
      FilterKeepsFirst(keep, a[..|a| - 1]);
    }
  }

  // ----- The plan -----

  predicate IsSpace(c: char) {
    || '\t' <= c <= '\r' || c == ' ' || c == '\U{0085}' || c == '\U{00A0}' || c == '\U{1680}'
    || '\U{2000}' <= c <= '\U{200A}' || c == '\U{2028}' || c == '\U{2029}' || c == '\U{202F}'
    || c == '\U{205F}' || c == '\U{3000}'
  }

  predicate Blank(host: string) {
    forall i | 0 <= i < |host| :: IsSpace(host[i])
  }

  /** A host is blank when nothing is left of it after trimming: character by character, the white space of
      Unicode. */
  lemma BlankByCharacter(a: string, b: string, c: char)
    ensures Blank("") && (Blank(a + b) <==> Blank(a) && Blank(b))
    ensures Blank([c]) <==>
            c as int in {0x09, 0x0A, 0x0B, 0x0C, 0x0D, 0x20, 0x85, 0xA0, 0x1680, 0x2028, 0x2029, 0x202F, 0x205F, 0x3000}
            || 0x2000 <= c as int <= 0x200A
  {
    forall i | 0 <= i < |a| ensures (a + b)[i] == a[i] {}
    forall i | 0 <= i < |b| ensures (a + b)[|a| + i] == b[i] {}
    assert [c][0] == c;
  }

  function At(host: string): int -> Endpoint {
    (port: int) => Endpoint(host, if port > 0 then port else 0)
  }

  function PortsOf(c: Candidate, scanPorts: seq<int>): seq<int> {
    Ports([c.port] + scanPorts, FALLBACK_PORTS)
  }

  /** The endpoints of one candidate, in order. */
  function Offers(c: Candidate, scanPorts: seq<int>): seq<Endpoint> {
    if Blank(c.host) then [] else Map(At(c.host), PortsOf(c, scanPorts))
  }

  /** The endpoints of candidates in order, with repetitions. */
  function AllOffers(candidates: seq<Candidate>, scanPorts: seq<int>): seq<Endpoint> {
    if candidates == [] then
      []
    else
      AllOffers(candidates[..|candidates| - 1], scanPorts) + Offers(candidates[|candidates| - 1], scanPorts)
  }

  function Pick(candidates: seq<Candidate>): int -> Candidate {
    (i: int) => if 0 <= i < |candidates| then candidates[i] else Candidate("", 0)
  }

  /** The candidates in the order in which they are tried. */
  function Ordered(candidates: seq<Candidate>, preferred: int): seq<Candidate> {
    Map(Pick(candidates), Order(|candidates|, preferred))
  }

  function Plan(candidates: seq<Candidate>, preferred: int, scanPorts: seq<int>): seq<Endpoint> {
    Firsts(AllOffers(Ordered(candidates, preferred), scanPorts))
  }

  /** The keys are the addresses of the endpoints in the plan. */
  ghost predicate KeysOf(seen: set<string>, plan: seq<Endpoint>) {
    forall e :: Address(e) in seen <==> e in plan
  }

  lemma KeysOfOneMore(seen: set<string>, plan: seq<Endpoint>, e: Endpoint)
    requires KeysOf(seen, plan)
    ensures KeysOf(seen + {Address(e)}, plan + [e])
  {
    forall d ensures Address(d) in seen + {Address(e)} <==> d in plan + [e] {
      AddressIsInjective(d, e);
    }
  }

  method AddEndpoint(plan: seq<Endpoint>, seen: set<string>, host: string, port: int)
    returns (plan': seq<Endpoint>, seen': set<string>)
    requires KeysOf(seen, plan)
    ensures KeysOf(seen', plan')
    ensures plan' == if Blank(host) || port <= 0 then plan else WithNew(plan, Endpoint(host, port))
  {
    if Blank(host) || port <= 0 {
      return plan, seen;
    }
    var ep := Endpoint(host, port);
    var key := Address(ep);
    if key in seen {
      return plan, seen;
    }
    KeysOfOneMore(seen, plan, ep);
    return plan + [ep], seen + {key};
  }

  method AddCandidate(plan: seq<Endpoint>, seen: set<string>, c: Candidate, scanPorts: seq<int>,
                      ghost before: seq<Endpoint>)
    returns (plan': seq<Endpoint>, seen': set<string>)
    requires KeysOf(seen, plan) && plan == Firsts(before)
    ensures KeysOf(seen', plan') && plan' == Firsts(before + Offers(c, scanPorts))
  {
    plan', seen' := plan, seen;
    var ports := MergePortOrder([c.port] + scanPorts, FALLBACK_PORTS);
    PortsAreExact([c.port] + scanPorts, FALLBACK_PORTS);
    assert before + [] == before;
    for k := 0 to |ports|
      invariant KeysOf(seen', plan')
      invariant plan' == Firsts(before + if Blank(c.host) then [] else Map(At(c.host), ports[..k]))
    {
      assert ports[k] in ports;
      PortOfOneMore(before, c.host, ports, k);
      plan', seen' := AddEndpoint(plan', seen', c.host, ports[k]);
    }
    assert ports[..|ports|] == ports;
  }

  lemma PortOfOneMore(before: seq<Endpoint>, host: string, ports: seq<int>, k: nat)
    requires k < |ports| && ports[k] > 0
    ensures Firsts(before + Map(At(host), ports[..k + 1]))
            == WithNew(Firsts(before + Map(At(host), ports[..k])), Endpoint(host, ports[k]))
  {
    var offered := before + Map(At(host), ports[..k]);
    assert before + Map(At(host), ports[..k + 1]) == offered + [Endpoint(host, ports[k])];
    FirstsOfOneMore(offered, Endpoint(host, ports[k]));
  }

  method BuildConnectPlan(candidates: seq<Candidate>, preferredIndex: int, scanPorts: seq<int>)
    returns (plan: seq<Endpoint>)
    ensures plan == Plan(candidates, preferredIndex, scanPorts)
  {
    OrderIsPermutation(|candidates|, preferredIndex);
    if |candidates| == 0 {
      return [];
    }
    var order := CandidateConnectOrder(|candidates|, preferredIndex);
    plan := PlanInOrder(candidates, order, scanPorts);
  }

  method PlanInOrder(candidates: seq<Candidate>, order: seq<int>, scanPorts: seq<int>) returns (plan: seq<Endpoint>)
    requires forall i | i in order :: 0 <= i < |candidates|
    ensures plan == Firsts(AllOffers(Map(Pick(candidates), order), scanPorts))
  {
    plan := [];
    var seen: set<string> := {};
    ghost var ordered := Map(Pick(candidates), order);
    for k := 0 to |order|
      invariant KeysOf(seen, plan)
      invariant plan == Firsts(AllOffers(ordered[..k], scanPorts))
    {
      assert order[k] in order;
      OffersOfOneMore(ordered, k, scanPorts);
      plan, seen := AddCandidate(plan, seen, candidates[order[k]], scanPorts, AllOffers(ordered[..k], scanPorts));
    }
    assert ordered[..|order|] == ordered;
  }

  lemma OffersOfOneMore(candidates: seq<Candidate>, k: nat, scanPorts: seq<int>)
    requires k < |candidates|
    ensures AllOffers(candidates[..k + 1], scanPorts)
            == AllOffers(candidates[..k], scanPorts) + Offers(candidates[k], scanPorts)
  {
    assert candidates[..k + 1][..k] == candidates[..k];
  }

  // ----- What the plan covers -----

  predicate Offered(e: Endpoint, c: Candidate, scanPorts: seq<int>) {
    && e.host == c.host && !Blank(c.host) && e.port > 0
    && (e.port == c.port || e.port in scanPorts || e.port in FALLBACK_PORTS)
  }

  lemma OffersAreExact(c: Candidate, scanPorts: seq<int>, e: Endpoint)
    ensures e in Offers(c, scanPorts) <==> Offered(e, c, scanPorts)
  {
    var ports := PortsOf(c, scanPorts);
    PortsAreExact([c.port] + scanPorts, FALLBACK_PORTS);
    if Offered(e, c, scanPorts) {
      assert e.port in [c.port] + scanPorts || e.port in FALLBACK_PORTS;
      var k :| 0 <= k < |ports| && ports[k] == e.port;
      assert Offers(c, scanPorts)[k] == e;
    }
    if e in Offers(c, scanPorts) {
      var k :| 0 <= k < |ports| && Offers(c, scanPorts)[k] == e;
      assert ports[k] in ports;
    }
  }

  lemma {:induction false} AllOffersAreExact(candidates: seq<Candidate>, scanPorts: seq<int>, e: Endpoint)
    ensures e in AllOffers(candidates, scanPorts) <==> exists c :: c in candidates && Offered(e, c, scanPorts)
  {
    if candidates != [] {
      var n := |candidates| - 1;
      AllOffersAreExact(candidates[..n], scanPorts, e);
      OffersAreExact(candidates[n], scanPorts, e);
      assert candidates == candidates[..n] + [candidates[n]];
    }
  }

  /** Trying them in order leaves no candidate out and adds none. */
  lemma OrderedHas(candidates: seq<Candidate>, preferred: int)
    ensures |Ordered(candidates, preferred)| == |candidates|
    ensures forall c :: c in Ordered(candidates, preferred) <==> c in candidates
  {
    OrderIsPermutation(|candidates|, preferred);
    var order := Order(|candidates|, preferred);
    var ordered := Ordered(candidates, preferred);
    forall c ensures c in ordered <==> c in candidates {
      if c in candidates {
        var i :| 0 <= i < |candidates| && candidates[i] == c;
        assert i in order;
        var k :| 0 <= k < |order| && order[k] == i;
        assert ordered[k] == c;
      }
      if c in ordered {
        var k :| 0 <= k < |ordered| && ordered[k] == c;
        assert order[k] in order;
      }
    }
  }

  /** The plan holds exactly the endpoints that some candidate offers, each once, in the order in which
      they are first offered. */
  lemma PlanIsExhaustive(candidates: seq<Candidate>, preferred: int, scanPorts: seq<int>)
    ensures var plan := Plan(candidates, preferred, scanPorts);
            var offers := AllOffers(Ordered(candidates, preferred), scanPorts);
            && Distinct(plan)
            && (forall e :: e in plan <==> exists c :: c in candidates && Offered(e, c, scanPorts))
            && forall a, b | 0 <= a < b < |plan| ::
                 && plan[a] in offers && plan[b] in offers
                 && FirstIndex(offers, plan[a]) < FirstIndex(offers, plan[b])
  {
    OrderedHas(candidates, preferred);
    FirstsAreExact(AllOffers(Ordered(candidates, preferred), scanPorts));
    forall e ensures e in Plan(candidates, preferred, scanPorts)
                     <==> exists c :: c in candidates && Offered(e, c, scanPorts) {
      AllOffersAreExact(Ordered(candidates, preferred), scanPorts, e);
    }
  }

  // ----- The order of the plan, told without the loops -----

  /** The ports to try for a candidate: its own, the scanned ones, and the usual ones. */
  function Wanted(c: Candidate, scanPorts: seq<int>): seq<int> {
    [c.port] + scanPorts + [2022, 5000, 27011, 6000, 4001, 10001]
  }

  /** Some candidate offers e. */
  ghost predicate IsOffered(candidates: seq<Candidate>, scanPorts: seq<int>, e: Endpoint) {
    exists c :: c in candidates && Offered(e, c, scanPorts)
  }

  /** The first of the candidates that offers e. */
  ghost function FirstOffer(candidates: seq<Candidate>, scanPorts: seq<int>, e: Endpoint): (k: nat)
    requires IsOffered(candidates, scanPorts, e)
    ensures k < |candidates| && Offered(e, candidates[k], scanPorts)
    ensures forall j | 0 <= j < k :: !Offered(e, candidates[j], scanPorts)
  {
    var n := |candidates| - 1;
    if IsOffered(candidates[..n], scanPorts, e) then
      var k := FirstOffer(candidates[..n], scanPorts, e);
      assert forall j | 0 <= j < k :: candidates[..n][j] == candidates[j];
      k
    else
      assert forall j | 0 <= j < n :: candidates[j] in candidates[..n];
      n
  }

  /** d is tried before e: an earlier candidate offers it, or the same one at a port it wants earlier. */
  ghost predicate ComesBefore(candidates: seq<Candidate>, scanPorts: seq<int>, d: Endpoint, e: Endpoint)
    requires IsOffered(candidates, scanPorts, d) && IsOffered(candidates, scanPorts, e)
  {
    var j, k := FirstOffer(candidates, scanPorts, d), FirstOffer(candidates, scanPorts, e);
    || j < k
    || (j == k && d.port in Wanted(candidates[j], scanPorts) && e.port in Wanted(candidates[j], scanPorts)
        && FirstIndex(Wanted(candidates[j], scanPorts), d.port) < FirstIndex(Wanted(candidates[j], scanPorts), e.port))
  }

  lemma FirstsInOrder(all: seq<int>, i: nat, j: nat)
    requires i < j < |Firsts(Filter(Positive, all))|
    ensures var ports := Firsts(Filter(Positive, all));
            && ports[i] in all && ports[j] in all
            && FirstIndex(all, ports[i]) < FirstIndex(all, ports[j])
  {
    var kept := Filter(Positive, all);
    var ports := Firsts(kept);
    FirstsAreExact(kept);
    FilterHas(Positive, all);
    assert ports[i] in ports && ports[j] in ports;
    if FirstIndex(all, ports[j]) < FirstIndex(all, ports[i]) {
      FilterKeepsOrder(Positive, all, ports[j], ports[i]);
    }
  }

  lemma PortsInOrder(c: Candidate, scanPorts: seq<int>, i: nat, j: nat)
    requires i < j < |PortsOf(c, scanPorts)|
    ensures var p, q := PortsOf(c, scanPorts)[i], PortsOf(c, scanPorts)[j];
            && p in Wanted(c, scanPorts) && q in Wanted(c, scanPorts)
            && FirstIndex(Wanted(c, scanPorts), p) < FirstIndex(Wanted(c, scanPorts), q)
  {
    assert PortsOf(c, scanPorts) == Firsts(Filter(Positive, Wanted(c, scanPorts)));
    FirstsInOrder(Wanted(c, scanPorts), i, j);
  }

  /** The offers of one candidate come in the order in which it wants the ports. */
  lemma OffersInOrder(c: Candidate, scanPorts: seq<int>, d: Endpoint, e: Endpoint)
    requires d in Offers(c, scanPorts) && e in Offers(c, scanPorts)
    requires FirstIndex(Offers(c, scanPorts), d) < FirstIndex(Offers(c, scanPorts), e)
    ensures d.port in Wanted(c, scanPorts) && e.port in Wanted(c, scanPorts)
    ensures FirstIndex(Wanted(c, scanPorts), d.port) < FirstIndex(Wanted(c, scanPorts), e.port)
  {
    var i, j := FirstIndex(Offers(c, scanPorts), d), FirstIndex(Offers(c, scanPorts), e);
    PortsInOrder(c, scanPorts, i, j);
    PortsAreExact([c.port] + scanPorts, FALLBACK_PORTS);
    assert PortsOf(c, scanPorts)[i] in PortsOf(c, scanPorts) && PortsOf(c, scanPorts)[j] in PortsOf(c, scanPorts);
  }

  /** An endpoint that is offered by an earlier candidate has its first offer there. */
  lemma FirstOfferOfMore(candidates: seq<Candidate>, scanPorts: seq<int>, e: Endpoint)
    requires candidates != [] && IsOffered(candidates, scanPorts, e)
    ensures var front := candidates[..|candidates| - 1];
            FirstOffer(candidates, scanPorts, e)
            == if IsOffered(front, scanPorts, e) then FirstOffer(front, scanPorts, e) else |front|
  {}

  /** Comes at an earlier place of all offers. */
  ghost predicate OfferedBefore(offers: seq<Endpoint>, d: Endpoint, e: Endpoint) {
    d in offers && e in offers && FirstIndex(offers, d) < FirstIndex(offers, e)
  }

  lemma OfferedBeforeInBoth(front: seq<Endpoint>, last: seq<Endpoint>, d: Endpoint, e: Endpoint)
    requires OfferedBefore(front + last, d, e)
    ensures e in front ==> d in front && OfferedBefore(front, d, e)
    ensures d !in front ==> e !in front && OfferedBefore(last, d, e)
  {
    FirstIndexOfConcat(front, last, d);
    FirstIndexOfConcat(front, last, e);
  }

  lemma {:induction false} AllOffersInOrder(candidates: seq<Candidate>, scanPorts: seq<int>, d: Endpoint, e: Endpoint)
    requires OfferedBefore(AllOffers(candidates, scanPorts), d, e)
    ensures IsOffered(candidates, scanPorts, d) && IsOffered(candidates, scanPorts, e)
    ensures ComesBefore(candidates, scanPorts, d, e)
  {
    var n := |candidates| - 1;
    forall x | x == d || x == e
      ensures x in AllOffers(candidates, scanPorts) <==> IsOffered(candidates, scanPorts, x)
      ensures x in AllOffers(candidates[..n], scanPorts) <==> IsOffered(candidates[..n], scanPorts, x)
    {
      AllOffersAreExact(candidates, scanPorts, x);
      AllOffersAreExact(candidates[..n], scanPorts, x);
    }
    FirstOfferOfMore(candidates, scanPorts, d);
    FirstOfferOfMore(candidates, scanPorts, e);
    OfferedBeforeInBoth(AllOffers(candidates[..n], scanPorts), Offers(candidates[n], scanPorts), d, e);
    if IsOffered(candidates[..n], scanPorts, e) {
      AllOffersInOrder(candidates[..n], scanPorts, d, e);
    } else if !IsOffered(candidates[..n], scanPorts, d) {
      OffersInOrder(candidates[n], scanPorts, d, e);
    }
  }

  /** The plan is in order: candidate by candidate, and for each its own port, the scanned ports and the
      usual ones. */
  lemma PlanIsOrdered(candidates: seq<Candidate>, preferred: int, scanPorts: seq<int>, a: nat, b: nat)
    requires a < b < |Plan(candidates, preferred, scanPorts)|
    ensures var plan := Plan(candidates, preferred, scanPorts);
            var ordered := Ordered(candidates, preferred);
            && IsOffered(ordered, scanPorts, plan[a]) && IsOffered(ordered, scanPorts, plan[b])
            && ComesBefore(ordered, scanPorts, plan[a], plan[b])
  {
    PlanIsExhaustive(candidates, preferred, scanPorts);
    var plan := Plan(candidates, preferred, scanPorts);
    AllOffersInOrder(Ordered(candidates, preferred), scanPorts, plan[a], plan[b]);
  }

  /** The preferred candidate at its own port is tried first. */
  lemma PreferredIsFirst(candidates: seq<Candidate>, preferred: nat, scanPorts: seq<int>)
    requires preferred < |candidates|
    requires candidates[preferred].port > 0 && !Blank(candidates[preferred].host)
    ensures var plan := Plan(candidates, preferred, scanPorts);
            plan != [] && plan[0] == Endpoint(candidates[preferred].host, candidates[preferred].port)
  {
    OrderIsPermutation(|candidates|, preferred);
    var c := candidates[preferred];
    var ordered := Ordered(candidates, preferred);
    assert ordered[0] == c;
    PortsAreExact([c.port] + scanPorts, FALLBACK_PORTS);
    AllOffersStart(ordered, scanPorts);
    FirstStaysFirst(AllOffers(ordered, scanPorts));
  }

  lemma {:induction false} AllOffersStart(candidates: seq<Candidate>, scanPorts: seq<int>)
    requires candidates != [] && Offers(candidates[0], scanPorts) != []
    ensures var all := AllOffers(candidates, scanPorts);
            all != [] && all[0] == Offers(candidates[0], scanPorts)[0]
  {
    var n := |candidates| - 1;
    if n == 0 {
      assert AllOffers(candidates[..0], scanPorts) == [];
    } else {
      AllOffersStart(candidates[..n], scanPorts);
    }
  }
}
