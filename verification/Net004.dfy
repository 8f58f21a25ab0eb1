// Rule NET-004 (rules/network/net_004.rs): default gateways of one address family that share a
// metric but not an address, reported once per family and metric in a canonical order.
module Net004 {
  import opened Observations
  import opened Seqs
  import opened Text

  /** What a finding says: the family, the shared metric, the distinct addresses and the routes involved. */
  datatype Competition = Competition(isIpv6: bool, metric: nat, ips: seq<string>, group: seq<GatewayNode>)

  function InFamily(isIpv6: bool): GatewayNode -> seq<GatewayNode> {
    (g: GatewayNode) => if g.isIpv6 == isIpv6 then [g] else []
  }

  function Family(gateways: seq<GatewayNode>, isIpv6: bool): seq<GatewayNode> { FlatMap(gateways, InFamily(isIpv6)) }

  function WithMetric(metric: nat): GatewayNode -> seq<GatewayNode> {
    (g: GatewayNode) => if g.metric == metric then [g] else []
  }

  function Group(gateways: seq<GatewayNode>, metric: nat): seq<GatewayNode> { FlatMap(gateways, WithMetric(metric)) }

  function MetricOf(): GatewayNode -> seq<nat> { (g: GatewayNode) => [g.metric] }
  function AddressOf(): GatewayNode -> seq<string> { (g: GatewayNode) => [g.gatewayIp] }

  predicate NatLeq(a: nat, b: nat) { a <= b }

  /** The metrics in use, ascending. */
  function Metrics(gateways: seq<GatewayNode>): seq<nat> { Canonical(FlatMap(gateways, MetricOf()), NatLeq) }

  /** The distinct addresses of a group, ascending. */
  function Addresses(group: seq<GatewayNode>): seq<string> { Canonical(FlatMap(group, AddressOf()), StringLeq) }

  /** A competition if the group has at least two distinct addresses. */
  function Contest(gateways: seq<GatewayNode>, isIpv6: bool): nat -> seq<Competition> {
    (metric: nat) =>
      var group := Group(gateways, metric);
      if |Addresses(group)| > 1 then [Competition(isIpv6, metric, Addresses(group), group)] else []
  }

  function InFamilyOf(gateways: seq<GatewayNode>, isIpv6: bool): seq<Competition> {
    var family := Family(gateways, isIpv6);
    if |family| <= 1 then [] else FlatMap(Metrics(family), Contest(family, isIpv6))
  }

  function Competitions(gateways: seq<GatewayNode>): seq<Competition> {
    InFamilyOf(gateways, false) + InFamilyOf(gateways, true)
  }

  // ----- The rule's loops ---------------------------------------------------------------

  lemma {:induction false} NoneWithMetric(gateways: seq<GatewayNode>, m: nat)
    requires m !in FlatMap(gateways, MetricOf())
    ensures Group(gateways, m) == []
  {
    if gateways != [] {
      NoneWithMetric(Front(gateways), m);
    }
  }

  /** Gateways by metric, in the order in which they come. */
  method GroupByMetric(gateways: seq<GatewayNode>) returns (groups: map<nat, seq<GatewayNode>>)
    ensures forall m :: m in groups <==> m in FlatMap(gateways, MetricOf())
    ensures forall m :: m in groups ==> groups[m] == Group(gateways, m)
  {
    groups := map[];
    for i := 0 to |gateways|
      invariant forall m :: m in groups <==> m in FlatMap(gateways[..i], MetricOf())
      invariant forall m :: m in groups ==> groups[m] == Group(gateways[..i], m)
    {
      var g := gateways[i];
      FlatMapStep(gateways, i, MetricOf());
      forall m: nat ensures Group(gateways[..i + 1], m) == Group(gateways[..i], m) + if g.metric == m then [g] else [] {
        FlatMapStep(gateways, i, WithMetric(m));
      }
      if g.metric !in groups {
        NoneWithMetric(gateways[..i], g.metric);
      }
      hide Group, FlatMap;
      groups := groups[g.metric := (if g.metric in groups then groups[g.metric] else []) + [g]];
    }
    AllTaken(gateways);
  }

  lemma Least(s: set<nat>) returns (m: nat)
    requires s != {}
    ensures m in s && forall k :: k in s ==> m <= k
    decreases |s|
  {
    var first :| first in s;
    m := first;
    var rest := s - {first};
    assert forall k :: k in s ==> k == first || k in rest;
    if rest != {} {
      var other := Least(rest);
      if other < first {
        m := other;
      }
    }
  }

  lemma ContestSnoc(done: seq<nat>, metric: nat, f: nat -> seq<Competition>)
    ensures FlatMap(done + [metric], f) == FlatMap(done, f) + f(metric)
  {
    Shift(done, metric, []);
  }

  lemma AscendingSnoc(done: seq<nat>, metric: nat)
    requires Ascending(done, NatLeq) && forall m :: m in done ==> m < metric
    ensures Ascending(done + [metric], NatLeq)
  {
    forall i | 0 <= i < |done| ensures done[i] < metric {
      assert done[i] in done;
    }
  }

  lemma MetricsExactly(gateways: seq<GatewayNode>)
    ensures Ascending(Metrics(gateways), NatLeq) && Antisymmetric(NatLeq)
    ensures forall m :: m in Metrics(gateways) <==> m in FlatMap(gateways, MetricOf())
  {
    CanonicalAscends(FlatMap(gateways, MetricOf()), NatLeq);
  }

  /** The groups in ascending order of their metrics, as the ordered map yields them. */
  method InOrder(family: seq<GatewayNode>, isIpv6: bool) returns (found: seq<Competition>)
    ensures found == FlatMap(Metrics(family), Contest(family, isIpv6))
  {
    var groups := GroupByMetric(family);
    var keys := set m | m in groups;
    ghost var all, done := keys, [];
    found := [];
    hide FlatMap, Group, Addresses;
    NothingMapped(done, Contest(family, isIpv6));
    while keys != {}
      invariant keys <= all && Ascending(done, NatLeq)
      invariant forall m :: m in all <==> m in keys || m in done
      invariant forall m, k :: m in done && k in keys ==> m < k
      invariant found == FlatMap(done, Contest(family, isIpv6))
      decreases |keys|
    {
      ghost var least := Least(keys);
      var metric :| metric in keys && forall k :: k in keys ==> metric <= k;
      var group := groups[metric];
      var unique := Addresses(group);
      if |unique| > 1 {
        found := found + [Competition(isIpv6, metric, unique, group)];
      }
      ContestSnoc(done, metric, Contest(family, isIpv6));
      AscendingSnoc(done, metric);
      done := done + [metric];
      keys := keys - {metric};
    }
    MetricsExactly(family);
    AscendingUnique(done, Metrics(family), NatLeq);
  }

  method FindCompetitions(gateways: seq<GatewayNode>) returns (found: seq<Competition>)
    ensures found == Competitions(gateways)
  {
    hide FlatMap, Metrics, Contest;
    var v4, v6 := [], [];
    NothingMapped(gateways, InFamily(false));
    NothingMapped(gateways, InFamily(true));
    for i := 0 to |gateways|
      invariant v4 == Family(gateways[..i], false) && v6 == Family(gateways[..i], true)
    {
      FlatMapStep(gateways, i, InFamily(false));
      FlatMapStep(gateways, i, InFamily(true));
      if gateways[i].isIpv6 {
        v6 := v6 + [gateways[i]];
      } else {
        v4 := v4 + [gateways[i]];
      }
    }
    AllTaken(gateways);
    found := [];
    if |v4| > 1 {
      found := InOrder(v4, false);
    }
    if |v6| > 1 {
      var more := InOrder(v6, true);
      found := found + more;
    }
  }

  // ----- Exactly the contested metrics ----------------------------------------------------

  /** A gateway of this family, metric and address exists. */
  predicate Present(gateways: seq<GatewayNode>, isIpv6: bool, metric: nat, ip: string) {
    exists i :: 0 <= i < |gateways|
      && gateways[i].isIpv6 == isIpv6 && gateways[i].metric == metric && gateways[i].gatewayIp == ip
  }

  predicate IsContested(gateways: seq<GatewayNode>, isIpv6: bool, metric: nat) {
    exists i, j :: 0 <= i < |gateways| && 0 <= j < |gateways|
      && gateways[i].isIpv6 == gateways[j].isIpv6 == isIpv6 && gateways[i].metric == gateways[j].metric == metric
      && gateways[i].gatewayIp != gateways[j].gatewayIp
  }

  lemma PresentMembers(gateways: seq<GatewayNode>, isIpv6: bool, metric: nat, ip: string)
    ensures ip in FlatMap(Group(Family(gateways, isIpv6), metric), AddressOf())
      <==> Present(gateways, isIpv6, metric, ip)
  {
    var family := Family(gateways, isIpv6);
    var group := Group(family, metric);
    FlatMapMembers(group, AddressOf(), ip);
    forall g ensures g in group <==> g in gateways && g.isIpv6 == isIpv6 && g.metric == metric {
      FlatMapMembers(family, WithMetric(metric), g);
      FlatMapMembers(gateways, InFamily(isIpv6), g);
    }
    hide FlatMap, Group, Family;
    if Present(gateways, isIpv6, metric, ip) {
      var i :| 0 <= i < |gateways|
        && gateways[i].isIpv6 == isIpv6 && gateways[i].metric == metric && gateways[i].gatewayIp == ip;
      assert ip in AddressOf()(gateways[i]) && gateways[i] in group;
    }
  }

  lemma AddressesExactly(gateways: seq<GatewayNode>, isIpv6: bool, metric: nat)
    ensures
      var ips := Addresses(Group(Family(gateways, isIpv6), metric));
      Ascending(ips, StringLeq) && forall ip :: ip in ips <==> Present(gateways, isIpv6, metric, ip)
  {
    StringOrder();
    var group := Group(Family(gateways, isIpv6), metric);
    CanonicalAscends(FlatMap(group, AddressOf()), StringLeq);
    forall ip ensures ip in FlatMap(group, AddressOf()) <==> Present(gateways, isIpv6, metric, ip) {
      PresentMembers(gateways, isIpv6, metric, ip);
    }
    hide FlatMap, Group, Family, Canonical, StringLeq, Present;
  }

  lemma TwoAddresses(ips: seq<string>)
    requires Ascending(ips, StringLeq)
    ensures |ips| > 1 <==> exists a, b :: a in ips && b in ips && a != b
  {
    if |ips| > 1 {
      assert ips[0] in ips && ips[1] in ips && ips[0] != ips[1];
    }
  }

  lemma ContestedExactly(gateways: seq<GatewayNode>, isIpv6: bool, metric: nat)
    ensures |Addresses(Group(Family(gateways, isIpv6), metric))| > 1 <==> IsContested(gateways, isIpv6, metric)
  {
    AddressesExactly(gateways, isIpv6, metric);
    hide Addresses, Group, Family, StringLeq;
    var ips := Addresses(Group(Family(gateways, isIpv6), metric));
    TwoAddresses(ips);
    if IsContested(gateways, isIpv6, metric) {
      var i, j :| 0 <= i < |gateways| && 0 <= j < |gateways|
        && gateways[i].isIpv6 == gateways[j].isIpv6 == isIpv6 && gateways[i].metric == gateways[j].metric == metric
        && gateways[i].gatewayIp != gateways[j].gatewayIp;
      assert Present(gateways, isIpv6, metric, gateways[i].gatewayIp)
        && Present(gateways, isIpv6, metric, gateways[j].gatewayIp);
    }
    if |ips| > 1 {
      assert ips[0] in ips && ips[1] in ips;
      assert Present(gateways, isIpv6, metric, ips[0]) && Present(gateways, isIpv6, metric, ips[1]);
    }
  }

  lemma {:induction false} FlatMapNothing(ms: seq<nat>, f: nat -> seq<Competition>)
    requires forall m :: f(m) == []
    ensures FlatMap(ms, f) == []
  {
    if ms != [] {
      FlatMapNothing(Front(ms), f);
    }
  }

  lemma ContestNeedsTwo(gateways: seq<GatewayNode>, isIpv6: bool, metric: nat)
    requires IsContested(gateways, isIpv6, metric)
    ensures |Family(gateways, isIpv6)| > 1
  {
    var i, j :| 0 <= i < |gateways| && 0 <= j < |gateways|
      && gateways[i].isIpv6 == gateways[j].isIpv6 == isIpv6 && gateways[i].metric == gateways[j].metric == metric
      && gateways[i].gatewayIp != gateways[j].gatewayIp;
    FlatMapMembers(gateways, InFamily(isIpv6), gateways[i]);
    FlatMapMembers(gateways, InFamily(isIpv6), gateways[j]);
    assert gateways[i] in InFamily(isIpv6)(gateways[i]) && gateways[j] in InFamily(isIpv6)(gateways[j]);
    hide FlatMap;
  }

  /** Leaving out families of one gateway changes nothing: one address cannot compete. */
  lemma EarlyExitHarmless(gateways: seq<GatewayNode>, isIpv6: bool)
    ensures InFamilyOf(gateways, isIpv6)
         == FlatMap(Metrics(Family(gateways, isIpv6)), Contest(Family(gateways, isIpv6), isIpv6))
  {
    var family := Family(gateways, isIpv6);
    if |family| <= 1 {
      forall m ensures Contest(family, isIpv6)(m) == [] {
        if |Addresses(Group(family, m))| > 1 {
          ContestedExactly(gateways, isIpv6, m);
          ContestNeedsTwo(gateways, isIpv6, m);
        }
      }
      hide Contest, Family, Metrics;
      FlatMapNothing(Metrics(family), Contest(family, isIpv6));
    }
  }

  /** Reports in order: IPv4 before IPv6, then by metric, no two alike. */
  ghost predicate KeysAscend(found: seq<Competition>) {
    forall i, j :: 0 <= i < j < |found| ==>
      if found[i].isIpv6 == found[j].isIpv6 then found[i].metric < found[j].metric else found[j].isIpv6
  }

  lemma {:induction false} ContestsAscend(ms: seq<nat>, family: seq<GatewayNode>, isIpv6: bool)
    requires Ascending(ms, NatLeq)
    ensures
      var found := FlatMap(ms, Contest(family, isIpv6));
      KeysAscend(found) && forall c :: c in found ==> c.isIpv6 == isIpv6 && c.metric in ms
  {
    hide Addresses, Group;
    if ms != [] {
      ContestsAscend(Front(ms), family, isIpv6);
      FrontLast(ms);
      var before := FlatMap(Front(ms), Contest(family, isIpv6));
      forall k | 0 <= k < |before| ensures before[k].metric < Last(ms) && before[k].isIpv6 == isIpv6 {
        assert before[k] in before;
        var i :| 0 <= i < |ms| - 1 && ms[i] == before[k].metric;
      }
    }
  }

  lemma ContestedMetric(gateways: seq<GatewayNode>, isIpv6: bool, metric: nat)
    requires IsContested(gateways, isIpv6, metric)
    ensures metric in Metrics(Family(gateways, isIpv6))
  {
    var family := Family(gateways, isIpv6);
    var i, j :| 0 <= i < |gateways| && 0 <= j < |gateways|
      && gateways[i].isIpv6 == gateways[j].isIpv6 == isIpv6 && gateways[i].metric == gateways[j].metric == metric
      && gateways[i].gatewayIp != gateways[j].gatewayIp;
    FlatMapMembers(gateways, InFamily(isIpv6), gateways[i]);
    assert gateways[i] in InFamily(isIpv6)(gateways[i]);
    FlatMapMembers(family, MetricOf(), metric);
    assert metric in MetricOf()(gateways[i]);
    MetricsExactly(family);
  }

  lemma ContestMembers(gateways: seq<GatewayNode>, isIpv6: bool, c: Competition)
    ensures c in InFamilyOf(gateways, isIpv6) <==>
      && c.isIpv6 == isIpv6 && IsContested(gateways, isIpv6, c.metric)
      && c.group == Group(Family(gateways, isIpv6), c.metric) && c.ips == Addresses(c.group)
  {
    var family := Family(gateways, isIpv6);
    EarlyExitHarmless(gateways, isIpv6);
    FlatMapMembers(Metrics(family), Contest(family, isIpv6), c);
    ContestedExactly(gateways, isIpv6, c.metric);
    if IsContested(gateways, isIpv6, c.metric) {
      ContestedMetric(gateways, isIpv6, c.metric);
    }
    hide FlatMap, Metrics, Family, Group, Addresses, IsContested, InFamilyOf;
    assert forall m :: c in Contest(family, isIpv6)(m) ==> c.metric == m;
    assert c in Contest(family, isIpv6)(c.metric) <==>
      && |Addresses(Group(family, c.metric))| > 1
      && c == Competition(isIpv6, c.metric, Addresses(Group(family, c.metric)), Group(family, c.metric));
  }

  lemma FamilyAscends(gateways: seq<GatewayNode>, isIpv6: bool)
    ensures
      var found := InFamilyOf(gateways, isIpv6);
      KeysAscend(found) && forall c :: c in found ==> c.isIpv6 == isIpv6
  {
    EarlyExitHarmless(gateways, isIpv6);
    MetricsExactly(Family(gateways, isIpv6));
    ContestsAscend(Metrics(Family(gateways, isIpv6)), Family(gateways, isIpv6), isIpv6);
  }

  /** The routes of a report are the gateways of its family and metric, in the order in which they came. */
  predicate GroupAt(gateways: seq<GatewayNode>, c: Competition, places: seq<nat>) {
    && |places| == |c.group| && Upwards(places, |gateways|)
    && (forall i :: 0 <= i < |places| ==> c.group[i] == gateways[places[i]])
    && (forall k :: 0 <= k < |gateways| ==>
         (k in places <==> gateways[k].isIpv6 == c.isIpv6 && gateways[k].metric == c.metric))
  }

  function InGroup(isIpv6: bool, metric: nat): GatewayNode -> seq<GatewayNode> {
    (g: GatewayNode) => if g.isIpv6 == isIpv6 && g.metric == metric then [g] else []
  }

  lemma {:induction false} GroupInOneGo(gateways: seq<GatewayNode>, isIpv6: bool, metric: nat)
    ensures Group(Family(gateways, isIpv6), metric) == FlatMap(gateways, InGroup(isIpv6, metric))
  {
    if gateways != [] {
      GroupInOneGo(Front(gateways), isIpv6, metric);
      var before, last := Family(Front(gateways), isIpv6), Last(gateways);
      if last.isIpv6 == isIpv6 {
        Shift(before, last, []);
      } else {
        assert before + [] == before;
      }
    }
  }

  lemma GroupPlaces(gateways: seq<GatewayNode>, c: Competition) returns (places: seq<nat>)
    requires c.group == Group(Family(gateways, c.isIpv6), c.metric)
    ensures GroupAt(gateways, c, places)
  {
    GroupInOneGo(gateways, c.isIpv6, c.metric);
    hide Group, Family;
    places := FlatMapPlaces(gateways, InGroup(c.isIpv6, c.metric));
    hide FlatMap;
  }

  /**
   * One report per family and metric that has at least two distinct addresses, and no other; each
   * names exactly the addresses of that family and metric, ascending, and carries its routes; the reports
   * are in order.
   */
  lemma CompetitionsExactly(gateways: seq<GatewayNode>)
    ensures
      var found := Competitions(gateways);
      && KeysAscend(found)
      && (forall c :: c in found ==> IsContested(gateways, c.isIpv6, c.metric))
      && (forall c :: c in found ==> Ascending(c.ips, StringLeq))
      && (forall c, ip :: c in found ==> (ip in c.ips <==> Present(gateways, c.isIpv6, c.metric, ip)))
      && (forall c :: c in found ==> exists places :: GroupAt(gateways, c, places))
      && (forall isIpv6, metric: nat :: IsContested(gateways, isIpv6, metric) ==>
            exists c :: c in found && c.isIpv6 == isIpv6 && c.metric == metric)
  {
    var v4, v6 := InFamilyOf(gateways, false), InFamilyOf(gateways, true);
    FamilyAscends(gateways, false);
    FamilyAscends(gateways, true);
    forall c ensures c in Competitions(gateways) <==> c in v4 || c in v6 {
    }
    forall c | c in v4 || c in v6
      ensures IsContested(gateways, c.isIpv6, c.metric)
      ensures Ascending(c.ips, StringLeq) && forall ip :: ip in c.ips <==> Present(gateways, c.isIpv6, c.metric, ip)
      ensures exists places :: GroupAt(gateways, c, places)
    {
      ContestMembers(gateways, c in v6, c);
      var places := GroupPlaces(gateways, c);
      AddressesExactly(gateways, c in v6, c.metric);
    }
    forall isIpv6, metric: nat | IsContested(gateways, isIpv6, metric)
      ensures exists c :: c in Competitions(gateways) && c.isIpv6 == isIpv6 && c.metric == metric
    {
      var group := Group(Family(gateways, isIpv6), metric);
      var c := Competition(isIpv6, metric, Addresses(group), group);
      ContestMembers(gateways, isIpv6, c);
      assert c in Competitions(gateways);
    }
    hide InFamilyOf, IsContested, Present, StringLeq, GroupAt;
  }

  // ----- Discriminators ---------------------------------------------------------------------

  function FormatDiscriminator(prefix: string, parts: seq<string>): string {
    if parts == [] then prefix else prefix + ":" + JoinWith(":", parts)
  }

  function FamilyName(isIpv6: bool): string { if isIpv6 then "IPv6" else "IPv4" }

  function Discriminator(c: Competition): string {
    FormatDiscriminator("EQUAL_METRIC_GW", [FamilyName(c.isIpv6), Decimal(c.metric), JoinWith("_", c.ips)])
  }

  function DiscriminatorOf(): Competition -> seq<string> { (c: Competition) => [Discriminator(c)] }

  function Discriminators(found: seq<Competition>): seq<string> { FlatMap(found, DiscriminatorOf()) }

  /** The same families, metrics and addresses occur, in any order and any number of times. */
  ghost predicate SameGateways(a: seq<GatewayNode>, b: seq<GatewayNode>) {
    forall isIpv6, metric: nat, ip :: Present(a, isIpv6, metric, ip) <==> Present(b, isIpv6, metric, ip)
  }

  lemma SameAddresses(a: seq<GatewayNode>, b: seq<GatewayNode>, isIpv6: bool, metric: nat)
    requires SameGateways(a, b)
    ensures Addresses(Group(Family(a, isIpv6), metric)) == Addresses(Group(Family(b, isIpv6), metric))
  {
    AddressesExactly(a, isIpv6, metric);
    AddressesExactly(b, isIpv6, metric);
    StringOrder();
    var x, y := Addresses(Group(Family(a, isIpv6), metric)), Addresses(Group(Family(b, isIpv6), metric));
    assert forall ip :: ip in x <==> ip in y;
    hide *;
    AscendingUnique(x, y, StringLeq);
  }

  lemma MetricMembers(gateways: seq<GatewayNode>, isIpv6: bool, metric: nat)
    ensures metric in Metrics(Family(gateways, isIpv6)) <==> exists ip :: Present(gateways, isIpv6, metric, ip)
  {
    var family := Family(gateways, isIpv6);
    MetricsExactly(family);
    FlatMapMembers(family, MetricOf(), metric);
    forall g ensures g in family <==> g in gateways && g.isIpv6 == isIpv6 {
      FlatMapMembers(gateways, InFamily(isIpv6), g);
    }
    hide FlatMap, Metrics, Family;
    if metric in Metrics(family) {
      var g :| g in family && metric in MetricOf()(g);
      assert Present(gateways, isIpv6, metric, g.gatewayIp);
    }
    if ip :| Present(gateways, isIpv6, metric, ip) {
      var i :| 0 <= i < |gateways|
        && gateways[i].isIpv6 == isIpv6 && gateways[i].metric == metric && gateways[i].gatewayIp == ip;
      assert gateways[i] in family && metric in MetricOf()(gateways[i]);
    }
  }

  lemma SameMetrics(a: seq<GatewayNode>, b: seq<GatewayNode>, isIpv6: bool)
    requires SameGateways(a, b)
    ensures Metrics(Family(a, isIpv6)) == Metrics(Family(b, isIpv6))
  {
    var x, y := Metrics(Family(a, isIpv6)), Metrics(Family(b, isIpv6));
    MetricsExactly(Family(a, isIpv6));
    MetricsExactly(Family(b, isIpv6));
    forall m: nat ensures m in x <==> m in y {
      MetricMembers(a, isIpv6, m);
      MetricMembers(b, isIpv6, m);
      hide Metrics, Family, Present;
    }
    hide *;
    AscendingUnique(x, y, NatLeq);
  }

  lemma {:induction false} SameDiscriminators(ms: seq<nat>, f: nat -> seq<Competition>, g: nat -> seq<Competition>)
    requires forall m: nat :: Discriminators(f(m)) == Discriminators(g(m))
    ensures Discriminators(FlatMap(ms, f)) == Discriminators(FlatMap(ms, g))
  {
    if ms != [] {
      SameDiscriminators(Front(ms), f, g);
      FlatMapAppend(FlatMap(Front(ms), f), f(Last(ms)), DiscriminatorOf());
      FlatMapAppend(FlatMap(Front(ms), g), g(Last(ms)), DiscriminatorOf());
      hide DiscriminatorOf;
    }
  }

  lemma OneDiscriminator(found: seq<Competition>)
    requires |found| <= 1
    ensures Discriminators(found) == if found == [] then [] else [Discriminator(found[0])]
  {
    hide Discriminator;
    if found != [] {
      assert Front(found) == [] && found == [Last(found)];
      NothingMapped(found, DiscriminatorOf());
      FlatMapStep(found, 0, DiscriminatorOf());
      assert found[..1] == found;
    }
  }

  lemma FamilyDiscriminators(a: seq<GatewayNode>, b: seq<GatewayNode>, isIpv6: bool)
    requires SameGateways(a, b)
    ensures Discriminators(InFamilyOf(a, isIpv6)) == Discriminators(InFamilyOf(b, isIpv6))
  {
    EarlyExitHarmless(a, isIpv6);
    EarlyExitHarmless(b, isIpv6);
    SameMetrics(a, b, isIpv6);
    var f, g := Contest(Family(a, isIpv6), isIpv6), Contest(Family(b, isIpv6), isIpv6);
    forall m: nat ensures Discriminators(f(m)) == Discriminators(g(m)) {
      SameAddresses(a, b, isIpv6, m);
      OneDiscriminator(f(m));
      OneDiscriminator(g(m));
    }
    hide Contest, Discriminators, Metrics, Family;
    SameDiscriminators(Metrics(Family(a, isIpv6)), f, g);
  }

  /** Permuting or repeating gateways leaves the discriminators, and so the fingerprints, as they are. */
  lemma DiscriminatorsCanonical(a: seq<GatewayNode>, b: seq<GatewayNode>)
    requires SameGateways(a, b)
    ensures Discriminators(Competitions(a)) == Discriminators(Competitions(b))
  {
    FamilyDiscriminators(a, b, false);
    FamilyDiscriminators(a, b, true);
    FlatMapAppend(InFamilyOf(a, false), InFamilyOf(a, true), DiscriminatorOf());
    FlatMapAppend(InFamilyOf(b, false), InFamilyOf(b, true), DiscriminatorOf());
    hide InFamilyOf, FlatMap, DiscriminatorOf;
  }

  lemma DiscriminatorParts(c: Competition)
    ensures Discriminator(c)
         == "EQUAL_METRIC_GW" + ":" + (FamilyName(c.isIpv6) + ":" + (Decimal(c.metric) + ":" + JoinWith("_", c.ips)))
  {
    var parts := [FamilyName(c.isIpv6), Decimal(c.metric), JoinWith("_", c.ips)];
    assert parts[1..] == [parts[1], parts[2]] && [parts[1], parts[2]][1..] == [parts[2]];
    assert JoinWith(":", [parts[2]]) == parts[2];
    assert JoinWith(":", [parts[1], parts[2]]) == parts[1] + ":" + parts[2];
    hide Decimal, FamilyName;
  }

  /**
   * What a discriminator looks like: a prefix, the name of the family, the metric in decimal and the first
   * address, separated by colons; every further address follows an underscore.
   */
  lemma DiscriminatorText(isIpv6: bool, metric: nat, ips: seq<string>, ip: string, group: seq<GatewayNode>)
    ensures
      var before := Discriminator(Competition(isIpv6, metric, ips, group));
      Discriminator(Competition(isIpv6, metric, ips + [ip], group)) ==
        if ips != [] then before + "_" + ip
        else "EQUAL_METRIC_GW:" + ((if isIpv6 then "IPv6:" else "IPv4:") + (Decimal(metric) + (":" + ip)))
  {
    DiscriminatorParts(Competition(isIpv6, metric, ips, group));
    DiscriminatorParts(Competition(isIpv6, metric, ips + [ip], group));
    JoinMore("_", ips, ip);
    hide Decimal, JoinWith, Discriminator;
  }

  /** A discriminator tells the family and the metric: two reports never share one. */
  lemma DiscriminatorDetermines(a: Competition, b: Competition)
    requires Discriminator(a) == Discriminator(b)
    ensures a.isIpv6 == b.isIpv6 && a.metric == b.metric
  {
    DiscriminatorParts(a);
    DiscriminatorParts(b);
    var restA := Decimal(a.metric) + ":" + JoinWith("_", a.ips);
    var restB := Decimal(b.metric) + ":" + JoinWith("_", b.ips);
    BeforeColon(
      "EQUAL_METRIC_GW", FamilyName(a.isIpv6) + ":" + restA,
      "EQUAL_METRIC_GW", FamilyName(b.isIpv6) + ":" + restB);
    BeforeColon(FamilyName(a.isIpv6), restA, FamilyName(b.isIpv6), restB);
    BeforeColon(Decimal(a.metric), JoinWith("_", a.ips), Decimal(b.metric), JoinWith("_", b.ips));
    DecimalUnique(a.metric, b.metric);
    assert FamilyName(false)[3] != FamilyName(true)[3];
  }
}
