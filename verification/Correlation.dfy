// Typed edges between the nodes of a topology snapshot (network/topology.rs, TopologyCorrelator):
// exactly the relations the snapshot supports, in one canonical order. Interface names enter in lower
// case, which is a function value; nodes may share a text, so edges are counted with their
// multiplicities.
module Correlation {
  import opened Observations
  import opened Seqs
  import opened Text
  import opened Topology

  function InterfaceKey(t: Texts, name: string): string { "interface:" + t.lower(name) }
  function GatewayKey(ip: string): string { "gateway:" + ip }
  function NeighborKey(ip: string): string { "neighbor:" + ip }
  function SubnetKey(cidr: string): string { "subnet:" + cidr }
  function ResolverKey(ip: string): string { "dns:" + ip }

  /** Names by index; of two interfaces with one index the later one counts. */
  function NamesByIndex(interfaces: seq<InterfaceNode>): map<nat, string> {
    if interfaces == [] then map[] else NamesByIndex(Front(interfaces))[Last(interfaces).index := Last(interfaces).name]
  }

  function EgressKey(t: Texts, names: map<nat, string>, g: GatewayNode): string {
    if g.interfaceName.Some? then InterfaceKey(t, g.interfaceName.value)
    else if g.interfaceIndex in names then InterfaceKey(t, names[g.interfaceIndex])
    else "interface:idx:" + Decimal(g.interfaceIndex)
  }

  // ----- The edges, rule by rule ------------------------------------------------------

  function HostsRule(t: Texts): SubnetNode -> seq<Edge> {
    (x: SubnetNode) => [Edge(InterfaceHostsSubnet, InterfaceKey(t, x.interfaceName), SubnetKey(x.cidr))]
  }

  function EgressRule(t: Texts, names: map<nat, string>): GatewayNode -> seq<Edge> {
    (g: GatewayNode) => [Edge(InterfaceHasGateway, EgressKey(t, names, g), GatewayKey(g.gatewayIp))]
  }

  function AdjacencyRule(t: Texts): NeighborNode -> seq<Edge> {
    (n: NeighborNode) =>
      if n.interfaceName.Some?
      then [Edge(InterfaceHasNeighbor, InterfaceKey(t, n.interfaceName.value), NeighborKey(n.ipAddress))]
      else []
  }

  /** An edge to a subnet whose block holds the address. */
  function OnSubnet(t: Texts, kind: EdgeKind, from: string, ip: string): SubnetNode -> seq<Edge> {
    (x: SubnetNode) => if InCidrText(t, ip, x.cidr) then [Edge(kind, from, SubnetKey(x.cidr))] else []
  }

  function GatewayRule(t: Texts, neighborIps: set<string>, subnets: seq<SubnetNode>): GatewayNode -> seq<Edge> {
    (g: GatewayNode) =>
      (if g.gatewayIp in neighborIps
       then [Edge(NeighborIsGateway, NeighborKey(g.gatewayIp), GatewayKey(g.gatewayIp))] else [])
      + FlatMap(subnets, OnSubnet(t, GatewayOnSubnet, GatewayKey(g.gatewayIp), g.gatewayIp))
  }

  function ResolverRule(t: Texts, subnets: seq<SubnetNode>): DnsNode -> seq<Edge> {
    (d: DnsNode) => FlatMap(subnets, OnSubnet(t, DnsOnSubnet, ResolverKey(d.serverIp), d.serverIp))
  }

  function NeighborIps(neighbors: seq<NeighborNode>): set<string> {
    set n | n in neighbors :: n.ipAddress
  }

  /** Every edge, in the order in which it is found. */
  function Found(t: Texts, s: Snapshot): seq<Edge> {
    FlatMap(s.subnets, HostsRule(t))
      + FlatMap(s.gateways, EgressRule(t, NamesByIndex(s.interfaces)))
      + FlatMap(s.neighbors, AdjacencyRule(t))
      + FlatMap(s.gateways, GatewayRule(t, NeighborIps(s.neighbors), s.subnets))
      + FlatMap(s.resolvers, ResolverRule(t, s.subnets))
  }

  /** Declaration order of the edge kinds. */
  function Rank(kind: EdgeKind): nat {
    match kind
    case InterfaceHasGateway => 0
    case InterfaceHasNeighbor => 1
    case InterfaceHostsSubnet => 2
    case NeighborIsGateway => 3
    case GatewayOnSubnet => 4
    case DnsOnSubnet => 5
  }

  predicate EdgeLeq(a: Edge, b: Edge) {
    if a.kind != b.kind then Rank(a.kind) < Rank(b.kind)
    else if a.from != b.from then StringLeq(a.from, b.from)
    else StringLeq(a.to, b.to)
  }

  function Edges(t: Texts, s: Snapshot): seq<Edge> { SortBy(Found(t, s), EdgeLeq) }

  // ----- The correlator ---------------------------------------------------------------

  /** The loop over the subnets for one address. */
  method PushSubnets(t: Texts, edges: seq<Edge>, kind: EdgeKind, from: string, ip: string, subnets: seq<SubnetNode>)
    returns (pushed: seq<Edge>)
    ensures pushed == edges + FlatMap(subnets, OnSubnet(t, kind, from, ip))
  {
    hide InCidrText, FlatMap;
    pushed := edges;
    NothingMapped(subnets, OnSubnet(t, kind, from, ip));
    for i := 0 to |subnets|
      invariant pushed == edges + FlatMap(subnets[..i], OnSubnet(t, kind, from, ip))
    {
      FlatMapStep(subnets, i, OnSubnet(t, kind, from, ip));
      Associative(edges, FlatMap(subnets[..i], OnSubnet(t, kind, from, ip)), OnSubnet(t, kind, from, ip)(subnets[i]));
      if InCidrText(t, ip, subnets[i].cidr) {
        pushed := pushed + [Edge(kind, from, SubnetKey(subnets[i].cidr))];
      }
    }
    AllTaken(subnets);
  }

  method IndexNames(interfaces: seq<InterfaceNode>) returns (names: map<nat, string>)
    ensures names == NamesByIndex(interfaces)
  {
    names := map[];
    for i := 0 to |interfaces|
      invariant names == NamesByIndex(interfaces[..i])
    {
      names := names[interfaces[i].index := interfaces[i].name];
      assert Front(interfaces[..i + 1]) == interfaces[..i];
    }
    AllTaken(interfaces);
  }

  /** The loop that places the gateways among neighbors and subnets. */
  method PushGateways(
      t: Texts, edges: seq<Edge>, gateways: seq<GatewayNode>, neighborIps: set<string>,
      subnets: seq<SubnetNode>)
    returns (pushed: seq<Edge>)
    ensures pushed == edges + FlatMap(gateways, GatewayRule(t, neighborIps, subnets))
  {
    hide InCidrText, FlatMap, GatewayKey, NeighborKey, SubnetKey;
    pushed := edges;
    var rule := GatewayRule(t, neighborIps, subnets);
    NothingMapped(gateways, rule);
    for i := 0 to |gateways|
      invariant pushed == edges + FlatMap(gateways[..i], rule)
    {
      var g := gateways[i];
      var before := pushed;
      if g.gatewayIp in neighborIps {
        pushed := pushed + [Edge(NeighborIsGateway, NeighborKey(g.gatewayIp), GatewayKey(g.gatewayIp))];
      }
      ghost var first := if g.gatewayIp in neighborIps
        then [Edge(NeighborIsGateway, NeighborKey(g.gatewayIp), GatewayKey(g.gatewayIp))] else [];
      assert pushed == before + first;
      pushed := PushSubnets(t, pushed, GatewayOnSubnet, GatewayKey(g.gatewayIp), g.gatewayIp, subnets);
      Associative(before, first, FlatMap(subnets, OnSubnet(t, GatewayOnSubnet, GatewayKey(g.gatewayIp), g.gatewayIp)));
      FlatMapStep(gateways, i, rule);
      Associative(edges, FlatMap(gateways[..i], rule), rule(g));
    }
    AllTaken(gateways);
  }

  method PushResolvers(t: Texts, edges: seq<Edge>, resolvers: seq<DnsNode>, subnets: seq<SubnetNode>)
    returns (pushed: seq<Edge>)
    ensures pushed == edges + FlatMap(resolvers, ResolverRule(t, subnets))
  {
    hide InCidrText, FlatMap, ResolverKey, SubnetKey;
    pushed := edges;
    var rule := ResolverRule(t, subnets);
    NothingMapped(resolvers, rule);
    for i := 0 to |resolvers|
      invariant pushed == edges + FlatMap(resolvers[..i], rule)
    {
      var d := resolvers[i];
      pushed := PushSubnets(t, pushed, DnsOnSubnet, ResolverKey(d.serverIp), d.serverIp, subnets);
      FlatMapStep(resolvers, i, rule);
      Associative(edges, FlatMap(resolvers[..i], rule), rule(d));
    }
    AllTaken(resolvers);
  }

  method Correlate(t: Texts, s: Snapshot) returns (edges: seq<Edge>)
    ensures edges == Edges(t, s)
  {
    hide FlatMap, SortBy, HostsRule, EgressRule, AdjacencyRule, GatewayRule, ResolverRule;
    var names := IndexNames(s.interfaces);
    edges := Collect(s.subnets, HostsRule(t));
    var egress := Collect(s.gateways, EgressRule(t, names));
    edges := edges + egress;
    var adjacent := Collect(s.neighbors, AdjacencyRule(t));
    edges := edges + adjacent;
    var neighborIps := NeighborIps(s.neighbors);
    edges := PushGateways(t, edges, s.gateways, neighborIps, s.subnets);
    edges := PushResolvers(t, edges, s.resolvers, s.subnets);
    edges := SortBy(edges, EdgeLeq);
  }

  // ----- Soundness and completeness -----------------------------------------------------

  /** The relation that justifies an edge, kind by kind. */
  ghost predicate Derivable(t: Texts, s: Snapshot, e: Edge) {
    match e.kind
    case InterfaceHostsSubnet =>
      exists x :: x in s.subnets && e.from == InterfaceKey(t, x.interfaceName) && e.to == SubnetKey(x.cidr)
    case InterfaceHasGateway =>
      exists g :: g in s.gateways && e.from == EgressKey(t, NamesByIndex(s.interfaces), g)
        && e.to == GatewayKey(g.gatewayIp)
    case InterfaceHasNeighbor =>
      exists n :: n in s.neighbors && n.interfaceName.Some?
        && e.from == InterfaceKey(t, n.interfaceName.value) && e.to == NeighborKey(n.ipAddress)
    case NeighborIsGateway =>
      exists g, n :: g in s.gateways && n in s.neighbors && n.ipAddress == g.gatewayIp
        && e.from == NeighborKey(g.gatewayIp) && e.to == GatewayKey(g.gatewayIp)
    case GatewayOnSubnet =>
      exists g, x :: g in s.gateways && x in s.subnets && InCidrText(t, g.gatewayIp, x.cidr)
        && e.from == GatewayKey(g.gatewayIp) && e.to == SubnetKey(x.cidr)
    case DnsOnSubnet =>
      exists d, x :: d in s.resolvers && x in s.subnets && InCidrText(t, d.serverIp, x.cidr)
        && e.from == ResolverKey(d.serverIp) && e.to == SubnetKey(x.cidr)
  }

  lemma OnSubnetMembers(t: Texts, kind: EdgeKind, from: string, ip: string, subnets: seq<SubnetNode>, e: Edge)
    ensures e in FlatMap(subnets, OnSubnet(t, kind, from, ip)) <==>
      && e.kind == kind && e.from == from
      && exists x :: x in subnets && InCidrText(t, ip, x.cidr) && e.to == SubnetKey(x.cidr)
  {
    hide InCidrText, SubnetKey;
    FlatMapMembers(subnets, OnSubnet(t, kind, from, ip), e);
    if x :| x in subnets && InCidrText(t, ip, x.cidr) && e == Edge(kind, from, SubnetKey(x.cidr)) {
      assert e in OnSubnet(t, kind, from, ip)(x);
    }
  }

  lemma HostsMembers(t: Texts, s: Snapshot, e: Edge)
    ensures e in FlatMap(s.subnets, HostsRule(t)) <==> e.kind == InterfaceHostsSubnet && Derivable(t, s, e)
  {
    hide InterfaceKey, SubnetKey;
    FlatMapMembers(s.subnets, HostsRule(t), e);
    if e.kind == InterfaceHostsSubnet && Derivable(t, s, e) {
      var x :| x in s.subnets && e.from == InterfaceKey(t, x.interfaceName) && e.to == SubnetKey(x.cidr);
      assert e in HostsRule(t)(x);
    }
  }

  lemma EgressMembers(t: Texts, s: Snapshot, e: Edge)
    ensures e in FlatMap(s.gateways, EgressRule(t, NamesByIndex(s.interfaces)))
       <==> e.kind == InterfaceHasGateway && Derivable(t, s, e)
  {
    hide EgressKey, GatewayKey, NamesByIndex;
    var rule := EgressRule(t, NamesByIndex(s.interfaces));
    FlatMapMembers(s.gateways, rule, e);
    if e.kind == InterfaceHasGateway && Derivable(t, s, e) {
      var g :| g in s.gateways && e.from == EgressKey(t, NamesByIndex(s.interfaces), g)
        && e.to == GatewayKey(g.gatewayIp);
      assert e in rule(g);
    }
  }

  lemma AdjacencyMembers(t: Texts, s: Snapshot, e: Edge)
    ensures e in FlatMap(s.neighbors, AdjacencyRule(t)) <==> e.kind == InterfaceHasNeighbor && Derivable(t, s, e)
  {
    hide InterfaceKey, NeighborKey;
    FlatMapMembers(s.neighbors, AdjacencyRule(t), e);
    if e.kind == InterfaceHasNeighbor && Derivable(t, s, e) {
      var n :| n in s.neighbors && n.interfaceName.Some?
        && e.from == InterfaceKey(t, n.interfaceName.value) && e.to == NeighborKey(n.ipAddress);
      assert e in AdjacencyRule(t)(n);
    }
  }

  lemma GatewayRuleMembers(t: Texts, s: Snapshot, g: GatewayNode, e: Edge)
    requires g in s.gateways
    ensures e in GatewayRule(t, NeighborIps(s.neighbors), s.subnets)(g) <==>
      || (e == Edge(NeighborIsGateway, NeighborKey(g.gatewayIp), GatewayKey(g.gatewayIp))
          && exists n :: n in s.neighbors && n.ipAddress == g.gatewayIp)
      || (e.kind == GatewayOnSubnet && e.from == GatewayKey(g.gatewayIp)
          && exists x :: x in s.subnets && InCidrText(t, g.gatewayIp, x.cidr) && e.to == SubnetKey(x.cidr))
  {
    hide InCidrText, GatewayKey, NeighborKey, SubnetKey, FlatMap;
    OnSubnetMembers(t, GatewayOnSubnet, GatewayKey(g.gatewayIp), g.gatewayIp, s.subnets, e);
  }

  lemma GatewayMembers(t: Texts, s: Snapshot, e: Edge)
    ensures e in FlatMap(s.gateways, GatewayRule(t, NeighborIps(s.neighbors), s.subnets))
       <==> (e.kind == NeighborIsGateway || e.kind == GatewayOnSubnet) && Derivable(t, s, e)
  {
    hide InCidrText, GatewayKey, NeighborKey, SubnetKey, GatewayRule, NeighborIps;
    var rule := GatewayRule(t, NeighborIps(s.neighbors), s.subnets);
    FlatMapMembers(s.gateways, rule, e);
    forall g | g in s.gateways ensures e in rule(g) <==>
      || (e == Edge(NeighborIsGateway, NeighborKey(g.gatewayIp), GatewayKey(g.gatewayIp))
          && exists n :: n in s.neighbors && n.ipAddress == g.gatewayIp)
      || (e.kind == GatewayOnSubnet && e.from == GatewayKey(g.gatewayIp)
          && exists x :: x in s.subnets && InCidrText(t, g.gatewayIp, x.cidr) && e.to == SubnetKey(x.cidr))
    {
      GatewayRuleMembers(t, s, g, e);
    }
    hide FlatMap;
  }

  lemma ResolverMembers(t: Texts, s: Snapshot, e: Edge)
    ensures e in FlatMap(s.resolvers, ResolverRule(t, s.subnets)) <==> e.kind == DnsOnSubnet && Derivable(t, s, e)
  {
    hide InCidrText, ResolverKey, SubnetKey;
    var rule := ResolverRule(t, s.subnets);
    FlatMapMembers(s.resolvers, rule, e);
    forall d ensures e in rule(d) <==>
      e.kind == DnsOnSubnet && e.from == ResolverKey(d.serverIp)
      && exists x :: x in s.subnets && InCidrText(t, d.serverIp, x.cidr) && e.to == SubnetKey(x.cidr)
    {
      OnSubnetMembers(t, DnsOnSubnet, ResolverKey(d.serverIp), d.serverIp, s.subnets, e);
    }
    hide FlatMap;
  }

  lemma EdgeOrder()
    ensures TotalPreorder(EdgeLeq) && Antisymmetric(EdgeLeq)
  {
    StringOrder();
  }

  lemma FoundExactly(t: Texts, s: Snapshot, e: Edge)
    ensures e in Found(t, s) <==> Derivable(t, s, e)
  {
    HostsMembers(t, s, e);
    EgressMembers(t, s, e);
    AdjacencyMembers(t, s, e);
    GatewayMembers(t, s, e);
    ResolverMembers(t, s, e);
    hide FlatMap, HostsRule, EgressRule, AdjacencyRule, GatewayRule, ResolverRule, Derivable, NamesByIndex, NeighborIps;
  }

  /** The correlator returns exactly the derivable edges, sorted by kind, source and destination. */
  lemma EdgesExactly(t: Texts, s: Snapshot)
    ensures Sorted(Edges(t, s), EdgeLeq) && multiset(Edges(t, s)) == multiset(Found(t, s))
    ensures forall e :: e in Edges(t, s) <==> Derivable(t, s, e)
  {
    EdgeOrder();
    SortBySorts(Found(t, s), EdgeLeq);
    hide EdgeLeq, SortBy, StringLeq;
    SameMembers(Edges(t, s), Found(t, s));
    forall e ensures e in Found(t, s) <==> Derivable(t, s, e) {
      FoundExactly(t, s, e);
    }
  }

  // ----- Order of the snapshot ------------------------------------------------------------

  /** The same nodes in some other order. */
  ghost predicate Rearranged(a: Snapshot, b: Snapshot) {
    && multiset(a.interfaces) == multiset(b.interfaces) && multiset(a.gateways) == multiset(b.gateways)
    && multiset(a.resolvers) == multiset(b.resolvers) && multiset(a.neighbors) == multiset(b.neighbors)
    && multiset(a.subnets) == multiset(b.subnets)
  }

  /** No gateway has to be named after one of two interfaces that share its index under different names. */
  ghost predicate OneEgressName(t: Texts, s: Snapshot) {
    forall g, x, y ::
      (g in s.gateways && g.interfaceName.None? && x in s.interfaces && y in s.interfaces
       && x.index == g.interfaceIndex && y.index == g.interfaceIndex) ==> t.lower(x.name) == t.lower(y.name)
  }

  lemma {:induction false} NamesExactly(interfaces: seq<InterfaceNode>)
    ensures
      var names := NamesByIndex(interfaces);
      && (forall i :: i in interfaces ==> i.index in names)
      && (forall index :: index in names ==> exists i :: i in interfaces && i.index == index && i.name == names[index])
  {
    if interfaces != [] {
      var front, last := Front(interfaces), Last(interfaces);
      NamesExactly(front);
      FrontLast(interfaces);
      var names := NamesByIndex(interfaces);
      forall index | index in names ensures exists i :: i in interfaces && i.index == index && i.name == names[index] {
        if index == last.index {
          assert last in interfaces;
        } else {
          var i :| i in front && i.index == index && i.name == NamesByIndex(front)[index];
          assert i in interfaces;
        }
      }
    }
  }

  lemma SameKey(t: Texts, a: string, b: string)
    requires t.lower(a) == t.lower(b)
    ensures InterfaceKey(t, a) == InterfaceKey(t, b)
  {
  }

  lemma NameIsOneOf(interfaces: seq<InterfaceNode>, index: nat)
    ensures
      var names := NamesByIndex(interfaces);
      && (index in names <==> exists i :: i in interfaces && i.index == index)
      && (index in names ==> exists i :: i in interfaces && i.index == index && i.name == names[index])
  {
    NamesExactly(interfaces);
    hide NamesByIndex;
  }

  /** The egress of a gateway is found under the same key whatever the order of the interfaces. */
  lemma SameEgress(t: Texts, a: Snapshot, b: Snapshot, g: GatewayNode)
    requires Rearranged(a, b) && OneEgressName(t, a) && g in a.gateways
    ensures EgressKey(t, NamesByIndex(a.interfaces), g) == EgressKey(t, NamesByIndex(b.interfaces), g)
  {
    if g.interfaceName.None? {
      SameMembers(a.interfaces, b.interfaces);
      NameIsOneOf(a.interfaces, g.interfaceIndex);
      NameIsOneOf(b.interfaces, g.interfaceIndex);
      hide NamesByIndex, InterfaceKey;
      if g.interfaceIndex in NamesByIndex(a.interfaces) {
        var i :| i in a.interfaces && i.index == g.interfaceIndex
          && i.name == NamesByIndex(a.interfaces)[g.interfaceIndex];
        var j :| j in b.interfaces && j.index == g.interfaceIndex
          && j.name == NamesByIndex(b.interfaces)[g.interfaceIndex];
        assert t.lower(i.name) == t.lower(j.name);
        SameKey(t, i.name, j.name);
      }
    }
  }

  lemma SameEgressEdges(t: Texts, a: Snapshot, b: Snapshot)
    requires Rearranged(a, b) && OneEgressName(t, a)
    ensures multiset(FlatMap(a.gateways, EgressRule(t, NamesByIndex(a.interfaces))))
         == multiset(FlatMap(b.gateways, EgressRule(t, NamesByIndex(b.interfaces))))
  {
    var f, h := EgressRule(t, NamesByIndex(a.interfaces)), EgressRule(t, NamesByIndex(b.interfaces));
    forall g | g in a.gateways ensures f(g) == h(g) {
      SameEgress(t, a, b, g);
    }
    hide EgressKey, NamesByIndex;
    FlatMapSame(a.gateways, f, h);
    FlatMapPermutation(a.gateways, b.gateways, h);
  }

  lemma SameGatewayEdges(t: Texts, a: Snapshot, b: Snapshot)
    requires Rearranged(a, b)
    ensures multiset(FlatMap(a.gateways, GatewayRule(t, NeighborIps(a.neighbors), a.subnets)))
         == multiset(FlatMap(b.gateways, GatewayRule(t, NeighborIps(b.neighbors), b.subnets)))
  {
    SameMembers(a.neighbors, b.neighbors);
    assert NeighborIps(a.neighbors) == NeighborIps(b.neighbors);
    var ips := NeighborIps(a.neighbors);
    var f, g := GatewayRule(t, ips, a.subnets), GatewayRule(t, ips, b.subnets);
    forall x ensures multiset(f(x)) == multiset(g(x)) {
      FlatMapPermutation(a.subnets, b.subnets, OnSubnet(t, GatewayOnSubnet, GatewayKey(x.gatewayIp), x.gatewayIp));
    }
    FlatMapSameBag(a.gateways, f, g);
    FlatMapPermutation(a.gateways, b.gateways, g);
  }

  lemma SameResolverEdges(t: Texts, a: Snapshot, b: Snapshot)
    requires Rearranged(a, b)
    ensures multiset(FlatMap(a.resolvers, ResolverRule(t, a.subnets)))
         == multiset(FlatMap(b.resolvers, ResolverRule(t, b.subnets)))
  {
    var f, g := ResolverRule(t, a.subnets), ResolverRule(t, b.subnets);
    forall x ensures multiset(f(x)) == multiset(g(x)) {
      FlatMapPermutation(a.subnets, b.subnets, OnSubnet(t, DnsOnSubnet, ResolverKey(x.serverIp), x.serverIp));
    }
    FlatMapSameBag(a.resolvers, f, g);
    FlatMapPermutation(a.resolvers, b.resolvers, g);
  }

  lemma SameFound(t: Texts, a: Snapshot, b: Snapshot)
    requires Rearranged(a, b) && OneEgressName(t, a)
    ensures multiset(Found(t, a)) == multiset(Found(t, b))
  {
    FlatMapPermutation(a.subnets, b.subnets, HostsRule(t));
    SameEgressEdges(t, a, b);
    FlatMapPermutation(a.neighbors, b.neighbors, AdjacencyRule(t));
    SameGatewayEdges(t, a, b);
    SameResolverEdges(t, a, b);
    hide FlatMap, HostsRule, EgressRule, AdjacencyRule, GatewayRule;
    hide ResolverRule, NamesByIndex, NeighborIps, OneEgressName;
  }

  /** With one name per index that names a gateway's egress, the order of the lists leaves no trace in the edges. */
  lemma SnapshotOrderIrrelevant(t: Texts, a: Snapshot, b: Snapshot)
    requires Rearranged(a, b) && OneEgressName(t, a)
    ensures Edges(t, a) == Edges(t, b)
  {
    SameFound(t, a, b);
    EdgeOrder();
    hide Found, EdgeLeq, SortBy, Rearranged, OneEgressName;
    SortByPermutation(Found(t, a), Found(t, b), EdgeLeq);
  }

  // ----- Where the order does show ----------------------------------------------------------

  lemma KeysDiffer(t: Texts, a: string, b: string)
    requires t.lower(a) != t.lower(b)
    ensures InterfaceKey(t, a) != InterfaceKey(t, b)
  {
    var prefix := "interface:";
    assert InterfaceKey(t, a)[|prefix|..] == t.lower(a) && InterfaceKey(t, b)[|prefix|..] == t.lower(b);
  }

  lemma NamesSnoc(interfaces: seq<InterfaceNode>, last: InterfaceNode)
    ensures NamesByIndex(interfaces + [last]) == NamesByIndex(interfaces)[last.index := last.name]
  {
    assert Front(interfaces + [last]) == interfaces;
  }

  /** Taking an interface out changes no name but that of its own index. */
  lemma {:induction false} NamesWithout(left: seq<InterfaceNode>, w: InterfaceNode, right: seq<InterfaceNode>)
    ensures
      var with, without := NamesByIndex(left + [w] + right), NamesByIndex(left + right);
      forall i: nat :: i != w.index ==> (i in with <==> i in without) && (i in with ==> with[i] == without[i])
    decreases |right|
  {
    if right == [] {
      assert left + [w] + right == left + [w] && left + right == left;
      NamesSnoc(left, w);
    } else {
      var front, last := Front(right), Last(right);
      assert left + [w] + right == (left + [w] + front) + [last] && left + right == (left + front) + [last];
      NamesSnoc(left + [w] + front, last);
      NamesSnoc(left + front, last);
      NamesWithout(left, w, front);
      hide NamesByIndex;
    }
  }

  /** An interface moved to the end names its index, and every other index keeps its name. */
  lemma MoveToEnd(interfaces: seq<InterfaceNode>, w: InterfaceNode) returns (moved: seq<InterfaceNode>)
    requires w in interfaces
    ensures multiset(moved) == multiset(interfaces)
    ensures
      var before, after := NamesByIndex(interfaces), NamesByIndex(moved);
      && w.index in after && after[w.index] == w.name
      && forall i: nat :: i != w.index ==> (i in before <==> i in after) && (i in before ==> before[i] == after[i])
  {
    var j := Extract(interfaces, w);
    var left, right := interfaces[..j], interfaces[j + 1..];
    NamesWithout(left, w, right);
    moved := left + right + [w];
    assert Front(moved) == left + right;
  }

  /** Pointwise at most as many edges, and fewer somewhere, are fewer edges in all. */
  lemma {:induction false} FewerEdges(
      xs: seq<GatewayNode>, f: GatewayNode -> seq<Edge>, h: GatewayNode -> seq<Edge>, e: Edge)
    requires forall x :: x in xs ==> multiset(h(x))[e] <= multiset(f(x))[e]
    ensures multiset(FlatMap(xs, h))[e] <= multiset(FlatMap(xs, f))[e]
    ensures (exists x :: x in xs && multiset(h(x))[e] < multiset(f(x))[e]) ==>
      multiset(FlatMap(xs, h))[e] < multiset(FlatMap(xs, f))[e]
  {
    if xs != [] {
      FrontLast(xs);
      FewerEdges(Front(xs), f, h, e);
      assert multiset(FlatMap(xs, f)) == multiset(FlatMap(Front(xs), f)) + multiset(f(Last(xs)));
      assert multiset(FlatMap(xs, h)) == multiset(FlatMap(Front(xs), h)) + multiset(h(Last(xs)));
    }
  }

  /** If the egress of a gateway is renamed, edges under the old key are lost. */
  lemma EgressRenamed(t: Texts, s: Snapshot, g: GatewayNode, former: map<nat, string>, renamed: map<nat, string>)
    requires g in s.gateways && g.interfaceName.None?
    requires g.interfaceIndex in former && g.interfaceIndex in renamed
    requires t.lower(former[g.interfaceIndex]) != t.lower(renamed[g.interfaceIndex])
    requires forall i: nat :: i != g.interfaceIndex ==>
      (i in former <==> i in renamed) && (i in former ==> former[i] == renamed[i])
    ensures
      var e := Edge(InterfaceHasGateway, InterfaceKey(t, former[g.interfaceIndex]), GatewayKey(g.gatewayIp));
      multiset(FlatMap(s.gateways, EgressRule(t, renamed)))[e] < multiset(FlatMap(s.gateways, EgressRule(t, former)))[e]
  {
    var e := Edge(InterfaceHasGateway, InterfaceKey(t, former[g.interfaceIndex]), GatewayKey(g.gatewayIp));
    var f, h := EgressRule(t, former), EgressRule(t, renamed);
    KeysDiffer(t, former[g.interfaceIndex], renamed[g.interfaceIndex]);
    hide InterfaceKey, GatewayKey;
    forall x | x in s.gateways ensures multiset(h(x))[e] <= multiset(f(x))[e] {
      if x.interfaceName.Some? || x.interfaceIndex != g.interfaceIndex {
        assert EgressKey(t, former, x) == EgressKey(t, renamed, x);
      }
    }
    assert multiset(h(g))[e] < multiset(f(g))[e];
    FewerEdges(s.gateways, f, h, e);
  }

  lemma FoundDiffers(t: Texts, a: Snapshot, b: Snapshot, e: Edge)
    requires a.(interfaces := b.interfaces) == b
    requires multiset(FlatMap(a.gateways, EgressRule(t, NamesByIndex(b.interfaces))))[e]
           < multiset(FlatMap(a.gateways, EgressRule(t, NamesByIndex(a.interfaces))))[e]
    ensures multiset(Found(t, a)) != multiset(Found(t, b))
  {
    hide FlatMap, HostsRule, EgressRule, AdjacencyRule, GatewayRule, ResolverRule, NamesByIndex, NeighborIps;
    var head := FlatMap(a.subnets, HostsRule(t));
    var x := FlatMap(a.gateways, EgressRule(t, NamesByIndex(a.interfaces)));
    var y := FlatMap(a.gateways, EgressRule(t, NamesByIndex(b.interfaces)));
    var mid := FlatMap(a.neighbors, AdjacencyRule(t));
    var gws := FlatMap(a.gateways, GatewayRule(t, NeighborIps(a.neighbors), a.subnets));
    var dns := FlatMap(a.resolvers, ResolverRule(t, a.subnets));
    assert Found(t, a) == head + x + mid + gws + dns && Found(t, b) == head + y + mid + gws + dns;
    assert multiset(head + x + mid + gws + dns)[e] != multiset(head + y + mid + gws + dns)[e];
  }

  lemma EdgesBag(t: Texts, s: Snapshot)
    ensures multiset(Edges(t, s)) == multiset(Found(t, s))
  {
    EdgeOrder();
    hide EdgeLeq, Found;
    SortBySorts(Found(t, s), EdgeLeq);
  }

  /**
   * Two differently named interfaces of the index of a nameless gateway: putting the other one last
   * changes the edges.
   */
  lemma OrderShows(t: Texts, s: Snapshot, g: GatewayNode, x: InterfaceNode, y: InterfaceNode) returns (b: Snapshot)
    requires g in s.gateways && g.interfaceName.None? && x in s.interfaces && y in s.interfaces
    requires x.index == g.interfaceIndex && y.index == g.interfaceIndex && t.lower(x.name) != t.lower(y.name)
    ensures Rearranged(s, b) && Edges(t, s) != Edges(t, b)
  {
    NamesExactly(s.interfaces);
    var names := NamesByIndex(s.interfaces);
    hide NamesByIndex, Edges, Found, EgressRule, FlatMap;
    assert g.interfaceIndex in names;
    var w := if t.lower(names[g.interfaceIndex]) == t.lower(x.name) then y else x;
    var moved := MoveToEnd(s.interfaces, w);
    b := s.(interfaces := moved);
    EgressRenamed(t, s, g, names, NamesByIndex(moved));
    FoundDiffers(t, s, b, Edge(InterfaceHasGateway, InterfaceKey(t, names[g.interfaceIndex]), GatewayKey(g.gatewayIp)));
    EdgesBag(t, s);
    EdgesBag(t, b);
  }

  /** Every arrangement of the snapshot's lists gives the same edges. */
  ghost predicate OrderBlind(t: Texts, s: Snapshot) {
    forall b :: Rearranged(s, b) ==> Edges(t, s) == Edges(t, b)
  }

  /**
   * The edges are blind to the order of the snapshot exactly if interfaces that share a nameless
   * gateway's index share a name.
   */
  lemma OrderBlindExactly(t: Texts, s: Snapshot)
    ensures OrderBlind(t, s) <==> OneEgressName(t, s)
  {
    hide Edges, Rearranged;
    if OneEgressName(t, s) {
      forall b | Rearranged(s, b) ensures Edges(t, s) == Edges(t, b) {
        SnapshotOrderIrrelevant(t, s, b);
      }
    } else {
      var g, x, y :| g in s.gateways && g.interfaceName.None? && x in s.interfaces && y in s.interfaces
        && x.index == g.interfaceIndex && y.index == g.interfaceIndex && t.lower(x.name) != t.lower(y.name);
      var b := OrderShows(t, s, g, x, y);
    }
  }
}
