// What a topology snapshot holds, field by field, and what the extraction takes from the observations
// of a cycle (network/topology.rs), in terms of the payloads and observations alone.
module TopologyContents {
  import opened IpAddress
  import opened Observations
  import opened Seqs
  import opened Text
  import opened Topology

  // ----- The lists of the snapshot ----------------------------------------------------

  /** A default gateway as a route shows it. */
  predicate ShowsGateway(r: RouteRecord, g: GatewayNode) {
    && r.isDefaultGateway && r.gatewayIp == Some(g.gatewayIp) && r.interfaceIndex == g.interfaceIndex
    && r.interfaceName == g.interfaceName && r.metric == g.metric && r.isIpv6 == g.isIpv6
  }

  predicate IsDefaultRoute(r: RouteRecord) { r.isDefaultGateway && r.gatewayIp.Some? }

  predicate ShowsResolver(d: DnsRecord, x: DnsNode) {
    d.serverAddress == x.serverIp && d.isIpv6 == x.isIpv6 && d.classification == x.classification
  }

  predicate ShowsNeighbor(n: NeighborRecord, x: NeighborNode) {
    && n.ipAddress == x.ipAddress && n.macHash == x.macHash && n.interfaceName == x.interfaceName
    && n.state == x.state && n.classification == x.classification && (x.isRouter <==> n.isRouter == Some(true))
  }

  predicate ShowsInterface(i: InterfaceRecord, x: InterfaceNode) {
    && i.name == x.name && i.index == x.index && i.isUp == x.isUp && i.isLoopback == x.isLoopback
    && i.macHash == x.macHash && |x.ipAddresses| == |i.ipAddresses|
    && forall k :: 0 <= k < |i.ipAddresses| ==> x.ipAddresses[k] == i.ipAddresses[k].ipAddress
  }

  /** An address that makes a subnet: its class is of a local network or public. */
  predicate MakesSubnet(i: InterfaceRecord, r: IpRecord) {
    i.isUp && !i.isLoopback && r.classification in {Loopback, Private, LinkLocal, CarrierGradeNat, PublicGlobal}
  }

  predicate ShowsSubnet(i: InterfaceRecord, r: IpRecord, x: SubnetNode) {
    && MakesSubnet(i, r) && x.cidr == r.ipAddress + "/" + Decimal(r.prefixLength)
    && x.interfaceName == i.name && x.isIpv6 == r.isIpv6 && x.classification == r.classification
  }

  lemma SortedMembers<T(!new)>(xs: seq<T>, leq: (T, T) -> bool, x: T)
    requires TotalPreorder(leq)
    ensures x in SortBy(xs, leq) <==> x in xs
    ensures |SortBy(xs, leq)| == |xs|
  {
    SortBySorts(xs, leq);
    SameMembers(SortBy(xs, leq), xs);
    assert |multiset(SortBy(xs, leq))| == |multiset(xs)|;
  }

  lemma PlacesOfNone<T>(p: T -> bool)
    ensures Places([], p) == {}
  {
  }

  /** Every default route with an address, and nothing else, is a gateway; sorted by metric, then address. */
  lemma GatewaysExactly(s: Sources, g: GatewayNode)
    ensures
      var gateways := Built(s).gateways;
      && (g in gateways <==> s.routes.Some? && exists r :: r in s.routes.value && ShowsGateway(r, g))
      && |gateways| == (if s.routes.Some? then |Places(s.routes.value, IsDefaultRoute)| else 0)
      && forall i, j :: 0 <= i < j < |gateways| ==>
           || gateways[i].metric < gateways[j].metric
           || (gateways[i].metric == gateways[j].metric && StringLeq(gateways[i].gatewayIp, gateways[j].gatewayIp))
  {
    var routes := OrEmpty(s.routes);
    TopologyOrders();
    SortedMembers(FlatMap(routes, GatewayOf), GatewayLeq, g);
    SortBySorts(FlatMap(routes, GatewayOf), GatewayLeq);
    FlatMapMembers(routes, GatewayOf, g);
    FlatMapLength(routes, GatewayOf, IsDefaultRoute);
    hide FlatMap, SortBy, StringLeq, Places;
    assert forall r :: g in GatewayOf(r) <==> ShowsGateway(r, g);
    assert s.routes.None? ==> Places(routes, IsDefaultRoute) == {} by {
      PlacesOfNone(IsDefaultRoute);
    }
    hide GatewayOf;
  }

  lemma {:induction false} OneEach<T, U>(xs: seq<T>, f: T -> seq<U>)
    requires forall x :: x in xs ==> |f(x)| == 1
    ensures |FlatMap(xs, f)| == |xs|
  {
    if xs != [] {
      OneEach(Front(xs), f);
    }
  }

  /** The resolvers are the servers of the payload, sorted by address. */
  lemma ResolversExactly(s: Sources, x: DnsNode)
    ensures
      var resolvers := Built(s).resolvers;
      && (x in resolvers <==> s.dns.Some? && exists d :: d in s.dns.value && ShowsResolver(d, x))
      && |resolvers| == (if s.dns.Some? then |s.dns.value| else 0)
      && forall i, j :: 0 <= i < j < |resolvers| ==> StringLeq(resolvers[i].serverIp, resolvers[j].serverIp)
  {
    var servers := OrEmpty(s.dns);
    TopologyOrders();
    SortedMembers(FlatMap(servers, ResolverOf), ResolverLeq, x);
    SortBySorts(FlatMap(servers, ResolverOf), ResolverLeq);
    FlatMapMembers(servers, ResolverOf, x);
    OneEach(servers, ResolverOf);
    hide FlatMap, SortBy, StringLeq;
    assert forall d :: x in ResolverOf(d) <==> ShowsResolver(d, x);
    hide ResolverOf;
  }

  /** The neighbors are those of the payload, sorted by address; a router is one that says so. */
  lemma NeighborsExactly(s: Sources, x: NeighborNode)
    ensures
      var neighbors := Built(s).neighbors;
      && (x in neighbors <==> s.neighbors.Some? && exists n :: n in s.neighbors.value && ShowsNeighbor(n, x))
      && |neighbors| == (if s.neighbors.Some? then |s.neighbors.value| else 0)
      && forall i, j :: 0 <= i < j < |neighbors| ==> StringLeq(neighbors[i].ipAddress, neighbors[j].ipAddress)
  {
    var records := OrEmpty(s.neighbors);
    TopologyOrders();
    SortedMembers(FlatMap(records, AdjacentOf), AdjacentLeq, x);
    SortBySorts(FlatMap(records, AdjacentOf), AdjacentLeq);
    FlatMapMembers(records, AdjacentOf, x);
    OneEach(records, AdjacentOf);
    hide FlatMap, SortBy, StringLeq;
    assert forall n :: x in AdjacentOf(n) <==> ShowsNeighbor(n, x);
    hide AdjacentOf;
  }

  lemma {:induction false} AddressesInOrder(records: seq<IpRecord>)
    ensures
      var texts := FlatMap(records, (r: IpRecord) => [r.ipAddress]);
      |texts| == |records| && forall k :: 0 <= k < |records| ==> texts[k] == records[k].ipAddress
  {
    if records != [] {
      AddressesInOrder(Front(records));
    }
  }

  lemma NodeShows(i: InterfaceRecord, x: InterfaceNode)
    ensures x in NodeOf(i) <==> ShowsInterface(i, x)
  {
    AddressesInOrder(i.ipAddresses);
    var texts := FlatMap(i.ipAddresses, (r: IpRecord) => [r.ipAddress]);
    assert NodeOf(i)[0].ipAddresses == texts;
    hide FlatMap;
    if ShowsInterface(i, x) {
      assert x.ipAddresses == texts;
    }
  }

  /** The interfaces are those of the payload with all their addresses in order, sorted by index. */
  lemma InterfacesExactly(s: Sources, x: InterfaceNode)
    ensures
      var interfaces := Built(s).interfaces;
      && (x in interfaces <==> s.interfaces.Some? && exists i :: i in s.interfaces.value && ShowsInterface(i, x))
      && |interfaces| == (if s.interfaces.Some? then |s.interfaces.value| else 0)
      && forall i, j :: 0 <= i < j < |interfaces| ==> interfaces[i].index <= interfaces[j].index
  {
    var records := OrEmpty(s.interfaces);
    TopologyOrders();
    SortedMembers(FlatMap(records, NodeOf), IndexLeq, x);
    SortBySorts(FlatMap(records, NodeOf), IndexLeq);
    FlatMapMembers(records, NodeOf, x);
    OneEach(records, NodeOf);
    forall i ensures x in NodeOf(i) <==> ShowsInterface(i, x) {
      NodeShows(i, x);
    }
    hide FlatMap, SortBy, NodeOf, ShowsInterface;
  }

  lemma SubnetShows(i: InterfaceRecord, x: SubnetNode)
    ensures x in SubnetsOf(i) <==> exists r :: r in i.ipAddresses && ShowsSubnet(i, r, x)
  {
    if i.isUp && !i.isLoopback {
      FlatMapMembers(i.ipAddresses, SubnetOf(i.name), x);
      hide FlatMap;
      assert forall r :: x in SubnetOf(i.name)(r) <==> ShowsSubnet(i, r, x);
    }
  }

  /** How many subnets the addresses of the interfaces make. */
  function SubnetCount(records: seq<InterfaceRecord>): nat {
    if records == [] then 0
    else
      var i := Last(records);
      SubnetCount(Front(records)) + |Places(i.ipAddresses, (r: IpRecord) => MakesSubnet(i, r))|
  }

  lemma SubnetsOfLength(i: InterfaceRecord)
    ensures |SubnetsOf(i)| == |Places(i.ipAddresses, (r: IpRecord) => MakesSubnet(i, r))|
  {
    if i.isUp && !i.isLoopback {
      FlatMapLength(i.ipAddresses, SubnetOf(i.name), (r: IpRecord) => MakesSubnet(i, r));
    } else {
      assert Places(i.ipAddresses, (r: IpRecord) => MakesSubnet(i, r)) == {};
    }
  }

  lemma {:induction false} SubnetsLength(records: seq<InterfaceRecord>)
    ensures |FlatMap(records, SubnetsOf)| == SubnetCount(records)
  {
    if records != [] {
      SubnetsLength(Front(records));
      SubnetsOfLength(Last(records));
      hide SubnetsOf, Places;
    }
  }

  /** The subnets are the usable addresses of the interfaces that are up, with their prefix lengths, sorted as texts. */
  lemma SubnetsExactly(s: Sources, x: SubnetNode)
    ensures
      var subnets := Built(s).subnets;
      && (x in subnets <==>
           s.interfaces.Some? && exists i, r :: i in s.interfaces.value && r in i.ipAddresses && ShowsSubnet(i, r, x))
      && |subnets| == (if s.interfaces.Some? then SubnetCount(s.interfaces.value) else 0)
      && forall i, j :: 0 <= i < j < |subnets| ==> StringLeq(subnets[i].cidr, subnets[j].cidr)
  {
    var records := OrEmpty(s.interfaces);
    TopologyOrders();
    SortedMembers(FlatMap(records, SubnetsOf), CidrLeq, x);
    SortBySorts(FlatMap(records, SubnetsOf), CidrLeq);
    FlatMapMembers(records, SubnetsOf, x);
    SubnetsLength(records);
    forall i ensures x in SubnetsOf(i) <==> exists r :: r in i.ipAddresses && ShowsSubnet(i, r, x) {
      SubnetShows(i, x);
    }
    hide FlatMap, SortBy, SubnetsOf, ShowsSubnet, StringLeq;
  }

  /** Where the lists of the snapshot leave an order open, they keep that of the payload. */
  lemma TiesKeepOrder(s: Sources)
    ensures forall x ::
      FlatMap(Built(s).interfaces, Ties(x, IndexLeq))
        == FlatMap(FlatMap(OrEmpty(s.interfaces), NodeOf), Ties(x, IndexLeq))
    ensures forall x ::
      FlatMap(Built(s).gateways, Ties(x, GatewayLeq))
        == FlatMap(FlatMap(OrEmpty(s.routes), GatewayOf), Ties(x, GatewayLeq))
  {
    TopologyOrders();
    forall x
      ensures FlatMap(Built(s).interfaces, Ties(x, IndexLeq))
           == FlatMap(FlatMap(OrEmpty(s.interfaces), NodeOf), Ties(x, IndexLeq))
    {
      SortKeepsTies(FlatMap(OrEmpty(s.interfaces), NodeOf), IndexLeq, x);
    }
    forall x
      ensures FlatMap(Built(s).gateways, Ties(x, GatewayLeq))
           == FlatMap(FlatMap(OrEmpty(s.routes), GatewayOf), Ties(x, GatewayLeq))
    {
      SortKeepsTies(FlatMap(OrEmpty(s.routes), GatewayOf), GatewayLeq, x);
    }
  }

  lemma ProvenanceMembers(s: Sources)
    ensures
      var p := Provenance(s);
      && (InterfacesV1 in p <==> s.interfaces.Some?) && (RoutesV1 in p <==> s.routes.Some?)
      && (DnsV1 in p <==> s.dns.Some?) && (NeighborsV1 in p <==> s.neighbors.Some?)
      && (forall id :: id in p ==> id in {InterfacesV1, RoutesV1, DnsV1, NeighborsV1})
      && |p| == (if s.interfaces.Some? then 1 else 0) + (if s.routes.Some? then 1 else 0)
           + (if s.dns.Some? then 1 else 0) + (if s.neighbors.Some? then 1 else 0)
  {
  }

  /** Provenance lists the payloads there are, and the confidence counts them: all four, some, or none. */
  lemma ProvenanceExactly(s: Sources)
    ensures
      var b := Built(s);
      && (InterfacesV1 in b.provenance <==> s.interfaces.Some?) && (RoutesV1 in b.provenance <==> s.routes.Some?)
      && (DnsV1 in b.provenance <==> s.dns.Some?) && (NeighborsV1 in b.provenance <==> s.neighbors.Some?)
      && (forall id :: id in b.provenance ==> id in {InterfacesV1, RoutesV1, DnsV1, NeighborsV1})
      && |b.provenance| <= 4
      && (b.confidence == KernelAuthoritative <==>
           s.interfaces.Some? && s.routes.Some? && s.dns.Some? && s.neighbors.Some?)
      && (b.confidence == Heuristic <==> s == Sources(None, None, None, None))
      && b.confidence != UnprivilegedPartial
  {
    ProvenanceMembers(s);
    hide FlatMap, SortBy, ActiveIndexes, Provenance;
    assert Built(s).provenance == Provenance(s);
  }

  // ----- What the extraction takes ------------------------------------------------------

  predicate IsLast<T>(xs: seq<T>, p: T -> bool, i: nat) {
    i < |xs| && p(xs[i]) && forall j :: i < j < |xs| ==> !p(xs[j])
  }

  function FromInterfaces(): Observation -> bool {
    (o: Observation) => o.scannerId == InterfacesV1 && o.payload.InterfacesPayload?
  }
  function FromRoutes(): Observation -> bool {
    (o: Observation) => o.scannerId == RoutesV1 && o.payload.RoutesPayload?
  }
  function FromDns(): Observation -> bool {
    (o: Observation) => o.scannerId == DnsV1 && o.payload.DnsPayload?
  }
  function FromNeighbors(): Observation -> bool {
    (o: Observation) => o.scannerId == NeighborsV1 && o.payload.NeighborsPayload?
  }

  lemma LatestIsLast<U>(raw: seq<Observation>, says: Observation -> Option<U>, p: Observation -> bool)
    requires forall o :: says(o).Some? <==> p(o)
    ensures Latest(raw, says).Some? <==> exists o :: o in raw && p(o)
    ensures forall i: nat :: IsLast(raw, p, i) ==> Latest(raw, says) == says(raw[i])
  {
    LatestIsSaid(raw, says);
    forall i: nat | IsLast(raw, p, i) ensures Latest(raw, says) == says(raw[i]) {
      LatestAt(raw, says, i);
    }
  }

  /** Each payload is the last one of its kind that its own scanner delivered. */
  lemma SourcesExactly(raw: seq<Observation>)
    ensures
      var s := SourcesIn(raw);
      && (s.interfaces.Some? <==> exists o :: o in raw && FromInterfaces()(o))
      && (forall i: nat :: IsLast(raw, FromInterfaces(), i) ==> s.interfaces == Some(raw[i].payload.interfaces))
      && (s.routes.Some? <==> exists o :: o in raw && FromRoutes()(o))
      && (forall i: nat :: IsLast(raw, FromRoutes(), i) ==> s.routes == Some(raw[i].payload.routes))
      && (s.dns.Some? <==> exists o :: o in raw && FromDns()(o))
      && (forall i: nat :: IsLast(raw, FromDns(), i) ==> s.dns == Some(raw[i].payload.servers))
      && (s.neighbors.Some? <==> exists o :: o in raw && FromNeighbors()(o))
      && (forall i: nat :: IsLast(raw, FromNeighbors(), i) ==> s.neighbors == Some(raw[i].payload.neighbors))
  {
    LatestIsLast(raw, InterfacesIn, FromInterfaces());
    LatestIsLast(raw, RoutesIn, FromRoutes());
    LatestIsLast(raw, DnsIn, FromDns());
    LatestIsLast(raw, NeighborsIn, FromNeighbors());
    hide Latest;
  }

  predicate Delivered(raw: seq<Observation>, id: ScannerId) { exists o :: o in raw && o.scannerId == id }

  predicate FromNetwork(o: Observation) { o.scannerId in {InterfacesV1, RoutesV1, DnsV1, NeighborsV1} }

  lemma FourMapped<T, U>(a: T, b: T, c: T, d: T, f: T -> seq<U>)
    ensures FlatMap([a, b, c, d], f) == f(a) + f(b) + f(c) + f(d)
  {
    var one, two, three, four := [a], [a, b], [a, b, c], [a, b, c, d];
    assert Front(four) == three && Front(three) == two && Front(two) == one && Front(one) == [];
    assert FlatMap(one, f) == [] + f(a) == f(a);
    assert FlatMap(two, f) == FlatMap(one, f) + f(b);
    assert FlatMap(three, f) == FlatMap(two, f) + f(c);
    assert FlatMap(four, f) == FlatMap(three, f) + f(d);
  }

  /** Missing are the network scanners without an observation, in this order. */
  lemma MissingExactly(raw: seq<Observation>)
    ensures Missing(raw) ==
      (if Delivered(raw, InterfacesV1) then [] else [InterfacesV1])
      + (if Delivered(raw, RoutesV1) then [] else [RoutesV1])
      + (if Delivered(raw, DnsV1) then [] else [DnsV1])
      + (if Delivered(raw, NeighborsV1) then [] else [NeighborsV1])
  {
    var f := IfUnreported(raw);
    forall id ensures Reported(raw, id) <==> Delivered(raw, id) {
      ReportedMembers(raw, id);
    }
    hide Reported, Delivered;
    FourMapped(InterfacesV1, RoutesV1, DnsV1, NeighborsV1, f);
    hide FlatMap;
  }

  /** Degraded are the network scanners that delivered without full privilege, one entry each time, in order. */
  lemma DegradedExactly(raw: seq<Observation>, o: Observation)
    ensures Degraded([]) == []
    ensures Degraded(raw + [o]) ==
      Degraded(raw) + if FromNetwork(o) && o.privilege != Available then [o.scannerId] else []
  {
    assert Front(raw + [o]) == raw;
  }

  /** Confidence by the number of observations of network scanners with full privilege. */
  lemma ConfidenceByCount(raw: seq<Observation>)
    ensures
      var n := |Places(raw, (o: Observation) => FromNetwork(o) && o.privilege == Available)|;
      && (n == 4 ==> ComputedConfidence(raw) == KernelAuthoritative)
      && (n == 3 ==> ComputedConfidence(raw) == SystemTable)
      && (n == 2 ==> ComputedConfidence(raw) == UnprivilegedPartial)
      && (n < 2 || n > 4 ==> ComputedConfidence(raw) == Heuristic)
  {
    FlatMapLength(raw, IfUsable, (o: Observation) => FromNetwork(o) && o.privilege == Available);
    hide FlatMap, Places;
  }

  /** The privilege of the topology: full if some network scanner had it, partial if one delivered at all. */
  lemma PrivilegeExactly(raw: seq<Observation>)
    ensures DerivedPrivilege(raw) == Available <==> exists o :: o in raw && FromNetwork(o) && o.privilege == Available
    ensures DerivedPrivilege(raw) == Unsupported <==> forall o :: o in raw ==> !FromNetwork(o)
    ensures DerivedPrivilege(raw) in {Available, Partial, Unsupported}
  {
    if i :| 0 <= i < |raw| && IsNetwork(raw[i].scannerId) && raw[i].privilege.Available? {
      assert raw[i] in raw;
    }
    if o :| o in raw && FromNetwork(o) && o.privilege == Available {
      var i :| 0 <= i < |raw| && raw[i] == o;
    }
    if i :| 0 <= i < |raw| && IsNetwork(raw[i].scannerId) {
      assert raw[i] in raw;
    }
  }

  /** An address lies in a block given as text if everything parses and the numbers say so. */
  lemma InCidrTextExactly(t: Texts, ip: string, net: string, length: string)
    requires '/' !in length
    ensures InCidrText(t, ip, net + "/" + length) <==>
      && t.prefix(length).Some? && t.address(ip).Some? && t.address(net).Some?
      && InCidr(t.address(ip).value, t.address(net).value, t.prefix(length).value)
    ensures '/' !in ip ==> !InCidrText(t, net, ip)
  {
    var cidr := net + "/" + length;
    assert cidr[|net|] == '/' && cidr[|net| + 1..] == length && cidr[..|net|] == net;
    assert RFind(cidr, '/') == Some(|net|);
    hide RFind;
  }
}
