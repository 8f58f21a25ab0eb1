// Synthesis of the network topology and its correlation edges (network/topology.rs). Lower-casing
// and the parsing of addresses and prefix lengths are function values.
module Topology {
  import opened Bytes
  import opened IpAddress
  import opened Observations
  import opened Seqs
  import opened Text

  datatype Texts = Texts(lower: string -> string, address: string -> Option<Address>, prefix: string -> Option<u8>)

  // ----- Text CIDR ----------------------------------------------------------------

  /** Position of the last occurrence of a character. */
  function RFind(s: string, c: char): (p: Option<nat>)
    ensures p.Some? ==> p.value < |s| && s[p.value] == c && c !in s[p.value + 1..]
    ensures p.None? ==> c !in s
  {
    if s == "" then None else if Last(s) == c then Some(|s| - 1) else RFind(Front(s), c)
  }

  /** `ip_in_cidr` on texts: anything malformed is in no block. */
  predicate InCidrText(t: Texts, ip: string, cidr: string) {
    match RFind(cidr, '/')
    case None => false
    case Some(slash) =>
      var prefix, host, net := t.prefix(cidr[slash + 1..]), t.address(ip), t.address(cidr[..slash]);
      prefix.Some? && host.Some? && net.Some? && InCidr(host.value, net.value, prefix.value)
  }

  // ----- Building the snapshot ------------------------------------------------------

  function NodeOf(i: InterfaceRecord): seq<InterfaceNode> {
    [InterfaceNode(
       i.name, i.index, i.isUp, i.isLoopback, FlatMap(i.ipAddresses, (r: IpRecord) => [r.ipAddress]), i.macHash)]
  }

  function SubnetOf(name: string): IpRecord -> seq<SubnetNode> {
    (r: IpRecord) =>
      if r.classification.IsLocalOrPrivate() || r.classification.IsPublic()
      then [SubnetNode(r.ipAddress + "/" + Decimal(r.prefixLength), name, r.isIpv6, r.classification)]
      else []
  }

  /** The subnets of an interface that is up and not a loopback. */
  function SubnetsOf(i: InterfaceRecord): seq<SubnetNode> {
    if i.isUp && !i.isLoopback then FlatMap(i.ipAddresses, SubnetOf(i.name)) else []
  }

  function ActiveIndexes(interfaces: seq<InterfaceRecord>): set<nat> {
    if interfaces == [] then {}
    else ActiveIndexes(Front(interfaces)) + if SubnetsOf(Last(interfaces)) != [] then {Last(interfaces).index} else {}
  }

  function GatewayOf(r: RouteRecord): seq<GatewayNode> {
    if r.isDefaultGateway && r.gatewayIp.Some?
    then [GatewayNode(r.gatewayIp.value, r.interfaceIndex, r.interfaceName, r.metric, r.isIpv6)]
    else []
  }

  function ResolverOf(d: DnsRecord): seq<DnsNode> { [DnsNode(d.serverAddress, d.isIpv6, d.classification)] }

  function AdjacentOf(n: NeighborRecord): seq<NeighborNode> {
    [NeighborNode(n.ipAddress, n.macHash, n.interfaceName, n.state, n.classification, n.isRouter == Some(true))]
  }

  predicate IndexLeq(a: InterfaceNode, b: InterfaceNode) { a.index <= b.index }
  predicate CidrLeq(a: SubnetNode, b: SubnetNode) { StringLeq(a.cidr, b.cidr) }
  predicate GatewayLeq(a: GatewayNode, b: GatewayNode) {
    a.metric < b.metric || (a.metric == b.metric && StringLeq(a.gatewayIp, b.gatewayIp))
  }
  predicate ResolverLeq(a: DnsNode, b: DnsNode) { StringLeq(a.serverIp, b.serverIp) }
  predicate AdjacentLeq(a: NeighborNode, b: NeighborNode) { StringLeq(a.ipAddress, b.ipAddress) }

  /** The payloads of a scan cycle that feed the topology. */
  datatype Sources = Sources(
    interfaces: Option<seq<InterfaceRecord>>,
    routes: Option<seq<RouteRecord>>,
    dns: Option<seq<DnsRecord>>,
    neighbors: Option<seq<NeighborRecord>>)

  function OrEmpty<T>(source: Option<seq<T>>): seq<T> { if source.Some? then source.value else [] }

  function Provenance(s: Sources): seq<ScannerId> {
    (if s.interfaces.Some? then [InterfacesV1] else []) + (if s.routes.Some? then [RoutesV1] else [])
      + (if s.dns.Some? then [DnsV1] else []) + (if s.neighbors.Some? then [NeighborsV1] else [])
  }

  function Built(s: Sources): Snapshot {
    var interfaces := OrEmpty(s.interfaces);
    Snapshot(
      SortBy(FlatMap(interfaces, NodeOf), IndexLeq),
      SortBy(FlatMap(OrEmpty(s.routes), GatewayOf), GatewayLeq),
      SortBy(FlatMap(OrEmpty(s.dns), ResolverOf), ResolverLeq),
      SortBy(FlatMap(OrEmpty(s.neighbors), AdjacentOf), AdjacentLeq),
      SortBy(FlatMap(interfaces, SubnetsOf), CidrLeq),
      |ActiveIndexes(interfaces)| > 1,
      if |Provenance(s)| >= 4 then KernelAuthoritative else if Provenance(s) != [] then SystemTable else Heuristic,
      Provenance(s))
  }

  lemma ActiveStep(interfaces: seq<InterfaceRecord>, i: nat)
    requires i < |interfaces|
    ensures ActiveIndexes(interfaces[..i + 1])
         == ActiveIndexes(interfaces[..i]) + if SubnetsOf(interfaces[i]) != [] then {interfaces[i].index} else {}
  {
    assert Front(interfaces[..i + 1]) == interfaces[..i];
  }

  lemma NothingActive(records: seq<InterfaceRecord>)
    ensures ActiveIndexes(records[..0]) == {}
  {
  }

  method ReadInterfaces(records: seq<InterfaceRecord>)
    returns (interfaces: seq<InterfaceNode>, subnets: seq<SubnetNode>, active: set<nat>)
    ensures interfaces == FlatMap(records, NodeOf)
    ensures subnets == FlatMap(records, SubnetsOf)
    ensures active == ActiveIndexes(records)
  {
    hide FlatMap, ActiveIndexes;
    interfaces, subnets, active := [], [], {};
    NothingMapped(records, NodeOf);
    NothingMapped(records, SubnetsOf);
    NothingActive(records);
    for i := 0 to |records|
      invariant interfaces == FlatMap(records[..i], NodeOf)
      invariant subnets == FlatMap(records[..i], SubnetsOf)
      invariant active == ActiveIndexes(records[..i])
    {
      var iface := records[i];
      if iface.isUp && !iface.isLoopback {
        var found := [];
        NothingMapped(iface.ipAddresses, SubnetOf(iface.name));
        for j := 0 to |iface.ipAddresses|
          invariant found == FlatMap(iface.ipAddresses[..j], SubnetOf(iface.name))
        {
          var record := iface.ipAddresses[j];
          if record.classification.IsLocalOrPrivate() || record.classification.IsPublic() {
            found := found +
              [SubnetNode(record.ipAddress + "/" + Decimal(record.prefixLength), iface.name,
                          record.isIpv6, record.classification)];
          }
          FlatMapStep(iface.ipAddresses, j, SubnetOf(iface.name));
        }
        AllTaken(iface.ipAddresses);
        subnets := subnets + found;
        if found != [] {
          active := active + {iface.index};
        }
      }
      interfaces := interfaces + NodeOf(iface);
      FlatMapStep(records, i, NodeOf);
      FlatMapStep(records, i, SubnetsOf);
      ActiveStep(records, i);
    }
    AllTaken(records);
  }

  /** A loop that pushes what each element yields. */
  method Collect<T, U>(xs: seq<T>, f: T -> seq<U>) returns (pushed: seq<U>)
    ensures pushed == FlatMap(xs, f)
  {
    pushed := [];
    for i := 0 to |xs|
      invariant pushed == FlatMap(xs[..i], f)
    {
      pushed := pushed + f(xs[i]);
      FlatMapStep(xs, i, f);
    }
    AllTaken(xs);
  }

  method BuildSnapshot(s: Sources) returns (snapshot: Snapshot)
    ensures snapshot == Built(s)
  {
    hide FlatMap, SortBy, ActiveIndexes;
    var provenance := [];
    var interfaces, subnets, active := [], [], {};
    NothingMapped([], NodeOf);
    NothingMapped([], SubnetsOf);
    NothingActive([]);
    if s.interfaces.Some? {
      provenance := provenance + [InterfacesV1];
      interfaces, subnets, active := ReadInterfaces(s.interfaces.value);
    }
    var gateways := [];
    NothingMapped([], GatewayOf);
    if s.routes.Some? {
      provenance := provenance + [RoutesV1];
      gateways := Collect(s.routes.value, GatewayOf);
    }
    var resolvers := [];
    NothingMapped([], ResolverOf);
    if s.dns.Some? {
      provenance := provenance + [DnsV1];
      resolvers := Collect(s.dns.value, ResolverOf);
    }
    var neighbors := [];
    NothingMapped([], AdjacentOf);
    if s.neighbors.Some? {
      provenance := provenance + [NeighborsV1];
      neighbors := Collect(s.neighbors.value, AdjacentOf);
    }
    assert provenance == Provenance(s);
    snapshot := Snapshot(
      SortBy(interfaces, IndexLeq), SortBy(gateways, GatewayLeq), SortBy(resolvers, ResolverLeq),
      SortBy(neighbors, AdjacentLeq), SortBy(subnets, CidrLeq), |active| > 1,
      if |provenance| >= 4 then KernelAuthoritative else if provenance != [] then SystemTable else Heuristic,
      provenance);
  }

  predicate IsActive(i: InterfaceRecord) {
    i.isUp && !i.isLoopback
      && exists r :: r in i.ipAddresses && (r.classification.IsLocalOrPrivate() || r.classification.IsPublic())
  }

  lemma ActiveIffSubnets(i: InterfaceRecord)
    ensures IsActive(i) <==> SubnetsOf(i) != []
  {
    if i.isUp && !i.isLoopback {
      var f := SubnetOf(i.name);
      if IsActive(i) {
        var r :| r in i.ipAddresses && (r.classification.IsLocalOrPrivate() || r.classification.IsPublic());
        FlatMapMembers(i.ipAddresses, f, f(r)[0]);
      }
      if SubnetsOf(i) != [] {
        FlatMapMembers(i.ipAddresses, f, SubnetsOf(i)[0]);
      }
    }
  }

  lemma {:induction false} ActiveMembers(interfaces: seq<InterfaceRecord>, index: nat)
    ensures index in ActiveIndexes(interfaces) <==> exists i :: i in interfaces && IsActive(i) && i.index == index
  {
    if interfaces != [] {
      ActiveMembers(Front(interfaces), index);
      ActiveIffSubnets(Last(interfaces));
      FrontLast(interfaces);
      hide IsActive, SubnetsOf;
      assert forall i :: i in interfaces <==> i in Front(interfaces) || i == Last(interfaces);
    }
  }

  lemma ManyElements<T>(s: set<T>)
    ensures |s| > 1 <==> exists a, b :: a in s && b in s && a != b
  {
    if |s| > 1 {
      var a :| a in s;
      assert |s - {a}| > 0;
      var b :| b in s - {a};
      assert a in s && b in s && a != b;
    }
    if a, b :| a in s && b in s && a != b {
      assert {a, b} <= s;
      assert |s - {a, b}| + |{a, b}| == |s|;
    }
  }

  /** A host counts as multi-homed exactly if interfaces of two different indexes are active. */
  lemma MultiHomedExactly(s: Sources)
    ensures Built(s).isMultiHomed <==>
      exists a, b :: a in OrEmpty(s.interfaces) && b in OrEmpty(s.interfaces)
        && IsActive(a) && IsActive(b) && a.index != b.index
  {
    hide IsActive, ActiveIndexes, SortBy, FlatMap;
    var interfaces := OrEmpty(s.interfaces);
    var indexes := ActiveIndexes(interfaces);
    ManyElements(indexes);
    forall index ensures index in indexes <==> exists i :: i in interfaces && IsActive(i) && i.index == index {
      if index >= 0 {
        ActiveMembers(interfaces, index);
      }
    }
    if |indexes| > 1 {
      var x, y :| x in indexes && y in indexes && x != y;
      var a :| a in interfaces && IsActive(a) && a.index == x;
      var b :| b in interfaces && IsActive(b) && b.index == y;
    }
    if a, b :| a in interfaces && b in interfaces && IsActive(a) && IsActive(b) && a.index != b.index {
      assert a.index in indexes && b.index in indexes;
    }
  }

  lemma TopologyOrders()
    ensures TotalPreorder(IndexLeq) && TotalPreorder(GatewayLeq) && TotalPreorder(ResolverLeq)
    ensures TotalPreorder(AdjacentLeq) && TotalPreorder(CidrLeq)
  {
    StringOrder();
  }

  /** Every list of the snapshot is what its payload holds, sorted. */
  lemma BuiltIsSorted(s: Sources)
    ensures
      var b := Built(s);
      && Sorted(b.interfaces, IndexLeq) && multiset(b.interfaces) == multiset(FlatMap(OrEmpty(s.interfaces), NodeOf))
      && Sorted(b.subnets, CidrLeq) && multiset(b.subnets) == multiset(FlatMap(OrEmpty(s.interfaces), SubnetsOf))
      && Sorted(b.gateways, GatewayLeq) && multiset(b.gateways) == multiset(FlatMap(OrEmpty(s.routes), GatewayOf))
      && Sorted(b.resolvers, ResolverLeq) && multiset(b.resolvers) == multiset(FlatMap(OrEmpty(s.dns), ResolverOf))
      && Sorted(b.neighbors, AdjacentLeq)
      && multiset(b.neighbors) == multiset(FlatMap(OrEmpty(s.neighbors), AdjacentOf))
  {
    TopologyOrders();
    SortBySorts(FlatMap(OrEmpty(s.interfaces), NodeOf), IndexLeq);
    SortBySorts(FlatMap(OrEmpty(s.interfaces), SubnetsOf), CidrLeq);
    SortBySorts(FlatMap(OrEmpty(s.routes), GatewayOf), GatewayLeq);
    SortBySorts(FlatMap(OrEmpty(s.dns), ResolverOf), ResolverLeq);
    SortBySorts(FlatMap(OrEmpty(s.neighbors), AdjacentOf), AdjacentLeq);
    hide *;
  }

  // ----- Extraction -----------------------------------------------------------------

  const NETWORK_SCANNERS: seq<ScannerId> := [InterfacesV1, RoutesV1, DnsV1, NeighborsV1]

  predicate IsNetwork(id: ScannerId) { id.InterfacesV1? || id.RoutesV1? || id.DnsV1? || id.NeighborsV1? }

  function InterfacesIn(o: Observation): Option<seq<InterfaceRecord>> {
    if o.scannerId.InterfacesV1? && o.payload.InterfacesPayload? then Some(o.payload.interfaces) else None
  }

  function RoutesIn(o: Observation): Option<seq<RouteRecord>> {
    if o.scannerId.RoutesV1? && o.payload.RoutesPayload? then Some(o.payload.routes) else None
  }

  function DnsIn(o: Observation): Option<seq<DnsRecord>> {
    if o.scannerId.DnsV1? && o.payload.DnsPayload? then Some(o.payload.servers) else None
  }

  function NeighborsIn(o: Observation): Option<seq<NeighborRecord>> {
    if o.scannerId.NeighborsV1? && o.payload.NeighborsPayload? then Some(o.payload.neighbors) else None
  }

  function SourcesIn(observations: seq<Observation>): Sources {
    Sources(Latest(observations, InterfacesIn), Latest(observations, RoutesIn),
            Latest(observations, DnsIn), Latest(observations, NeighborsIn))
  }

  predicate Reported(observations: seq<Observation>, id: ScannerId) {
    exists i :: 0 <= i < |observations| && observations[i].scannerId == id
  }

  function IfUnreported(observations: seq<Observation>): ScannerId -> seq<ScannerId> {
    (id: ScannerId) => if Reported(observations, id) then [] else [id]
  }

  function Missing(observations: seq<Observation>): seq<ScannerId> {
    FlatMap(NETWORK_SCANNERS, IfUnreported(observations))
  }

  function IfDegraded(o: Observation): seq<ScannerId> {
    if IsNetwork(o.scannerId) && !o.privilege.Available? then [o.scannerId] else []
  }

  function Degraded(observations: seq<Observation>): seq<ScannerId> { FlatMap(observations, IfDegraded) }

  lemma LatestStep<T, U>(xs: seq<T>, i: nat, says: T -> Option<U>)
    requires i < |xs|
    ensures Latest(xs[..i + 1], says) == if says(xs[i]).Some? then says(xs[i]) else Latest(xs[..i], says)
  {
    assert Front(xs[..i + 1]) == xs[..i];
  }

  lemma NothingYet(observations: seq<Observation>)
    ensures SourcesIn(observations[..0]) == Sources(None, None, None, None) && Degraded(observations[..0]) == []
  {
  }

  lemma ExtractStep(observations: seq<Observation>, i: nat)
    requires i < |observations|
    ensures
      var before, after, o := SourcesIn(observations[..i]), SourcesIn(observations[..i + 1]), observations[i];
      && after.interfaces == (if InterfacesIn(o).Some? then InterfacesIn(o) else before.interfaces)
      && after.routes == (if RoutesIn(o).Some? then RoutesIn(o) else before.routes)
      && after.dns == (if DnsIn(o).Some? then DnsIn(o) else before.dns)
      && after.neighbors == (if NeighborsIn(o).Some? then NeighborsIn(o) else before.neighbors)
      && Degraded(observations[..i + 1]) == Degraded(observations[..i]) + IfDegraded(o)
  {
    LatestStep(observations, i, InterfacesIn);
    LatestStep(observations, i, RoutesIn);
    LatestStep(observations, i, DnsIn);
    LatestStep(observations, i, NeighborsIn);
    FlatMapStep(observations, i, IfDegraded);
    hide Latest, FlatMap, InterfacesIn, RoutesIn, DnsIn, NeighborsIn, IfDegraded;
  }

  lemma ReportedStep(observations: seq<Observation>, i: nat)
    requires i < |observations|
    ensures forall id ::
      Reported(observations[..i + 1], id) <==> Reported(observations[..i], id) || observations[i].scannerId == id
  {
    forall id
      ensures Reported(observations[..i + 1], id)
        <==> Reported(observations[..i], id) || observations[i].scannerId == id
    {
      if Reported(observations[..i], id) {
        var k :| 0 <= k < i && observations[..i][k].scannerId == id;
        assert observations[..i + 1][k].scannerId == id;
      }
      assert observations[..i + 1][i] == observations[i];
      if Reported(observations[..i + 1], id) && observations[i].scannerId != id {
        var k :| 0 <= k < i + 1 && observations[..i + 1][k].scannerId == id;
        assert observations[..i][k].scannerId == id;
      }
    }
  }

  method ExtractFromObservations(observations: seq<Observation>)
    returns (sources: Sources, missing: seq<ScannerId>, partial: seq<ScannerId>)
    ensures sources == SourcesIn(observations)
    ensures missing == Missing(observations) && partial == Degraded(observations)
  {
    hide SourcesIn, Degraded, FlatMap;
    var seen: set<ScannerId> := {};
    sources, partial := Sources(None, None, None, None), [];
    NothingYet(observations);
    for i := 0 to |observations|
      invariant sources == SourcesIn(observations[..i]) && partial == Degraded(observations[..i])
      invariant forall id :: id in seen <==> IsNetwork(id) && Reported(observations[..i], id)
    {
      var o := observations[i];
      ExtractStep(observations, i);
      ReportedStep(observations, i);
      if IsNetwork(o.scannerId) {
        seen := seen + {o.scannerId};
        if !o.privilege.Available? {
          partial := partial + [o.scannerId];
        }
      }
      if InterfacesIn(o).Some? {
        sources := sources.(interfaces := InterfacesIn(o));
      } else if RoutesIn(o).Some? {
        sources := sources.(routes := RoutesIn(o));
      } else if DnsIn(o).Some? {
        sources := sources.(dns := DnsIn(o));
      } else if NeighborsIn(o).Some? {
        sources := sources.(neighbors := NeighborsIn(o));
      }
    }
    AllTaken(observations);
    missing := [];
    NothingMapped(NETWORK_SCANNERS, IfUnreported(observations));
    for k := 0 to |NETWORK_SCANNERS|
      invariant missing == FlatMap(NETWORK_SCANNERS[..k], IfUnreported(observations))
    {
      if NETWORK_SCANNERS[k] !in seen {
        missing := missing + [NETWORK_SCANNERS[k]];
      }
      FlatMapStep(NETWORK_SCANNERS, k, IfUnreported(observations));
    }
    AllTaken(NETWORK_SCANNERS);
  }

  function IfUsable(o: Observation): seq<ScannerId> {
    if IsNetwork(o.scannerId) && o.privilege.Available? then [o.scannerId] else []
  }

  /** Confidence by the number of usable network observations: exactly four, three or two. */
  function ConfidenceOf(usable: nat): Confidence {
    match usable
    case 4 => KernelAuthoritative
    case 3 => SystemTable
    case 2 => UnprivilegedPartial
    case _ => Heuristic
  }

  function ComputedConfidence(observations: seq<Observation>): Confidence {
    ConfidenceOf(|FlatMap(observations, IfUsable)|)
  }

  function DerivedPrivilege(observations: seq<Observation>): Privilege {
    if exists i ::
         0 <= i < |observations| && IsNetwork(observations[i].scannerId) && observations[i].privilege.Available?
    then Available
    else if exists i :: 0 <= i < |observations| && IsNetwork(observations[i].scannerId) then Partial
    else Unsupported
  }

  /** A usable observation of this scanner is there. */
  predicate Usable(observations: seq<Observation>, id: ScannerId) {
    exists i :: 0 <= i < |observations| && observations[i].scannerId == id && observations[i].privilege.Available?
  }

  predicate DistinctScanners(observations: seq<Observation>) {
    forall i, j :: 0 <= i < j < |observations| ==> observations[i].scannerId != observations[j].scannerId
  }

  lemma {:induction false} UsableIds(observations: seq<Observation>)
    requires DistinctScanners(observations)
    ensures
      var ids := FlatMap(observations, IfUsable);
      Distinct(ids) && forall id :: id in ids <==> IsNetwork(id) && Usable(observations, id)
  {
    if observations != [] {
      var front, last := Front(observations), Last(observations);
      UsableIds(front);
      var before := FlatMap(front, IfUsable);
      forall id
        ensures Usable(observations, id) <==> Usable(front, id) || (last.scannerId == id && last.privilege.Available?)
      {
        if Usable(front, id) {
          var i :| 0 <= i < |front| && front[i].scannerId == id && front[i].privilege.Available?;
          assert observations[i] == front[i];
        }
        assert observations[|front|] == last;
      }
      forall k | 0 <= k < |before| ensures before[k] != last.scannerId {
        assert before[k] in before;
        var i :| 0 <= i < |front| && front[i].scannerId == before[k] && front[i].privilege.Available?;
        assert observations[i] == front[i];
      }
    }
  }

  lemma FourScanners(ids: seq<ScannerId>)
    requires |Elements(ids)| == |ids|
    ensures |{InterfacesV1, RoutesV1, DnsV1, NeighborsV1}| == 4
    ensures Elements(ids) == {InterfacesV1, RoutesV1, DnsV1, NeighborsV1} ==> |ids| == 4
    ensures Elements(ids) == {InterfacesV1, RoutesV1, DnsV1, NeighborsV1} <==>
      (forall id :: id in ids ==> IsNetwork(id)) && InterfacesV1 in ids && RoutesV1 in ids && DnsV1 in ids
        && NeighborsV1 in ids
  {
  }

  /** Of distinct scanners, the confidence is the highest exactly if all four network scanners delivered usable data. */
  lemma ConfidenceExactly(observations: seq<Observation>)
    requires DistinctScanners(observations)
    ensures ComputedConfidence(observations).KernelAuthoritative? <==>
      && Usable(observations, InterfacesV1) && Usable(observations, RoutesV1)
      && Usable(observations, DnsV1) && Usable(observations, NeighborsV1)
    ensures |FlatMap(observations, IfUsable)| <= 4
  {
    UsableIds(observations);
    var ids := FlatMap(observations, IfUsable);
    DistinctSize(ids);
    hide FlatMap, Usable, IfUsable;
    var four := {InterfacesV1, RoutesV1, DnsV1, NeighborsV1};
    SubsetSize(Elements(ids), four);
    FourScanners(ids);
  }

  /** No scanner has reported twice. */
  ghost predicate OnePerScanner(observations: seq<Observation>) {
    forall a, b :: a in observations && b in observations && a.scannerId == b.scannerId ==> a == b
  }

  lemma ReportedMembers(observations: seq<Observation>, id: ScannerId)
    ensures Reported(observations, id) <==> exists o :: o in observations && o.scannerId == id
  {
  }

  lemma SameReported(a: seq<Observation>, b: seq<Observation>)
    requires multiset(a) == multiset(b)
    ensures Missing(a) == Missing(b)
  {
    SameMembers(a, b);
    forall id ensures Reported(a, id) == Reported(b, id) {
      ReportedMembers(a, id);
      ReportedMembers(b, id);
    }
    forall id ensures IfUnreported(a)(id) == IfUnreported(b)(id) {
    }
    hide Reported;
    FlatMapSame(NETWORK_SCANNERS, IfUnreported(a), IfUnreported(b));
  }

  lemma SameSources(a: seq<Observation>, b: seq<Observation>)
    requires multiset(a) == multiset(b) && OnePerScanner(a)
    ensures SourcesIn(a) == SourcesIn(b)
  {
    assert OneSays(a, InterfacesIn) && OneSays(a, RoutesIn) && OneSays(a, DnsIn) && OneSays(a, NeighborsIn);
    LatestPermutation(a, b, InterfacesIn);
    LatestPermutation(a, b, RoutesIn);
    LatestPermutation(a, b, DnsIn);
    LatestPermutation(a, b, NeighborsIn);
    hide Latest, OneSays, OnePerScanner;
  }

  lemma SameDegraded(a: seq<Observation>, b: seq<Observation>)
    requires multiset(a) == multiset(b)
    ensures multiset(Degraded(a)) == multiset(Degraded(b))
  {
    FlatMapPermutation(a, b, IfDegraded);
  }

  lemma SameSize<T>(a: seq<T>, b: seq<T>)
    requires multiset(a) == multiset(b)
    ensures |a| == |b|
  {
    assert |a| == |multiset(a)| && |b| == |multiset(b)|;
  }

  lemma SameConfidence(a: seq<Observation>, b: seq<Observation>)
    requires multiset(a) == multiset(b)
    ensures ComputedConfidence(a) == ComputedConfidence(b)
  {
    FlatMapPermutation(a, b, IfUsable);
    hide FlatMap;
    SameSize(FlatMap(a, IfUsable), FlatMap(b, IfUsable));
  }

  lemma PrivilegeMembers(observations: seq<Observation>)
    ensures DerivedPrivilege(observations) ==
      if exists o :: o in observations && IsNetwork(o.scannerId) && o.privilege.Available? then Available
      else if exists o :: o in observations && IsNetwork(o.scannerId) then Partial
      else Unsupported
  {
  }

  lemma SamePrivilege(a: seq<Observation>, b: seq<Observation>)
    requires multiset(a) == multiset(b)
    ensures DerivedPrivilege(a) == DerivedPrivilege(b)
  {
    SameMembers(a, b);
    PrivilegeMembers(a);
    PrivilegeMembers(b);
    hide DerivedPrivilege;
  }

  /** What is extracted from one observation per scanner does not depend on the order in which they came. */
  lemma ExtractionOrderIrrelevant(a: seq<Observation>, b: seq<Observation>)
    requires multiset(a) == multiset(b) && OnePerScanner(a)
    ensures SourcesIn(a) == SourcesIn(b) && Missing(a) == Missing(b)
    ensures multiset(Degraded(a)) == multiset(Degraded(b))
    ensures ComputedConfidence(a) == ComputedConfidence(b) && DerivedPrivilege(a) == DerivedPrivilege(b)
  {
    SameSources(a, b);
    SameReported(a, b);
    SameDegraded(a, b);
    SameConfidence(a, b);
    SamePrivilege(a, b);
    hide *;
  }
}
