// The correlation edges in terms of the nodes of the snapshot and the texts of their ends
// (network/topology.rs, TopologyCorrelator).
module EdgeContents {
  import opened Correlation
  import opened Observations
  import opened Seqs
  import opened Text
  import opened Topology

  /** The last interface of an index. */
  predicate LastOfIndex(interfaces: seq<InterfaceNode>, index: nat, k: nat) {
    && k < |interfaces| && interfaces[k].index == index
    && forall j :: k < j < |interfaces| ==> interfaces[j].index != index
  }

  /**
   * The interface end of a gateway: its own interface name, or that of the last interface of its index,
   * or the index.
   */
  ghost predicate EgressText(t: Texts, s: Snapshot, g: GatewayNode, text: string) {
    match g.interfaceName
    case Some(name) => text == "interface:" + t.lower(name)
    case None =>
      if exists i :: i in s.interfaces && i.index == g.interfaceIndex
      then
        exists k: nat ::
          LastOfIndex(s.interfaces, g.interfaceIndex, k) && text == "interface:" + t.lower(s.interfaces[k].name)
      else text == "interface:idx:" + Decimal(g.interfaceIndex)
  }

  /** The relation an edge stands for, kind by kind. */
  ghost predicate Supports(t: Texts, s: Snapshot, e: Edge) {
    match e.kind
    case InterfaceHostsSubnet =>
      exists x :: x in s.subnets && e.from == "interface:" + t.lower(x.interfaceName) && e.to == "subnet:" + x.cidr
    case InterfaceHasGateway =>
      exists g :: g in s.gateways && EgressText(t, s, g, e.from) && e.to == "gateway:" + g.gatewayIp
    case InterfaceHasNeighbor =>
      exists n :: n in s.neighbors && n.interfaceName.Some?
        && e.from == "interface:" + t.lower(n.interfaceName.value) && e.to == "neighbor:" + n.ipAddress
    case NeighborIsGateway =>
      exists g, n :: g in s.gateways && n in s.neighbors && n.ipAddress == g.gatewayIp
        && e.from == "neighbor:" + g.gatewayIp && e.to == "gateway:" + g.gatewayIp
    case GatewayOnSubnet =>
      exists g, x :: g in s.gateways && x in s.subnets && InCidrText(t, g.gatewayIp, x.cidr)
        && e.from == "gateway:" + g.gatewayIp && e.to == "subnet:" + x.cidr
    case DnsOnSubnet =>
      exists d, x :: d in s.resolvers && x in s.subnets && InCidrText(t, d.serverIp, x.cidr)
        && e.from == "dns:" + d.serverIp && e.to == "subnet:" + x.cidr
  }

  lemma {:induction false} NamesAreLast(interfaces: seq<InterfaceNode>, index: nat)
    ensures index in NamesByIndex(interfaces) <==> exists i :: i in interfaces && i.index == index
    ensures index in NamesByIndex(interfaces) ==>
      exists k: nat :: LastOfIndex(interfaces, index, k) && NamesByIndex(interfaces)[index] == interfaces[k].name
  {
    if interfaces != [] {
      var front, last := Front(interfaces), Last(interfaces);
      NamesAreLast(front, index);
      FrontLast(interfaces);
      if last.index == index {
        assert LastOfIndex(interfaces, index, |front|);
      } else if index in NamesByIndex(front) {
        var k: nat :| LastOfIndex(front, index, k) && NamesByIndex(front)[index] == front[k].name;
        assert LastOfIndex(interfaces, index, k) && interfaces[k] == front[k];
      }
    }
  }

  lemma OneLast(interfaces: seq<InterfaceNode>, index: nat, j: nat, k: nat)
    requires LastOfIndex(interfaces, index, j) && LastOfIndex(interfaces, index, k)
    ensures j == k
  {
  }

  lemma EgressIsText(t: Texts, s: Snapshot, g: GatewayNode, text: string)
    ensures EgressText(t, s, g, text) <==> text == EgressKey(t, NamesByIndex(s.interfaces), g)
  {
    if g.interfaceName.None? {
      NamesAreLast(s.interfaces, g.interfaceIndex);
      if g.interfaceIndex in NamesByIndex(s.interfaces) {
        var k: nat :| LastOfIndex(s.interfaces, g.interfaceIndex, k)
          && NamesByIndex(s.interfaces)[g.interfaceIndex] == s.interfaces[k].name;
        forall j: nat | LastOfIndex(s.interfaces, g.interfaceIndex, j) ensures j == k {
          OneLast(s.interfaces, g.interfaceIndex, j, k);
        }
      }
      hide NamesByIndex;
    }
  }

  lemma SupportsIsDerivable(t: Texts, s: Snapshot, e: Edge)
    ensures Supports(t, s, e) <==> Derivable(t, s, e)
  {
    if e.kind.InterfaceHasGateway? {
      forall g ensures EgressText(t, s, g, e.from) <==> e.from == EgressKey(t, NamesByIndex(s.interfaces), g) {
        EgressIsText(t, s, g, e.from);
      }
    }
    hide EgressText, EgressKey, NamesByIndex, InCidrText;
  }

  /** Kinds in their order. */
  predicate KindBefore(a: EdgeKind, b: EdgeKind) {
    match a
    case InterfaceHasGateway => b != InterfaceHasGateway
    case InterfaceHasNeighbor => b !in {InterfaceHasGateway, InterfaceHasNeighbor}
    case InterfaceHostsSubnet => b in {NeighborIsGateway, GatewayOnSubnet, DnsOnSubnet}
    case NeighborIsGateway => b in {GatewayOnSubnet, DnsOnSubnet}
    case GatewayOnSubnet => b == DnsOnSubnet
    case DnsOnSubnet => false
  }

  /** By kind, then by the text of the start, then by that of the end. */
  predicate EdgeBefore(a: Edge, b: Edge) {
    || KindBefore(a.kind, b.kind)
    || (a.kind == b.kind && a.from != b.from && StringLeq(a.from, b.from))
    || (a.kind == b.kind && a.from == b.from && StringLeq(a.to, b.to))
  }

  /** Sum over a list. */
  function Total<T>(xs: seq<T>, n: T -> nat): nat { if xs == [] then 0 else Total(Front(xs), n) + n(Last(xs)) }

  lemma {:induction false} FlatMapTotal<T, U>(xs: seq<T>, f: T -> seq<U>, n: T -> nat)
    requires forall x :: x in xs ==> |f(x)| == n(x)
    ensures |FlatMap(xs, f)| == Total(xs, n)
  {
    if xs != [] {
      FlatMapTotal(Front(xs), f, n);
    }
  }

  /** In how many subnets of the snapshot an address lies. */
  function Homes(t: Texts, s: Snapshot, ip: string): nat {
    |Places(s.subnets, (x: SubnetNode) => InCidrText(t, ip, x.cidr))|
  }

  predicate IsNeighborIp(s: Snapshot, ip: string) { exists n :: n in s.neighbors && n.ipAddress == ip }

  /** One edge for each subnet, gateway and named neighbor, one for each gateway seen as neighbor, one for each home. */
  function EdgeCount(t: Texts, s: Snapshot): nat {
    |s.subnets| + |s.gateways| + |Places(s.neighbors, (n: NeighborNode) => n.interfaceName.Some?)|
      + Total(s.gateways, (g: GatewayNode) =>
          Homes(t, s, g.gatewayIp) + if IsNeighborIp(s, g.gatewayIp) then 1 else 0)
      + Total(s.resolvers, (d: DnsNode) => Homes(t, s, d.serverIp))
  }

  lemma OnSubnetLength(t: Texts, s: Snapshot, kind: EdgeKind, from: string, ip: string)
    ensures |FlatMap(s.subnets, OnSubnet(t, kind, from, ip))| == Homes(t, s, ip)
  {
    FlatMapLength(s.subnets, OnSubnet(t, kind, from, ip), (x: SubnetNode) => InCidrText(t, ip, x.cidr));
    hide FlatMap, Places, InCidrText;
  }

  lemma GatewaysLength(t: Texts, s: Snapshot)
    ensures |FlatMap(s.gateways, GatewayRule(t, NeighborIps(s.neighbors), s.subnets))|
      == Total(s.gateways, (g: GatewayNode) =>
           Homes(t, s, g.gatewayIp) + if IsNeighborIp(s, g.gatewayIp) then 1 else 0)
  {
    var rule := GatewayRule(t, NeighborIps(s.neighbors), s.subnets);
    var perGateway := (g: GatewayNode) => Homes(t, s, g.gatewayIp) + if IsNeighborIp(s, g.gatewayIp) then 1 else 0;
    forall g | g in s.gateways ensures |rule(g)| == perGateway(g) {
      OnSubnetLength(t, s, GatewayOnSubnet, GatewayKey(g.gatewayIp), g.gatewayIp);
      hide FlatMap, Homes, OnSubnet, GatewayKey, NeighborKey;
    }
    hide FlatMap, Total, Homes, IsNeighborIp, GatewayRule, NeighborIps;
    FlatMapTotal(s.gateways, rule, perGateway);
  }

  lemma ResolversLength(t: Texts, s: Snapshot)
    ensures |FlatMap(s.resolvers, ResolverRule(t, s.subnets))|
      == Total(s.resolvers, (d: DnsNode) => Homes(t, s, d.serverIp))
  {
    var perResolver := (d: DnsNode) => Homes(t, s, d.serverIp);
    forall d | d in s.resolvers ensures |ResolverRule(t, s.subnets)(d)| == perResolver(d) {
      OnSubnetLength(t, s, DnsOnSubnet, ResolverKey(d.serverIp), d.serverIp);
      hide FlatMap, Homes, OnSubnet, ResolverKey;
    }
    hide FlatMap, Total, Homes, ResolverRule;
    FlatMapTotal(s.resolvers, ResolverRule(t, s.subnets), perResolver);
  }

  lemma {:induction false} OneOfEach<T, U>(xs: seq<T>, f: T -> seq<U>)
    requires forall x :: |f(x)| == 1
    ensures |FlatMap(xs, f)| == |xs|
  {
    if xs != [] {
      OneOfEach(Front(xs), f);
    }
  }

  lemma FoundLength(t: Texts, s: Snapshot)
    ensures |Found(t, s)| == EdgeCount(t, s)
  {
    GatewaysLength(t, s);
    ResolversLength(t, s);
    OneOfEach(s.subnets, HostsRule(t));
    OneOfEach(s.gateways, EgressRule(t, NamesByIndex(s.interfaces)));
    FlatMapLength(s.neighbors, AdjacencyRule(t), (n: NeighborNode) => n.interfaceName.Some?);
    hide FlatMap, Total, Places, Homes, IsNeighborIp, HostsRule, EgressRule, AdjacencyRule, GatewayRule, ResolverRule;
  }

  lemma EdgesLength(t: Texts, s: Snapshot)
    ensures |Edges(t, s)| == EdgeCount(t, s)
  {
    EdgesExactly(t, s);
    FoundLength(t, s);
    var edges := Edges(t, s);
    hide Edges, Found, EdgeCount, Derivable;
    assert |edges| == |multiset(edges)| == |multiset(Found(t, s))| == |Found(t, s)|;
  }

  lemma EdgesBefore(t: Texts, s: Snapshot)
    ensures var edges := Edges(t, s);
      forall i, j :: 0 <= i < j < |edges| ==> EdgeBefore(edges[i], edges[j])
  {
    EdgesExactly(t, s);
    var edges := Edges(t, s);
    hide Edges, Found, Derivable, StringLeq;
    forall i, j | 0 <= i < j < |edges| ensures EdgeBefore(edges[i], edges[j]) {
      assert EdgeLeq(edges[i], edges[j]);
    }
  }

  /**
   * The correlator returns an edge for every relation that the snapshot supports and no other, as many as
   * there are relations, by kind, start and end.
   */
  lemma EdgesInWords(t: Texts, s: Snapshot)
    ensures
      var edges := Edges(t, s);
      && (forall e :: e in edges <==> Supports(t, s, e)) && |edges| == EdgeCount(t, s)
      && forall i, j :: 0 <= i < j < |edges| ==> EdgeBefore(edges[i], edges[j])
  {
    EdgesExactly(t, s);
    EdgesLength(t, s);
    EdgesBefore(t, s);
    forall e ensures Supports(t, s, e) <==> Derivable(t, s, e) {
      SupportsIsDerivable(t, s, e);
    }
    hide Edges, Found, Supports, Derivable, EdgeCount, EdgeBefore;
  }
}
