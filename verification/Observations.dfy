// What scanners report: the observation envelope, the network payloads and the topology derived
// from them (observation/models.rs, observation/payloads.rs, network/topology.rs).
module Observations {
  import opened IpAddress
  import opened Seqs

  datatype Domain =
    | Processes | Sockets | Firewall | Users | Services | OsConfig
    | Interfaces | Routes | Dns | Neighbors | Topology

  datatype Privilege = Available | Partial | PermissionDenied | Unsupported | Error

  datatype Confidence = Heuristic | UnprivilegedPartial | SystemTable | KernelAuthoritative {
    function Value(): real {
      match this
      case KernelAuthoritative => 1.0
      case SystemTable => 0.9
      case UnprivilegedPartial => 0.7
      case Heuristic => 0.5
    }
  }

  /** The scanners that feed the topology, the topology itself, and any other. */
  datatype ScannerId = InterfacesV1 | RoutesV1 | DnsV1 | NeighborsV1 | TopologyV1 | OtherScanner(name: string)

  datatype Target = Host(hostname: string) | OtherTarget(key: string)

  // ----- Payload records ----------------------------------------------------------

  datatype IpRecord = IpRecord(ipAddress: string, prefixLength: nat, isIpv6: bool, classification: Classification)

  datatype InterfaceRecord = InterfaceRecord(
    name: string, index: nat, macHash: Option<string>, isUp: bool, isLoopback: bool, ipAddresses: seq<IpRecord>)

  datatype RouteRecord = RouteRecord(
    gatewayIp: Option<string>, interfaceIndex: nat, interfaceName: Option<string>,
    metric: nat, isIpv6: bool, isDefaultGateway: bool)

  datatype DnsRecord = DnsRecord(serverAddress: string, isIpv6: bool, classification: Classification)

  datatype NeighborState = Reachable | Stale | Delay | Probe | Incomplete | Permanent | Unknown

  datatype NeighborRecord = NeighborRecord(
    ipAddress: string,
    macHash: Option<string>,
    interfaceName: Option<string>,
    interfaceIndex: nat,
    state: NeighborState,
    isIpv6: bool,
    classification: Classification,
    isRouter: Option<bool>)

  // ----- The topology ---------------------------------------------------------------

  datatype InterfaceNode = InterfaceNode(
    name: string, index: nat, isUp: bool, isLoopback: bool, ipAddresses: seq<string>, macHash: Option<string>)

  datatype GatewayNode = GatewayNode(
    gatewayIp: string, interfaceIndex: nat, interfaceName: Option<string>, metric: nat, isIpv6: bool)

  datatype DnsNode = DnsNode(serverIp: string, isIpv6: bool, classification: Classification)

  datatype NeighborNode = NeighborNode(
    ipAddress: string, macHash: Option<string>, interfaceName: Option<string>,
    state: NeighborState, classification: Classification, isRouter: bool)

  datatype SubnetNode = SubnetNode(cidr: string, interfaceName: string, isIpv6: bool, classification: Classification)

  datatype Snapshot = Snapshot(
    interfaces: seq<InterfaceNode>,
    gateways: seq<GatewayNode>,
    resolvers: seq<DnsNode>,
    neighbors: seq<NeighborNode>,
    subnets: seq<SubnetNode>,
    isMultiHomed: bool,
    confidence: Confidence,
    provenance: seq<ScannerId>)

  datatype EdgeKind =
    | InterfaceHasGateway | InterfaceHasNeighbor | InterfaceHostsSubnet
    | NeighborIsGateway | GatewayOnSubnet | DnsOnSubnet

  datatype Edge = Edge(kind: EdgeKind, from: string, to: string)

  datatype Payload =
    | InterfacesPayload(interfaces: seq<InterfaceRecord>)
    | RoutesPayload(routes: seq<RouteRecord>)
    | DnsPayload(servers: seq<DnsRecord>)
    | NeighborsPayload(neighbors: seq<NeighborRecord>)
    | TopologyPayload(snapshot: Snapshot, edges: seq<Edge>, missing: seq<ScannerId>, partial: seq<ScannerId>)
    | OtherPayload(content: string)

  datatype Observation = Observation(
    scannerId: ScannerId, domain: Domain, target: Target, privilege: Privilege,
    confidence: Confidence, payload: Payload)
}
