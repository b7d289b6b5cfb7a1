/** The cluster objects and the agent configuration the node agent's
    decisions read. Facts that the Go code obtains through helpers of
    `pkg/util` (a node's zone, whether a pod is scheduled, ...) are carried
    here as already-resolved fields. */
module Cluster {
  import opened Common

  /** Node modes of the agent (`types.NodeModeFull/DPU/DPUHost`). */
  const NodeModeFull: string := "full"
  const NodeModeDPU: string := "dpu"
  const NodeModeDPUHost: string := "dpu-host"

  /** Zone assumed when the southbound database names none (`types.OvnDefaultZone`). */
  const DefaultZone: string := "global"

  /** Node label that marks a DPU host. */
  const DPUHostLabel: string := "k8s.ovn.org/dpu-host"

  /** Namespace annotations declaring external gateways. */
  const ExternalGatewayPodIPsAnnotation: string := "k8s.ovn.org/external-gw-pod-ips"
  const RoutingExternalGWsAnnotation: string := "k8s.ovn.org/routing-external-gws"

  /** The process-wide configuration the agent consults, passed explicitly. */
  datatype Config = Config(
    mode: string,                 // config.OvnKubeNode.Mode
    enableInterconnect: bool,     // config.OVNKubernetesFeature.EnableInterconnect
    zone: string,                 // config.Default.Zone
    ipv4Mode: bool,               // config.IPv4Mode
    ipv6Mode: bool,               // config.IPv6Mode
    singleNode: bool,             // config.Gateway.SingleNode
    mtu: int,                     // config.Default.MTU
    v4DummyNextHop: string,       // masquerade dummy next hop, IPv4
    v6DummyNextHop: string        // masquerade dummy next hop, IPv6
  )

  /** A host subnet of a node: its CIDR text and address family. */
  datatype Subnet = Subnet(cidr: string, isV6: bool)

  /** The outcome of parsing a node's host-subnet annotation. */
  datatype SubnetAnnotation =
    | NotSet                       // the annotation is absent
    | Malformed(reason: string)    // present but unparsable
    | Subnets(subnets: seq<Subnet>)

  datatype Node = Node(
    name: string,
    labels: map<string, string>,
    zone: string,                  // zone annotation, DefaultZone when absent
    migratedZone: bool,            // carries the remote-zone-migrated marker
    noHostSubnet: bool,            // opted out of host-subnet allocation
    hostSubnets: SubnetAnnotation,
    dpuNodeReady: bool             // carries the DPU-node-ready marker
  )

  datatype Service = Service(
    namespace: string,
    name: string,
    typeHasClusterIP: bool,
    clusterIPSet: bool
  )

  /** The IPs a pod owns on the default network, or why there are none. */
  datatype PodIPs = IPs(addresses: seq<string>) | NoIPFound | IPLookupError(reason: string)

  datatype Pod = Pod(
    namespace: string,
    name: string,
    nodeName: string,
    scheduled: bool,
    completed: bool,
    hostNetwork: bool,
    ips: PodIPs
  )

  datatype Namespace = Namespace(name: string, annotations: map<string, string>)

  /** A Go map read: the stored value, or "" for a missing key. */
  function Annotation(annotations: map<string, string>, key: string): string
  {
    if key in annotations then annotations[key] else ""
  }
}
