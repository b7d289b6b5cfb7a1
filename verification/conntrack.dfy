/** Stale connection-tracking clean-up on the node: which namespace changes
    and which namespaces of the periodic sweep trigger a pass, the
    next-hop MAC allow-list built from the external gateway IPs, the
    per-pod-IP deletion requests, and the endpoint-slice diff. Address
    resolution and conntrack deletion are inputs and emitted requests. */
module Conntrack {
  import opened Common
  import opened Cluster

  // ---------------------------------------------------------------------------
  // Triggers

  /** `exGatewayPodsAnnotationsChanged`: either gateway annotation's value
      differs between the old and the new namespace object. */
  function ExGatewayPodsAnnotationsChanged(oldNs: Namespace, newNs: Namespace): bool
  {
    || Annotation(oldNs.annotations, ExternalGatewayPodIPsAnnotation) != Annotation(newNs.annotations, ExternalGatewayPodIPsAnnotation)
    || Annotation(oldNs.annotations, RoutingExternalGWsAnnotation) != Annotation(newNs.annotations, RoutingExternalGWsAnnotation)
  }

  function SetOf(s: seq<string>): (r: set<string>)
    ensures forall x :: x in r <==> x in s
  {
    set x | x in s
  }

  /** The gateway IPs the two namespace annotations declare (comma-separated). */
  function AnnotatedGatewayIPs(ns: Namespace): set<string>
  {
    SetOf(Split(Annotation(ns.annotations, ExternalGatewayPodIPsAnnotation), ','))
      + SetOf(Split(Annotation(ns.annotations, RoutingExternalGWsAnnotation), ','))
  }

  /** The change test is symmetric, false for identical annotations, and
      when it is false the annotation-declared gateway IPs are the same, so
      a skipped update cannot change the allow-list's annotation input. */
  lemma AnnotationsChangedSpec(oldNs: Namespace, newNs: Namespace)
    ensures ExGatewayPodsAnnotationsChanged(oldNs, newNs) == ExGatewayPodsAnnotationsChanged(newNs, oldNs)
    ensures oldNs.annotations == newNs.annotations ==> !ExGatewayPodsAnnotationsChanged(oldNs, newNs)
    ensures !ExGatewayPodsAnnotationsChanged(oldNs, newNs) ==> AnnotatedGatewayIPs(oldNs) == AnnotatedGatewayIPs(newNs)
    ensures ExGatewayPodsAnnotationsChanged(oldNs, newNs) <==>
              exists key :: key in {ExternalGatewayPodIPsAnnotation, RoutingExternalGWsAnnotation}
                && Annotation(oldNs.annotations, key) != Annotation(newNs.annotations, key)
  {
    if ExGatewayPodsAnnotationsChanged(oldNs, newNs) {
      if Annotation(oldNs.annotations, ExternalGatewayPodIPsAnnotation) != Annotation(newNs.annotations, ExternalGatewayPodIPsAnnotation) {
        assert ExternalGatewayPodIPsAnnotation in {ExternalGatewayPodIPsAnnotation, RoutingExternalGWsAnnotation};
      } else {
        assert RoutingExternalGWsAnnotation in {ExternalGatewayPodIPsAnnotation, RoutingExternalGWsAnnotation};
      }
    }
  }

  /** The result of listing a namespace's pods on this node. */
  datatype PodListing = Listed(count: nat) | ListFailed(reason: string)

  datatype SweepEntry = SweepEntry(ns: Namespace, pods: PodListing)

  /** A namespace the periodic sweep reconciles: it carries either gateway
      annotation (even with an empty value) and has a local pod, or its
      pods could not be listed. */
  predicate SweepSelects(e: SweepEntry)
  {
    && (RoutingExternalGWsAnnotation in e.ns.annotations || ExternalGatewayPodIPsAnnotation in e.ns.annotations)
    && (e.pods.ListFailed? || e.pods.count > 0)
  }

  /** `checkAndDeleteStaleConntrackEntries`: the namespaces reconciled, in
      listing order. A failed namespace listing reconciles nothing. */
  function SweepSelection(listing: Result<seq<SweepEntry>>): (r: seq<Namespace>)
    ensures listing.Err? ==> r == []
  {
    if listing.Err? then [] else SelectEntries(listing.value)
  }

  function SelectEntries(entries: seq<SweepEntry>): (r: seq<Namespace>)
    ensures |r| <= |entries|
    ensures forall ns :: ns in r <==> exists e :: e in entries && SweepSelects(e) && e.ns == ns
  {
    if |entries| == 0 then []
    else
      var rest := SelectEntries(entries[1..]);
      assert forall e :: e in entries <==> e == entries[0] || e in entries[1..];
      if SweepSelects(entries[0]) then [entries[0].ns] + rest else rest
  }

  /** The selection keeps listing order: a single entry yields its
      namespace exactly when it is selected, and selecting from two
      listings in sequence selects from each in turn. */
  lemma {:induction false} SelectEntriesInOrder(a: seq<SweepEntry>, b: seq<SweepEntry>)
    ensures |a| == 1 ==> SelectEntries(a) == if SweepSelects(a[0]) then [a[0].ns] else []
    ensures SelectEntries(a + b) == SelectEntries(a) + SelectEntries(b)
    decreases |a|
  {
    if |a| > 0 {
      assert (a + b)[0] == a[0];
      assert (a + b)[1..] == a[1..] + b;
      SelectEntriesInOrder(a[1..], b);
    } else {
      assert a + b == b;
    }
  }

  // ---------------------------------------------------------------------------
  // MAC allow-list

  /** What address resolution yields: which strings parse as IPv6
      addresses, and the ARP result per IPv4 address (None for a failed
      lookup; a missing key is a failed lookup too). */
  datatype Resolver = Resolver(ipv6: set<string>, arp: map<string, Option<seq<byte>>>)

  /** The gateway IPs considered: the policy-provided set plus both annotations. */
  function GatewayIPs(policyIPs: set<string>, ns: Namespace): set<string>
  {
    policyIPs + AnnotatedGatewayIPs(ns)
  }

  /** An IP contributes a MAC when it is non-empty, not IPv6, and resolves
      to a non-empty hardware address. */
  predicate Contributes(ip: string, res: Resolver)
  {
    |ip| > 0 && ip !in res.ipv6 && ip in res.arp && res.arp[ip].Some? && |res.arp[ip].value| > 0
  }

  function ResolvedAddr(ip: string, res: Resolver): seq<byte>
    requires Contributes(ip, res)
  {
    res.arp[ip].value
  }

  /** The in-place swap loop that reverses a hardware address, because the
      datapath stores the MAC in the label in the opposite byte order. */
  method ReverseHardwareAddr(hw: seq<byte>) returns (r: seq<byte>)
    ensures r == Reverse(hw)
  {
    r := hw;
    var i: int, j: int := 0, |hw| - 1;
    while i < j
      invariant 0 <= i <= j + 1 <= |hw|
      invariant i + j == |hw| - 1
      invariant |r| == |hw|
      invariant forall k :: 0 <= k < i ==> r[k] == hw[|hw| - 1 - k]
      invariant forall k :: j < k < |hw| ==> r[k] == hw[|hw| - 1 - k]
      invariant forall k :: i <= k <= j ==> r[k] == hw[k]
    {
      r := r[i := r[j]][j := r[i]];
      i, j := i + 1, j - 1;
    }
    forall k | 0 <= k < |hw|
      ensures r[k] == Reverse(hw)[k]
    {
      ReverseIndex(hw, k);
    }
  }

  /** `validMACs`: each contributing gateway IP mapped to its reversed address. */
  function ValidMACs(gatewayIPs: set<string>, res: Resolver): (m: map<string, seq<byte>>)
    ensures forall ip :: ip in m <==> ip in gatewayIPs && Contributes(ip, res)
  {
    map ip | ip in gatewayIPs && Contributes(ip, res) :: Reverse(ResolvedAddr(ip, res))
  }

  /** The non-matching label used when no MAC was found: the ASCII bytes
      of "does-not-contain-anything", longer than the 128-bit conntrack
      label, so it equals no stored label. */
  function Sentinel(): (s: seq<byte>)
    ensures |s| * 8 > 128
  {
    [0x64, 0x6f, 0x65, 0x73, 0x2d, 0x6e, 0x6f, 0x74, 0x2d, 0x63, 0x6f, 0x6e, 0x74, 0x61, 0x69, 0x6e, 0x2d, 0x61, 0x6e, 0x79, 0x74, 0x68, 0x69, 0x6e, 0x67]
  }

  /** The allow-list handed to the conntrack filter: the valid MACs, or
      the single sentinel when there are none. */
  function AllowList(gatewayIPs: set<string>, res: Resolver): set<seq<byte>>
  {
    var m := ValidMACs(gatewayIPs, res);
    if |m| == 0 then {Sentinel()} else m.Values
  }

  /** The allow-list is never empty: when no IP contributes it is the
      sentinel alone, otherwise it holds at least one resolved MAC. */
  lemma AllowListNonEmpty(gatewayIPs: set<string>, res: Resolver)
    ensures AllowList(gatewayIPs, res) != {}
  {
    var m := ValidMACs(gatewayIPs, res);
    if |m| != 0 {
      var ip0 :| ip0 in m;
      assert m[ip0] in m.Values;
    }
  }

  /** A MAC is allowed exactly when it is the reversed address of a
      contributing gateway IP, or it is the sentinel and no IP contributes. */
  lemma AllowListMember(gatewayIPs: set<string>, res: Resolver, mac: seq<byte>)
    ensures mac in AllowList(gatewayIPs, res) <==>
              (exists ip :: ip in gatewayIPs && Contributes(ip, res) && mac == Reverse(ResolvedAddr(ip, res)))
              || ((forall ip :: ip in gatewayIPs ==> !Contributes(ip, res)) && mac == Sentinel())
  {
    var m := ValidMACs(gatewayIPs, res);
    if |m| == 0 {
      assert m.Keys == {};
    } else {
      var ip0 :| ip0 in m;
      ValidMACsValues(gatewayIPs, res, mac);
    }
  }

  lemma ValidMACsValues(gatewayIPs: set<string>, res: Resolver, mac: seq<byte>)
    ensures mac in ValidMACs(gatewayIPs, res).Values <==>
              exists ip :: ip in gatewayIPs && Contributes(ip, res) && mac == Reverse(ResolvedAddr(ip, res))
  {
    var m := ValidMACs(gatewayIPs, res);
    if mac in m.Values {
      var ip :| ip in m && m[ip] == mac;
    }
    if exists ip :: ip in gatewayIPs && Contributes(ip, res) && mac == Reverse(ResolvedAddr(ip, res)) {
      var ip :| ip in gatewayIPs && Contributes(ip, res) && mac == Reverse(ResolvedAddr(ip, res));
      assert m[ip] == mac;
    }
  }

  /** Reversing an allowed MAC of a contributing IP gives back the address
      ARP returned. */
  lemma AllowListRoundTrip(gatewayIPs: set<string>, res: Resolver, ip: string)
    requires ip in gatewayIPs && Contributes(ip, res)
    ensures Reverse(ResolvedAddr(ip, res)) in AllowList(gatewayIPs, res)
    ensures Reverse(Reverse(ResolvedAddr(ip, res))) == ResolvedAddr(ip, res)
  {
    AllowListMember(gatewayIPs, res, Reverse(ResolvedAddr(ip, res)));
    ReverseInvolution(ResolvedAddr(ip, res));
  }

  /** With no declared gateway that resolves, everything is purged: the
      allow-list holds only the sentinel. */
  lemma NoGatewaysPurgeAll(policyIPs: set<string>, ns: Namespace, res: Resolver)
    requires forall ip :: ip in GatewayIPs(policyIPs, ns) ==> !Contributes(ip, res)
    ensures AllowList(GatewayIPs(policyIPs, ns), res) == {Sentinel()}
  {
    var m := ValidMACs(GatewayIPs(policyIPs, ns), res);
    assert m.Keys == {};
  }

  // ---------------------------------------------------------------------------
  // Deletion requests for the namespace's pods

  datatype Protocol = TCP | UDP | SCTP

  /** `DeleteConntrack(podIP, 0, UDP, OrigDstIP, allow)`: remove the UDP
      entries towards the pod IP whose label is not in the allow-list. */
  datatype ExGwDeletion = ExGwDeletion(podIP: string, protocol: Protocol, allow: set<seq<byte>>)

  datatype SyncOutcome = SyncOutcome(requests: seq<ExGwDeletion>, errors: seq<string>)

  /** The addresses of the listed pods, pod by pod, in listing order. */
  function AllPodIPs(pods: seq<Pod>): seq<string>
  {
    if |pods| == 0 then []
    else (if pods[0].ips.IPs? then pods[0].ips.addresses else []) + AllPodIPs(pods[1..])
  }

  /** The per-pod loop: every IP of every pod gets a request; an IP lookup
      error or a failed deletion (an IP in `failing`) is collected and the
      loop goes on. */
  function PodDeletions(pods: seq<Pod>, allow: set<seq<byte>>, failing: set<string>): (o: SyncOutcome)
    ensures |o.requests| == |AllPodIPs(pods)|
    ensures forall k :: 0 <= k < |o.requests| ==> o.requests[k] == ExGwDeletion(AllPodIPs(pods)[k], UDP, allow)
    ensures forall d :: d in o.requests <==>
              d.protocol == UDP && d.allow == allow
              && exists p :: p in pods && p.ips.IPs? && d.podIP in p.ips.addresses
    ensures |o.errors| == 0 <==>
              forall p :: p in pods ==> !p.ips.IPLookupError? && (p.ips.IPs? ==> forall a :: a in p.ips.addresses ==> a !in failing)
  {
    if |pods| == 0 then SyncOutcome([], [])
    else
      var p := pods[0];
      var rest := PodDeletions(pods[1..], allow, failing);
      assert forall q :: q in pods <==> q == p || q in pods[1..];
      match p.ips
      case NoIPFound => rest
      case IPLookupError(why) => SyncOutcome(rest.requests, ["unable to fetch IP for pod " + p.namespace + "/" + p.name] + rest.errors)
      case IPs(addrs) =>
        var here := IPDeletions(addrs, allow, failing);
        DeletionsConcat(addrs, AllPodIPs(pods[1..]), here.requests, rest.requests, allow);
        SyncOutcome(here.requests + rest.requests, here.errors + rest.errors)
  }

  /** Requests that follow two address lists, one by one, follow their
      concatenation. */
  lemma DeletionsConcat(a: seq<string>, b: seq<string>, ra: seq<ExGwDeletion>, rb: seq<ExGwDeletion>, allow: set<seq<byte>>)
    requires |ra| == |a| && forall k :: 0 <= k < |a| ==> ra[k] == ExGwDeletion(a[k], UDP, allow)
    requires |rb| == |b| && forall k :: 0 <= k < |b| ==> rb[k] == ExGwDeletion(b[k], UDP, allow)
    ensures |ra + rb| == |a + b|
    ensures forall k :: 0 <= k < |a + b| ==> (ra + rb)[k] == ExGwDeletion((a + b)[k], UDP, allow)
  {
  }

  function IPDeletions(addrs: seq<string>, allow: set<seq<byte>>, failing: set<string>): (o: SyncOutcome)
    ensures |o.requests| == |addrs|
    ensures forall k :: 0 <= k < |addrs| ==> o.requests[k] == ExGwDeletion(addrs[k], UDP, allow)
    ensures forall d :: d in o.requests <==> d.protocol == UDP && d.allow == allow && d.podIP in addrs
    ensures |o.errors| == 0 <==> forall a :: a in addrs ==> a !in failing
  {
    if |addrs| == 0 then SyncOutcome([], [])
    else
      var rest := IPDeletions(addrs[1..], allow, failing);
      assert forall a :: a in addrs <==> a == addrs[0] || a in addrs[1..];
      var err := if addrs[0] in failing then ["failed to delete conntrack entry for pod " + addrs[0]] else [];
      SyncOutcome([ExGwDeletion(addrs[0], UDP, allow)] + rest.requests, err + rest.errors)
  }

  /** `syncConntrackForExternalGateways`: a failed policy lookup or pod
      listing ends the pass with no deletions; otherwise every pod IP gets
      a UDP deletion request filtered by the allow-list. */
  function SyncConntrackForExternalGateways(ns: Namespace, policyIPs: Result<set<string>>, res: Resolver,
                                            pods: Result<seq<Pod>>, failing: set<string>): (o: SyncOutcome)
    ensures policyIPs.Err? || pods.Err? ==> o.requests == [] && |o.errors| == 1
    ensures policyIPs.Ok? && pods.Ok? ==>
              o == PodDeletions(pods.value, AllowList(GatewayIPs(policyIPs.value, ns), res), failing)
  {
    match policyIPs
    case Err(e) => SyncOutcome([], ["unable to retrieve gateway IPs for Admin Policy Based External Route objects: " + e])
    case Ok(ips) =>
      var allow := AllowList(GatewayIPs(ips, ns), res);
      match pods
      case Err(e) => SyncOutcome([], ["unable to get pods from informer: " + e])
      case Ok(ps) => PodDeletions(ps, allow, failing)
  }

  /** Every request of a pass removes only UDP entries not labelled with a
      MAC of the current (non-empty) allow-list, and every IP of every listed
      pod is covered, whatever deletions fail. */
  lemma SyncCoversEveryPodIP(ns: Namespace, ips: set<string>, res: Resolver, pods: seq<Pod>, failing: set<string>, p: Pod, a: string)
    requires p in pods && p.ips.IPs? && a in p.ips.addresses
    ensures ExGwDeletion(a, UDP, AllowList(GatewayIPs(ips, ns), res))
              in SyncConntrackForExternalGateways(ns, Ok(ips), res, Ok(pods), failing).requests
  {
    PodDeletionsCover(pods, AllowList(GatewayIPs(ips, ns), res), failing, p, a);
  }

  lemma PodDeletionsCover(pods: seq<Pod>, allow: set<seq<byte>>, failing: set<string>, p: Pod, a: string)
    requires p in pods && p.ips.IPs? && a in p.ips.addresses
    ensures ExGwDeletion(a, UDP, allow) in PodDeletions(pods, allow, failing).requests
  {
  }

  lemma SyncRequestsUseAllowList(ns: Namespace, ips: set<string>, res: Resolver, pods: seq<Pod>, failing: set<string>, d: ExGwDeletion)
    requires d in SyncConntrackForExternalGateways(ns, Ok(ips), res, Ok(pods), failing).requests
    ensures d.protocol == UDP && d.allow == AllowList(GatewayIPs(ips, ns), res) && d.allow != {}
  {
    AllowListNonEmpty(GatewayIPs(ips, ns), res);
  }

  // ---------------------------------------------------------------------------
  // Endpoint slices

  datatype EndpointPort = EndpointPort(port: int32, protocol: Protocol)
  datatype Endpoint = Endpoint(addresses: seq<string>)

  /** An endpoint slice; `serviceName` is its owning-service label. */
  datatype EndpointSlice = EndpointSlice(
    namespace: string,
    name: string,
    serviceName: Option<string>,
    ports: seq<EndpointPort>,
    endpoints: seq<Endpoint>
  )

  datatype ServiceLookup = ServiceFound(svc: Service) | ServiceNotFound | ServiceLookupFailed(reason: string)

  /** `DeleteConntrackServicePort(ip, port, protocol, ReplyAnyIP, nil)`. */
  datatype ServiceDeletion = ServiceDeletion(ip: string, port: int32, protocol: Protocol)

  /** The slice still lists address `ip` with `port`/`protocol`. */
  predicate SliceContains(slice: EndpointSlice, ip: string, port: int32, protocol: Protocol)
  {
    exists p, e :: p in slice.ports && e in slice.endpoints
      && p.port == port && p.protocol == protocol && ip in e.addresses
  }

  /** The endpoint (ip, port, protocol) of the old slice is stale. */
  predicate Stale(newSlice: Option<EndpointSlice>, ip: string, port: int32, protocol: Protocol)
  {
    newSlice.None? || !SliceContains(newSlice.value, ip, port, protocol)
  }

  function AddressDeletions(p: EndpointPort, addrs: seq<string>, newSlice: Option<EndpointSlice>): (ds: seq<ServiceDeletion>)
    ensures forall d :: d in ds <==>
              d.ip in addrs && d.port == p.port && d.protocol == p.protocol && Stale(newSlice, d.ip, p.port, p.protocol)
  {
    if |addrs| == 0 then []
    else
      var rest := AddressDeletions(p, addrs[1..], newSlice);
      assert forall a :: a in addrs <==> a == addrs[0] || a in addrs[1..];
      if Stale(newSlice, addrs[0], p.port, p.protocol) then [ServiceDeletion(addrs[0], p.port, p.protocol)] + rest else rest
  }

  function EndpointDeletions(p: EndpointPort, eps: seq<Endpoint>, newSlice: Option<EndpointSlice>): (ds: seq<ServiceDeletion>)
    ensures forall d :: d in ds <==>
              d.port == p.port && d.protocol == p.protocol && Stale(newSlice, d.ip, p.port, p.protocol)
              && exists e :: e in eps && d.ip in e.addresses
  {
    if |eps| == 0 then []
    else
      var rest := EndpointDeletions(p, eps[1..], newSlice);
      assert forall e :: e in eps <==> e == eps[0] || e in eps[1..];
      AddressDeletions(p, eps[0].addresses, newSlice) + rest
  }

  /** The loops of the reconciliation: for each UDP port of the old slice
      and each address of each old endpoint, a deletion unless the new
      slice still has that endpoint. */
  function SliceDeletions(ports: seq<EndpointPort>, eps: seq<Endpoint>, newSlice: Option<EndpointSlice>): (ds: seq<ServiceDeletion>)
    ensures forall d :: d in ds <==>
              d.protocol == UDP && Stale(newSlice, d.ip, d.port, UDP)
              && EndpointPort(d.port, UDP) in ports
              && exists e :: e in eps && d.ip in e.addresses
  {
    if |ports| == 0 then []
    else
      var rest := SliceDeletions(ports[1..], eps, newSlice);
      assert forall q :: q in ports <==> q == ports[0] || q in ports[1..];
      if ports[0].protocol != UDP then rest
      else EndpointDeletions(ports[0], eps, newSlice) + rest
  }

  datatype ReconcileOutcome =
    | Reconciled(deletions: seq<ServiceDeletion>)   // the aggregate error is empty
    | ReconcileFailed(reason: string)
    | NilDereference                                 // the Go code would panic

  /** `reconcileConntrackUponEndpointSliceEvents` as written: when the
      service lookup fails with an error other than not-found, the error
      message reads the new slice's namespace and name, which on a delete
      event (no new slice) is a nil dereference. */
  function ReconcileEndpointSliceAsWritten(oldSlice: Option<EndpointSlice>, newSlice: Option<EndpointSlice>, lookup: ServiceLookup): ReconcileOutcome
  {
    if oldSlice.None? then Reconciled([])
    else if oldSlice.value.serviceName.None? then ReconcileFailed("cannot reconcile conntrack: endpointslice has no service name")
    else if lookup.ServiceLookupFailed? then
      if newSlice.None? then NilDereference
      else ReconcileFailed("error while retrieving service for endpointslice " + newSlice.value.namespace + "/" + newSlice.value.name)
    else Reconciled(SliceDeletions(oldSlice.value.ports, oldSlice.value.endpoints, newSlice))
  }

  /** A delete event whose service lookup fails makes the code as written
      dereference the missing new slice. */
  lemma AsWrittenDerefsMissingSlice(oldSlice: EndpointSlice)
    requires oldSlice.serviceName.Some?
    ensures ReconcileEndpointSliceAsWritten(Some(oldSlice), None, ServiceLookupFailed("etcd timeout")) == NilDereference
  {
  }

  /** The reconciliation with the lookup error naming the old slice, which
      is always present at that point. */
  function ReconcileEndpointSlice(oldSlice: Option<EndpointSlice>, newSlice: Option<EndpointSlice>, lookup: ServiceLookup): (r: ReconcileOutcome)
    ensures !r.NilDereference?
    ensures oldSlice.None? ==> r == Reconciled([])
    ensures r.ReconcileFailed? <==> oldSlice.Some? && (oldSlice.value.serviceName.None? || lookup.ServiceLookupFailed?)
    ensures lookup.ServiceLookupFailed? && oldSlice.Some? && oldSlice.value.serviceName.Some? ==>
              r == ReconcileFailed("error while retrieving service for endpointslice " + oldSlice.value.namespace + "/" + oldSlice.value.name)
    ensures !ReconcileEndpointSliceAsWritten(oldSlice, newSlice, lookup).NilDereference? ==>
              r.Reconciled? == ReconcileEndpointSliceAsWritten(oldSlice, newSlice, lookup).Reconciled?
  {
    if oldSlice.None? then Reconciled([])
    else if oldSlice.value.serviceName.None? then ReconcileFailed("cannot reconcile conntrack: endpointslice has no service name")
    else if lookup.ServiceLookupFailed? then
      ReconcileFailed("error while retrieving service for endpointslice " + oldSlice.value.namespace + "/" + oldSlice.value.name)
    else Reconciled(SliceDeletions(oldSlice.value.ports, oldSlice.value.endpoints, newSlice))
  }

  /** A deletion for (ip, port, UDP) is issued exactly when the old slice
      had that UDP port and an endpoint with that address, and the new slice
      is absent or no longer has it; nothing else is ever deleted. */
  lemma ReconcileDeletionsSpec(oldSlice: EndpointSlice, newSlice: Option<EndpointSlice>, lookup: ServiceLookup, d: ServiceDeletion)
    requires oldSlice.serviceName.Some? && !lookup.ServiceLookupFailed?
    ensures ReconcileEndpointSlice(Some(oldSlice), newSlice, lookup).Reconciled?
    ensures d in ReconcileEndpointSlice(Some(oldSlice), newSlice, lookup).deletions <==>
              && d.protocol == UDP
              && EndpointPort(d.port, UDP) in oldSlice.ports
              && (exists e :: e in oldSlice.endpoints && d.ip in e.addresses)
              && (newSlice.None? || !SliceContains(newSlice.value, d.ip, d.port, UDP))
  {
  }

  /** One UDP endpoint that the new slice no longer lists yields exactly one
      deletion request, for that endpoint. */
  lemma SingleStaleEndpoint(ns: string, name: string, svc: string, ip: string, port: int32, newSlice: EndpointSlice, lookup: ServiceLookup)
    requires !lookup.ServiceLookupFailed?
    requires !SliceContains(newSlice, ip, port, UDP)
    ensures ReconcileEndpointSlice(
              Some(EndpointSlice(ns, name, Some(svc), [EndpointPort(port, UDP)], [Endpoint([ip])])), Some(newSlice), lookup)
            == Reconciled([ServiceDeletion(ip, port, UDP)])
  {
    var p := EndpointPort(port, UDP);
    var eps := [Endpoint([ip])];
    assert AddressDeletions(p, [ip], Some(newSlice)) == [ServiceDeletion(ip, port, UDP)] + AddressDeletions(p, [], Some(newSlice));
    assert EndpointDeletions(p, eps, Some(newSlice)) == AddressDeletions(p, [ip], Some(newSlice)) + EndpointDeletions(p, [], Some(newSlice));
    assert SliceDeletions([p], eps, Some(newSlice)) == EndpointDeletions(p, eps, Some(newSlice)) + SliceDeletions([], eps, Some(newSlice));
  }
}
