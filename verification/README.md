# ovn-kubernetes node agent: start-up zone logic, conntrack clean-up and the DPU heartbeat

This project models, in Dafny, the decision logic of the ovn-kubernetes node
agent's default node network controller and of its DPU heartbeat. It also
proves properties of that model.

The controller covers several pieces of logic:

- The node waits until the OVN southbound database reports the node's configured zone.
- During an interconnect upgrade, a one-time barrier waits for the remote controller. It checks the routes of the other zones' nodes, then the service load balancers, then the local pods' port bindings.
- The barrier decides when the OVN database credentials are switched.
- The controller cleans up stale UDP connection-tracking entries. It does this for external gateways, using a next-hop MAC allow-list, and for endpoint slices that lost endpoints.
- Smaller helpers: the flow-collector target string, the device-plugin environment name and device reservation, the VTEP interface MTU check, the dummy next hops, and the DPU-host readiness wait.

The heartbeat covers two sides:

- A DPU owns a coordination lease and renews it on every tick.
- A DPU host lists the leases and reports when none exists or one has expired.

Every interaction with the outside world becomes data:

- a CLI run is an `SbctlRun`;
- a cluster listing is a `Result` of a sequence;
- address resolution is a `Resolver`;
- conntrack deletions are emitted requests;
- the API server is a map from (namespace, name) to lease spec, and each request carries a flag saying whether the server could be reached;
- clocks are integer nanoseconds.

Files:

- `common.dfy` (`Common`): Option/Result, bytes and fixed-width integers, and the Go `strings` operations used (`Contains`, `Join`, `Split`, `ReplaceAll`, `ToUpper`), plus reversal.
- `cluster.dfy` (`Cluster`): configuration, nodes, services, pods, namespaces and the project constants.
- `zone.dfy` (`ZoneMigration`): the zone read and wait, the gates, the upgrade barrier and the ordered start-up steps.
- `conntrack.dfy` (`Conntrack`): the gateway-annotation trigger, the periodic sweep, the MAC allow-list, the per-pod deletions and the endpoint-slice reconciliation.
- `helpers.dfy` (`NodeHelpers`): the small helpers of the controller file.
- `heartbeat.dfy` (`DPUHeartbeat`): options, defaults, the mode dispatch, the lease operations, the owner's ticker and the observer's check.

## Model

| member | source | states |
|---|---|---|
| ZoneMigration.ZoneOfRun | go-controller/pkg/node/default_node_network_controller.go:608-619 | The southbound zone read yields zone z exactly in two cases: the CLI succeeded and printed z, or it failed only because SB_Global has no name key and z is the default zone "global". Every other failure is an error. |
| ZoneMigration.AwaitZoneFirstMatch | go-controller/pkg/node/default_node_network_controller.go:719-734 | The zone wait succeeds exactly when some poll observes the configured zone. It stops at the first such poll, and the poll count tells which poll that was. On time-out it carries the last poll's error, whether that was a fetch failure or a mismatch. |
| ZoneMigration.ResolveSbZoneSpec | go-controller/pkg/node/default_node_network_controller.go:711-734 | The zone adopted is always the configured zone. A DPU host takes it without polling. Any other node fails exactly when no poll matched, and the time-out names the configured zone and carries the last poll's error. |
| ZoneMigration.GatesAreComplementary | go-controller/pkg/node/default_node_network_controller.go:737-743 | Outside DPU-host mode, the barrier (line 864) runs exactly when the early credential switch is skipped. A node that watches namespaces (line 1097) never runs the barrier. |
| ZoneMigration.LbExistsWhenListed | go-controller/pkg/node/default_node_network_controller.go:658-664 | A service whose `Service_<ns>/<name>` load balancer appears among the printed names is found. |
| ZoneMigration.LbExistsMatchesLongerName | go-controller/pkg/node/default_node_network_controller.go:658-664 | The check is a substring test, so `Service_ns/web-2` also satisfies the check for service `ns/web`. |
| ZoneMigration.ScanNodesSpec | go-controller/pkg/node/default_node_network_controller.go:870-898 | The node loop passes exactly when every node is synced. A node is synced when it is itself, in the same zone, without host subnets, without a subnet annotation, or when all its enabled-family subnets have a static route. A blocking error names the first unsynced node. |
| ZoneMigration.BarrierPass | go-controller/pkg/node/default_node_network_controller.go:868-941 | One barrier pass never clears a sync flag and keeps nodes-before-services-before-pods. It is done exactly when all three flags are set. A flag is newly set only if the pass observed that part ready. Conversely, nodes seen ready are marked, services seen ready once nodes are synced are marked, and pods seen ready once services are synced are marked. |
| ZoneMigration.NodesNotReevaluated | go-controller/pkg/node/default_node_network_controller.go:870-898 | Once nodes are synced, a pass does not depend on the node list or on the routes. |
| ZoneMigration.RunBarrierComplete | go-controller/pkg/node/default_node_network_controller.go:868-944 | A barrier given a pass that sees nodes, services and pods all ready completes, at the latest on that pass, whatever it had synced before. |
| ZoneMigration.RunBarrierSound | go-controller/pkg/node/default_node_network_controller.go:868-944 | A completed barrier has seen, within its passes, a pass with the nodes ready, one with the services ready and one with the pods ready. A timed-out barrier kept every flag it had set, and did not have all three set. |
| ZoneMigration.StartupSteps | go-controller/pkg/node/default_node_network_controller.go:697-1218 | A failed read of the node at the start ends start-up with that error and no step taken. The zone wait times out exactly when the node was read, is not a DPU host and no poll saw its zone; the time-out takes no step, names the configured zone and carries the last poll's error. Start-up is terminated only by the barrier, and only when the logical-switch wait read a node that enters it. |
| ZoneMigration.StartupCompletes | go-controller/pkg/node/default_node_network_controller.go:697-1218 | `Start` returns nil exactly when every step on its path succeeds: the two node reads, the zone wait, the early credential switch when its gate holds, OVS set-up, the annotations, the encapsulation port, the barrier with its marker and credential switch when entered, the watches, and the steps after them up to the return at line 1218. A logical-switch wait that never sees the subnets ends start-up with its time-out after the early steps. |
| ZoneMigration.AwaitSwitchFirst | go-controller/pkg/node/default_node_network_controller.go:751-766 | The logical-switch wait yields a node exactly when some read succeeded with parsed subnets, and then it is the first such read. |
| ZoneMigration.StartupDBAuthCount | go-controller/pkg/node/default_node_network_controller.go:737-743 | No start-up switches the database credentials more than twice. A completed start-up switches them once for the early gate, judged on the node read at line 697, plus once for the barrier gate at line 864, judged on the node re-read at line 753 (the second switch is at lines 952-956). Two switches mean both gates held, and any switch means at least one gate held (the early one only off a DPU host). |
| ZoneMigration.StartupSetsDBAuthOnce | go-controller/pkg/node/default_node_network_controller.go:737-743 | A DPU host never switches the credentials. When the migrated marker reads the same at both node reads, they are switched at most once, and exactly once on a completed start-up outside DPU-host mode. |
| ZoneMigration.MarkerChangeBetweenReads | go-controller/pkg/node/default_node_network_controller.go:737-753 | On a completed interconnect start-up in a non-default zone, a marker present at the first read and gone at the second gives two credential switches; a marker that appears between the reads gives none. |
| ZoneMigration.BarrierShape | go-controller/pkg/node/default_node_network_controller.go:863-958 | The barrier stage takes no step, or writes the marker, or writes the marker and then switches the credentials. It takes a step only when the barrier is entered. A barrier time-out terminates start-up with the barrier's last error, and only a time-out carries one. |
| ZoneMigration.StartupStepsOrder | go-controller/pkg/node/default_node_network_controller.go:823-1112 | A completed start-up has written the zone annotation and, outside DPU-host mode, started the endpoint-slice watch. A DPU host never sets up OVS nor writes the marker. The migrated marker is followed at once by the credential switch, or it is the last step of a start-up that the failed switch terminated. When the marker reads the same at both node reads, no credential switch comes before it. |
| Conntrack.AnnotationsChangedSpec | go-controller/pkg/node/default_node_network_controller.go:1325-1331 | The change test is symmetric and true exactly when one of the two gateway annotations differs. When it is false, the annotation-declared gateway IPs are unchanged. |
| Conntrack.SelectEntries | go-controller/pkg/node/default_node_network_controller.go:1333-1353 | The sweep reconciles exactly the namespaces that carry a gateway annotation and that have a local pod or whose pod listing failed. |
| Conntrack.SelectEntriesInOrder | go-controller/pkg/node/default_node_network_controller.go:1338-1352 | The namespaces are reconciled in listing order: the selection of a concatenation is the concatenation of the selections. |
| Conntrack.SweepSelection | go-controller/pkg/node/default_node_network_controller.go:1334-1338 | A failed namespace listing reconciles nothing. |
| Conntrack.ReverseHardwareAddr | go-controller/pkg/node/default_node_network_controller.go:1378-1380 | The in-place swap loop returns the byte-reversed hardware address. |
| Conntrack.ValidMACs | go-controller/pkg/node/default_node_network_controller.go:1365-1384 | An IP has a stored MAC exactly when it is non-empty, not IPv6, and resolves by ARP to a non-empty address. |
| Conntrack.AllowListMember | go-controller/pkg/node/default_node_network_controller.go:1387-1399 | A MAC is allowed exactly in two cases: it is the reversed address of a contributing gateway IP, or it is the "does-not-contain-anything" sentinel and no IP contributes. |
| Conntrack.AllowListNonEmpty | go-controller/pkg/node/default_node_network_controller.go:1396-1400 | The allow-list handed to the filter is never empty. |
| Conntrack.AllowListRoundTrip | go-controller/pkg/node/default_node_network_controller.go:1371-1384 | Every contributing gateway's reversed MAC is allowed, and reversing it again gives the ARP answer. |
| Conntrack.NoGatewaysPurgeAll | go-controller/pkg/node/default_node_network_controller.go:1393-1400 | With no resolvable gateway, the allow-list is the sentinel alone. |
| Conntrack.PodDeletions | go-controller/pkg/node/default_node_network_controller.go:1407-1423 | The requests are exactly one UDP deletion per address of the listed pods, pod by pod and in order, each filtered by the allow-list, so nothing else is requested. There are no errors exactly when no IP lookup failed and no deletion failed. |
| Conntrack.SyncConntrackForExternalGateways | go-controller/pkg/node/default_node_network_controller.go:1355-1424 | A failed policy lookup or pod listing ends the pass with one error and no requests. Otherwise the requests are the per-pod deletions under the allow-list of the policy and annotation IPs. |
| Conntrack.SyncCoversEveryPodIP | go-controller/pkg/node/default_node_network_controller.go:1412-1422 | Every address of every listed pod is covered by a request, whatever deletions fail. |
| Conntrack.SyncRequestsUseAllowList | go-controller/pkg/node/default_node_network_controller.go:1412-1418 | Every request is UDP-only and carries the current, non-empty allow-list. |
| Conntrack.SliceDeletions | go-controller/pkg/node/default_node_network_controller.go:1297-1314 | A deletion is issued exactly for a UDP port of the old slice and an old endpoint address that the new slice, if any, no longer lists. |
| Conntrack.ReconcileEndpointSlice | go-controller/pkg/node/default_node_network_controller.go:1282-1318 | An add event does nothing. The outcome is a failure exactly when the old slice has no service name or the lookup fails. The lookup error names the old slice. The function never dereferences a missing slice. For slices whose ports all carry a port number and a protocol, it otherwise agrees with the code as written. |
| Conntrack.ReconcileDeletionsSpec | go-controller/pkg/node/default_node_network_controller.go:1297-1314 | When the lookup succeeds or reports not-found, the reconciliation succeeds. Its deletions are exactly the stale UDP endpoints. |
| Conntrack.SingleStaleEndpoint | go-controller/pkg/node/default_node_network_controller.go:1297-1314 | A single UDP endpoint that the new slice dropped yields exactly one deletion request. |
| Conntrack.AsWrittenDerefsMissingSlice | go-controller/pkg/node/default_node_network_controller.go:1292-1296 | On a delete event whose service lookup fails, the code as written dereferences the missing new slice. |
| NodeHelpers.CollectorsString | go-controller/pkg/node/default_node_network_controller.go:178-202 | An empty target list is an error. Otherwise the result succeeds exactly when each target has a host or the node IP is known. It is the quoted, `","`-joined `host:port` entries in input order, with IPv6 hosts bracketed. |
| NodeHelpers.EnvNameFromResourceName | go-controller/pkg/node/default_node_network_controller.go:411-415 | The result is `PCIDEVICE_` followed by one character per resource character: `_` for `.` or `/`, otherwise the upper-cased character. It contains no dot or slash. |
| NodeHelpers.ReserveDeviceId | go-controller/pkg/node/default_node_network_controller.go:448-452 | The reserved ID and the remaining IDs make up the original list. |
| NodeHelpers.HandleNetdevResources | go-controller/pkg/node/default_node_network_controller.go:455-468 | A missing or empty resource entry is an error and leaves the pool alone. Otherwise the first ID is consumed, even when the netdev lookup then fails, and no other resource changes. |
| NodeHelpers.ReservationsInOrder | go-controller/pkg/node/default_node_network_controller.go:455-468 | Two successive reservations hand out the first two device IDs, in order. |
| NodeHelpers.ValidateVTEPInterfaceMTU | go-controller/pkg/node/default_node_network_controller.go:1434-1464 | Validation succeeds exactly when the encapsulation IP parses, its interface is found, and its MTU is at least the required MTU. |
| NodeHelpers.RequiredMTUByMode | go-controller/pkg/node/default_node_network_controller.go:1446-1457 | The required MTU is the overlay MTU on a single node, adds 58 bytes in IPv4-only mode and 78 bytes otherwise. Dual stack never needs less than IPv4-only. |
| NodeHelpers.DummyNextHopIPs | go-controller/pkg/node/default_node_network_controller.go:1510-1519 | There is one next hop per enabled family, with the IPv4 one first. |
| NodeHelpers.DPUHostReadyPass | go-controller/pkg/node/default_node_network_controller.go:1128-1152 | A DPU host is ready exactly when the node list was read and no node of its zone is a DPU that has not announced readiness. Whether a node is a DPU host is decided by its label (lines 1521-1524). |
| DPUHeartbeat.LastOptionWins | go-controller/pkg/node/heartbeat_dpu.go:75-79 | Applying the options in order leaves each field with the value of the last option that sets it, and untouched when no option sets it. |
| DPUHeartbeat.NewHeartbeat | go-controller/pkg/node/heartbeat_dpu.go:75-100 | A new heartbeat holds no lease. Its duration, namespace, interval and mode are never left at zero. |
| DPUHeartbeat.NewHeartbeatFields | go-controller/pkg/node/heartbeat_dpu.go:17-23 | Each field holds the last option's value unless that value is zero or no option set it. In that case it holds the default: 40 s, "dpu-lease-zone", 10 s, mode "dpu", and an empty holder identity. |
| DPUHeartbeat.RunMode | go-controller/pkg/node/heartbeat_dpu.go:102-111 | Mode "dpu" owns the lease and "dpu-host" observes it. Any other mode is an error naming the mode. |
| DPUHeartbeat.DefaultModeOwnsLease | go-controller/pkg/node/heartbeat_dpu.go:91-93 | A heartbeat built without a mode option owns the lease. |
| DPUHeartbeat.Update | go-controller/pkg/node/heartbeat_dpu.go:187-201 | Without a held lease, the update is an error and changes nothing. Otherwise the held lease takes the new spec even when the write fails. The store changes exactly when the write succeeds. |
| DPUHeartbeat.RunDPUNodeSpec | go-controller/pkg/node/heartbeat_dpu.go:113-134 | The owner's start succeeds exactly when both requests reach the server. It then holds and stores a lease renewed now, with the configured holder and duration. The acquire time is the old one when the lease was adopted and now when it was created. No other lease changes. |
| DPUHeartbeat.Tick | go-controller/pkg/node/heartbeat_dpu.go:146-150 | A tick keeps a held lease, keeps its acquire time, and renews it at the tick time. |
| DPUHeartbeat.TickerKeepsAcquireTime | go-controller/pkg/node/heartbeat_dpu.go:136-153 | Across any run of ticks, the held lease survives with its acquire time. Every message sent before cancellation is an error. The run ends with cancellation exactly when a cancel event occurs. |
| DPUHeartbeat.TickerReportsFailures | go-controller/pkg/node/heartbeat_dpu.go:136-153 | The ticker reports, in order, the error of every failed renewal before the first cancellation, and keeps ticking after one. A renewal fails when the server is unreachable or no longer holds the lease. When a cancellation comes, it then reports the outcome of deleting the lease, and stops. |
| DPUHeartbeat.CancelReleasesLease | go-controller/pkg/node/heartbeat_dpu.go:140-145 | With the release sent on a context that is still live, cancelling while the server is reachable deletes the owner's stored lease, whatever ticks came before. The last message sent is then nil. |
| DPUHeartbeat.AsWrittenNeverReleases | go-controller/pkg/node/heartbeat_dpu.go:140-145 | As written, the release uses the context that was just cancelled. No lease is ever deleted, and the last message is the cancelled context's error. |
| DPUHeartbeat.AsWrittenKeepsLease | go-controller/pkg/node/heartbeat_dpu.go:140-145 | An immediate cancellation with a stored lease and a reachable server: as written, the lease stays and an error is sent; the intended release deletes it and sends nil. |
| DPUHeartbeat.TicksRenewStoredLease | go-controller/pkg/node/heartbeat_dpu.go:146-150 | Ticks that all reach the server report nothing, and leave the stored lease renewed at the last tick with its acquire time unchanged. |
| DPUHeartbeat.FirstExpired | go-controller/pkg/node/heartbeat_dpu.go:237-241 | Finds the first lease whose renew time plus its duration lies strictly before now, or reports that none has expired. |
| DPUHeartbeat.IsHeartBeatValid | go-controller/pkg/node/heartbeat_dpu.go:227-244 | The check succeeds exactly when the listing worked, is non-empty and holds no expired lease. An expired lease yields an error naming the first one. The check is never invalid without an error. |
| DPUHeartbeat.ExpiryBoundary | go-controller/pkg/node/heartbeat_dpu.go:237-241 | A lease is still valid at the instant its renewal plus its duration is reached. One nanosecond later it fails the check, naming it, even when the leases listed before it are fresh. |
| DPUHeartbeat.HostSeesOwnersRenewal | go-controller/pkg/node/heartbeat_dpu.go:227-244 | After the owner renewed at time r, and with the other leases fresh, the observer's check at time t succeeds exactly when t is at most r plus the lease duration. |
| DPUHeartbeat.HostReportsEachFailure | go-controller/pkg/node/heartbeat_dpu.go:158-177 | The observer sends, in order, the error of every failed check before the first cancellation, and a single nil when cancelled. |
| DPUHeartbeat.HostReportsFailedChecks | go-controller/pkg/node/heartbeat_dpu.go:158-177 | The observer sends a non-nil error for each failed check, and nothing for a successful one. Once cancelled, it sends a single nil. |

## Left out

- I/O of every kind becomes input data: `ovn-sbctl`, the Kubernetes API, informers, netlink, ARP, sysfs and the environment. Logging is dropped.
- Concurrency is not modelled. This covers the ARP goroutines, the tickers and the error channel, and also the unsynchronised write to `err` in the owner's ticker goroutine.
- Time-outs are modelled by the observations made before them, not by counting polls. There is no 500 ms / 300 s arithmetic.
- The zone wait (line 719) and the barrier (line 868) both time out after 300 s. The barrier keeps each sync flag across passes (lines 863-939), so a part that became ready is not re-checked.
- StartupSteps: the `Start` steps not tied to the zone are modelled only by the error each may return. Before the zone annotation these are the CNI server, device resources, management ports and the gateway. Before the watches they are the gateway readiness wait, the topology version, the hybrid overlay and the health checks. After the watches (lines 1114-1215) they are the DPU pod watch, the DPU-host readiness wait, the CNI server start and config file, the egress service, external-route and egress IP controllers, and the DPU ready annotation. Route management is not modelled at all. The DPU-host readiness check itself is `NodeHelpers.DPUHostReadyPass`. The node's primary-IP lookup is folded into the first read.
- StartupSteps: the two `SetDBAuth` calls of one credential switch (north, then south) are one step; a failure of either fails the step.
- BarrierPass: that a pass marks pods seen ready is stated from ordered flags (nodes before services before pods), which every run starts from and every pass keeps.
- Node IP parsing and IP normalisation (`ParseIP`, `ParseIPSloppy`) are not modelled: addresses are compared as text. `HostPort.host` is the already-formatted IP.
- Conntrack.ValidMACs: the `sync.Map` iteration order is unspecified, so the allow-list is a set. Duplicate MACs collapse.
- Conntrack.ReconcileEndpointSlice: in the endpoint-slice API a port's number and protocol are pointers, and a nil port means all ports. The code dereferences both (lines 1298, 1306 and 1310), so an old slice with a UDP port that has no number, and with at least one address, would panic. The model's ports always carry both, so this case is not modelled.
- Conntrack.ReconcileEndpointSlice: a failed conntrack deletion is only logged by the code and never changes the returned aggregate, which is always empty. The model therefore emits the deletion requests without modelling their outcome.
- Conntrack.SliceContains: `DoesEndpointSliceContainEndpoint` lives in `pkg/util`, which is not part of this model. It is modelled as plain membership of (address, port, protocol), and the service argument is ignored.
- The predicates of `pkg/util` are carried as resolved node and pod fields: node zone, migrated zone, no host subnet, DPU ready, pod scheduled, completed and host-network. So are the constants of `pkg/types` (default zone "global", node modes, Geneve header lengths 58 and 78). Both packages are not part of this model.
- NodeHelpers.EnvNameFromResourceName: `strings.ToUpper` is modelled for ASCII letters only. Other Unicode case mappings are left out.
- NodeHelpers.ValidateVTEPInterfaceMTU: the encapsulation-IP parse and the interface lookup are inputs (a flag and a `Result`).
- DPUHeartbeat.RunDPUNode: a nil acquire time on an adopted lease makes the code panic, and this is not modelled. The held lease after a failed create is modelled as none, whereas client-go returns an empty object.
- DPUHeartbeat.IsHeartBeatValid: a lease without a renew time or duration makes the code panic, and this is not modelled. Time arithmetic is unbounded: it cannot overflow for `int32` durations.
- DPUHeartbeat.ApiUpdate: resource versions and update conflicts are not modelled. An update succeeds when the server is reached and the lease exists.
- DPUHeartbeat.CreateLeaseSpec: `metav1.MicroTime` truncates the acquire and renew times to microseconds on the API round-trip. The model keeps nanoseconds, so a stored time equals the one written.
- DPUHeartbeat.NewHeartbeat: a non-positive interval is kept, as in the code, and the ticker panic this would cause is not modelled.

## Findings

| source | as written | input that shows it | evidently intended | confidence | as-written member | corrected member |
|---|---|---|---|---|---|---|
| go-controller/pkg/node/default_node_network_controller.go:1292-1296 | The service-lookup error message reads `newEndpointSlice.Namespace` and `.Name`. | A delete event (old slice set, new slice nil) whose service lookup fails with an error other than not-found. | Name the old slice, which is always non-nil at that point, and return the error. | medium, not executed | Conntrack.ReconcileEndpointSliceAsWritten (shown by Conntrack.AsWrittenDerefsMissingSlice) | Conntrack.ReconcileEndpointSlice |
| go-controller/pkg/node/heartbeat_dpu.go:140-144 | On cancellation the lease is deleted with `ctx`, the context whose cancellation was just observed. | Any cancellation while the lease is stored and the server is reachable. client-go fails a request on a cancelled context before sending it, so the lease stays and `context.Canceled` is sent. | Release the lease with a fresh context, so that it is deleted and a nil error is sent. | medium, not executed; it rests on client-go's context handling, which is not part of this model | DPUHeartbeat.RunTickerAsWritten (shown by DPUHeartbeat.AsWrittenNeverReleases and DPUHeartbeat.AsWrittenKeepsLease) | DPUHeartbeat.RunTicker (DPUHeartbeat.CancelReleasesLease) |
