/** The node agent's zone handling at start-up: reading the southbound
    database's zone, waiting for it to match the configured zone, the
    interconnect upgrade barrier (nodes, then services, then pods) and the
    gates that decide where the database credentials are set and which
    conntrack watches start. Every CLI run and cluster read is an input. */
module ZoneMigration {
  import opened Common
  import opened Cluster

  /** The stderr text `ovn-sbctl` prints when SB_Global has no `options:name`. */
  const NoNameKeyStderr: string := "ovn-sbctl: no key \"name\" in SB_Global record"

  /** One run of `ovn-sbctl get SB_Global . options:name`. */
  datatype SbctlRun = SbctlRun(stdout: string, stderr: string, failed: bool, error: string)

  /** The zone named by the southbound database, as read from one CLI run. */
  function GetOVNSBZone(run: SbctlRun): Result<string>
  {
    if run.failed then
      if Contains(run.stderr, NoNameKeyStderr) then Ok(DefaultZone) else Err(run.error)
    else Ok(run.stdout)
  }

  /** A run yields zone `z` exactly when it succeeded printing `z`, or it
      failed only because the name key is missing and `z` is the default zone;
      every other failure is an error. */
  lemma ZoneOfRun(run: SbctlRun, z: string)
    ensures GetOVNSBZone(run) == Ok(z) <==>
              (!run.failed && run.stdout == z)
              || (run.failed && Contains(run.stderr, NoNameKeyStderr) && z == DefaultZone)
    ensures GetOVNSBZone(run).Err? <==> run.failed && !Contains(run.stderr, NoNameKeyStderr)
  {
  }

  /** What a failed poll of the zone wait records as its last error. */
  datatype PollError = FetchFailed(reason: string) | Mismatch(configured: string, observed: string)

  /** One poll: None when the database zone equals the configured one. */
  function ZoneCheck(configured: string, run: SbctlRun): Option<PollError>
  {
    match GetOVNSBZone(run)
    case Err(e) => Some(FetchFailed(e))
    case Ok(z) => if configured != z then Some(Mismatch(configured, z)) else None
  }

  datatype ZoneWait = Matched(zone: string, polls: nat) | TimedOut(lastError: Option<PollError>)

  /** The zone wait as a walk over the observations made before the deadline:
      `last` is the error recorded so far and `done` the polls already made. */
  function AwaitZone(configured: string, obs: seq<SbctlRun>, last: Option<PollError>, done: nat): ZoneWait
    decreases |obs|
  {
    if |obs| == 0 then TimedOut(last)
    else match ZoneCheck(configured, obs[0])
      case None => Matched(configured, done + 1)
      case Some(e) => AwaitZone(configured, obs[1..], Some(e), done + 1)
  }

  ghost predicate IsFirstMatch(configured: string, obs: seq<SbctlRun>, i: int)
  {
    && 0 <= i < |obs|
    && ZoneCheck(configured, obs[i]).None?
    && forall j :: 0 <= j < i ==> ZoneCheck(configured, obs[j]).Some?
  }

  /** The wait succeeds at the first observation equal to the configured zone,
      having made exactly that many polls; otherwise it times out carrying the
      error of the last poll (fetch failure or mismatch alike). */
  lemma {:induction false} AwaitZoneFirstMatch(configured: string, obs: seq<SbctlRun>, last: Option<PollError>, done: nat)
    ensures var w := AwaitZone(configured, obs, last, done);
      && (w.Matched? <==> exists i :: 0 <= i < |obs| && ZoneCheck(configured, obs[i]).None?)
      && (w.Matched? ==> w.zone == configured && w.polls > done && IsFirstMatch(configured, obs, w.polls - done - 1))
      && (w.TimedOut? ==> w.lastError == if |obs| == 0 then last else ZoneCheck(configured, obs[|obs| - 1]))
    decreases |obs|
  {
    if |obs| > 0 && ZoneCheck(configured, obs[0]).Some? {
      var rest := obs[1..];
      AwaitZoneFirstMatch(configured, rest, ZoneCheck(configured, obs[0]), done + 1);
      var w := AwaitZone(configured, rest, ZoneCheck(configured, obs[0]), done + 1);
      if w.Matched? {
        var k := w.polls - done - 2;
        assert IsFirstMatch(configured, rest, k);
        forall j | 0 <= j < k + 1
          ensures ZoneCheck(configured, obs[j]).Some?
        {
          if j > 0 { assert obs[j] == rest[j - 1]; }
        }
      } else {
        forall i | 0 <= i < |obs|
          ensures ZoneCheck(configured, obs[i]).Some?
        {
          if i > 0 { assert obs[i] == rest[i - 1]; }
        }
      }
    }
  }

  /** How the zone step of start-up ends: the zone adopted, or the time-out
      error, which names the configured zone and carries the last poll's
      error. */
  datatype ZoneResolution = Adopted(zone: string) | ZoneWaitTimedOut(configured: string, lastError: Option<PollError>)

  /** The zone the agent adopts at start-up: the configured zone, taken without
      polling in DPU-host mode and otherwise only once the database agrees. */
  function ResolveSbZone(cfg: Config, obs: seq<SbctlRun>): ZoneResolution
  {
    if cfg.mode == NodeModeDPUHost then Adopted(cfg.zone)
    else match AwaitZone(cfg.zone, obs, None, 0)
      case Matched(z, _) => Adopted(z)
      case TimedOut(last) => ZoneWaitTimedOut(cfg.zone, last)
  }

  /** The adopted zone is always the configured zone; outside DPU-host
      mode the step fails exactly when no observation matched, and its error
      names the configured zone and carries the last poll's error. */
  lemma ResolveSbZoneSpec(cfg: Config, obs: seq<SbctlRun>)
    ensures var r := ResolveSbZone(cfg, obs);
      && (r.Adopted? ==> r.zone == cfg.zone)
      && (r.ZoneWaitTimedOut? <==> cfg.mode != NodeModeDPUHost && forall i :: 0 <= i < |obs| ==> ZoneCheck(cfg.zone, obs[i]).Some?)
      && (r.ZoneWaitTimedOut? ==> r.configured == cfg.zone && r.lastError == if |obs| == 0 then None else ZoneCheck(cfg.zone, obs[|obs| - 1]))
  {
    AwaitZoneFirstMatch(cfg.zone, obs, None, 0);
  }

  // ---------------------------------------------------------------------------
  // Gates

  /** Database credentials are set before node set-up (outside DPU-host mode)
      when interconnect is off, the zone is the default one, or the node has
      already migrated. */
  predicate EarlyDBAuth(cfg: Config, sbZone: string, node: Node)
  {
    !cfg.enableInterconnect || sbZone == DefaultZone || node.migratedZone
  }

  /** The upgrade barrier runs once, for a non-DPU-host node moving to a
      non-default interconnect zone that has not migrated yet. */
  predicate EntersBarrier(cfg: Config, sbZone: string, node: Node)
  {
    cfg.mode != NodeModeDPUHost && cfg.enableInterconnect && sbZone != DefaultZone && !node.migratedZone
  }

  /** Namespaces are watched (and the periodic stale-conntrack sweep runs)
      only when interconnect is off or runs as a single default zone. */
  predicate WatchesNamespaces(cfg: Config, sbZone: string)
  {
    cfg.mode != NodeModeDPUHost && (!cfg.enableInterconnect || sbZone == DefaultZone)
  }

  /** Outside DPU-host mode, the barrier is entered exactly when the early
      credential set-up is skipped; a node that watches namespaces never
      runs the barrier. */
  lemma GatesAreComplementary(cfg: Config, sbZone: string, node: Node)
    ensures cfg.mode != NodeModeDPUHost ==> (EntersBarrier(cfg, sbZone, node) <==> !EarlyDBAuth(cfg, sbZone, node))
    ensures WatchesNamespaces(cfg, sbZone) ==> !EntersBarrier(cfg, sbZone, node)
    ensures cfg.mode != NodeModeDPUHost && !WatchesNamespaces(cfg, sbZone) ==>
              EntersBarrier(cfg, sbZone, node) || node.migratedZone
  {
  }

  // ---------------------------------------------------------------------------
  // Upgrade barrier

  /** `lbExists`: the load-balancer names printed by the database mention
      `Service_<namespace>/<name>`. */
  function LbExists(lbNames: string, namespace: string, name: string): bool
  {
    Contains(lbNames, "Service_" + namespace + "/" + name)
  }

  lemma {:induction false} JoinContainsMember(parts: seq<string>, sep: string, k: int)
    requires 0 <= k < |parts|
    ensures Contains(Join(parts, sep), parts[k])
    decreases |parts|
  {
    if |parts| == 1 {
      OccursInContext(parts[0], "", parts[0], "", 0);
    } else if k == 0 {
      assert Join(parts, sep) == "" + parts[0] + (sep + Join(parts[1..], sep));
      OccursInContext(parts[0], "", parts[0], sep + Join(parts[1..], sep), 0);
    } else {
      JoinContainsMember(parts[1..], sep, k - 1);
      var tail := Join(parts[1..], sep);
      var i: nat :| i <= |tail| && OccursAt(parts[k], tail, i);
      assert Join(parts, sep) == (parts[0] + sep) + tail + "";
      OccursInContext(parts[k], parts[0] + sep, tail, "", i);
    }
  }

  /** A load balancer printed among the database's names is found. */
  lemma LbExistsWhenListed(names: seq<string>, sep: string, namespace: string, name: string)
    requires "Service_" + namespace + "/" + name in names
    ensures LbExists(Join(names, sep), namespace, name)
  {
    var k :| 0 <= k < |names| && names[k] == "Service_" + namespace + "/" + name;
    JoinContainsMember(names, sep, k);
  }

  /** The test is a substring match, so a load balancer whose name extends
      the service's key also satisfies it. */
  lemma LbExistsMatchesLongerName()
    ensures LbExists("Service_ns/web-2", "ns", "web")
  {
    assert "Service_" + "ns" + "/" + "web" == "Service_ns/web";
    assert "Service_ns/web-2"[0..14] == "Service_ns/web";
    assert OccursAt("Service_ns/web", "Service_ns/web-2", 0);
  }

  datatype BarrierState = BarrierState(syncNodes: bool, syncServices: bool, syncPods: bool)

  const InitialBarrier: BarrierState := BarrierState(false, false, false)

  /** Services are only marked synced after nodes, pods only after services. */
  predicate Ordered(st: BarrierState)
  {
    (st.syncServices ==> st.syncNodes) && (st.syncPods ==> st.syncServices)
  }

  /** The errors a pass records for the time-out message. */
  datatype BarrierError =
    | NodesListFailed(reason: string)
    | SubnetAnnotationInvalid(node: string, reason: string)
    | LRSRMissing(node: string)
    | ServicesListFailed(reason: string)
    | PodsListFailed(reason: string)

  /** What one pass observes of the cluster and of the southbound database:
      the logical-router static routes present (per node subnet), the load
      balancer names printed, and the port bindings present (per pod). */
  datatype Snapshot = Snapshot(
    nodes: Result<seq<Node>>,
    lrsrs: set<Subnet>,
    services: Result<seq<Service>>,
    lbNames: string,
    pods: Result<seq<Pod>>,
    portBindings: set<(string, string)>
  )

  /** `checkOVNSBNodeLRSR`: a subnet of an enabled address family needs its
      static route; a subnet of a disabled family is not checked. */
  predicate LRSRPresent(cfg: Config, s: Subnet, lrsrs: set<Subnet>)
  {
    if s.isV6 then !cfg.ipv6Mode || s in lrsrs else !cfg.ipv4Mode || s in lrsrs
  }

  /** A node whose routes the barrier waits for: another node, in another
      zone, with a host subnet. */
  predicate RemoteWithSubnet(cfg: Config, self: string, n: Node)
  {
    self != n.name && n.zone != cfg.zone && !n.noHostSubnet
  }

  ghost predicate NodeSynced(cfg: Config, self: string, n: Node, lrsrs: set<Subnet>)
  {
    || !RemoteWithSubnet(cfg, self, n)
    || n.hostSubnets.NotSet?
    || (n.hostSubnets.Subnets? && forall s :: s in n.hostSubnets.subnets ==> LRSRPresent(cfg, s, lrsrs))
  }

  /** The node loop of a pass: None when no node blocks, else the error of
      the first blocking node. */
  function ScanNodes(cfg: Config, self: string, nodes: seq<Node>, lrsrs: set<Subnet>): Option<BarrierError>
    decreases |nodes|
  {
    if |nodes| == 0 then None
    else
      var n := nodes[0];
      if !RemoteWithSubnet(cfg, self, n) then ScanNodes(cfg, self, nodes[1..], lrsrs)
      else match n.hostSubnets
        case NotSet => ScanNodes(cfg, self, nodes[1..], lrsrs)
        case Malformed(why) => Some(SubnetAnnotationInvalid(n.name, why))
        case Subnets(ss) =>
          if forall s | s in ss :: LRSRPresent(cfg, s, lrsrs) then ScanNodes(cfg, self, nodes[1..], lrsrs)
          else Some(LRSRMissing(n.name))
  }

  predicate BlamesNode(e: BarrierError, name: string)
  {
    (e.SubnetAnnotationInvalid? || e.LRSRMissing?) && e.node == name
  }

  /** The node loop passes exactly when every node is synced, and a blocking
      error names the first node that is not. */
  lemma {:induction false} ScanNodesSpec(cfg: Config, self: string, nodes: seq<Node>, lrsrs: set<Subnet>)
    ensures ScanNodes(cfg, self, nodes, lrsrs).None? <==>
              forall i :: 0 <= i < |nodes| ==> NodeSynced(cfg, self, nodes[i], lrsrs)
    ensures ScanNodes(cfg, self, nodes, lrsrs).Some? ==>
              exists i :: 0 <= i < |nodes| && !NodeSynced(cfg, self, nodes[i], lrsrs)
                && BlamesNode(ScanNodes(cfg, self, nodes, lrsrs).value, nodes[i].name)
                && forall j :: 0 <= j < i ==> NodeSynced(cfg, self, nodes[j], lrsrs)
    decreases |nodes|
  {
    if |nodes| > 0 {
      var rest := nodes[1..];
      ScanNodesSpec(cfg, self, rest, lrsrs);
      forall i | 0 < i < |nodes| ensures nodes[i] == rest[i - 1] { }
      if NodeSynced(cfg, self, nodes[0], lrsrs) {
        if ScanNodes(cfg, self, rest, lrsrs).Some? {
          var i :| 0 <= i < |rest| && !NodeSynced(cfg, self, rest[i], lrsrs)
            && BlamesNode(ScanNodes(cfg, self, rest, lrsrs).value, rest[i].name)
            && forall j :: 0 <= j < i ==> NodeSynced(cfg, self, rest[j], lrsrs);
          assert !NodeSynced(cfg, self, nodes[i + 1], lrsrs);
        }
      } else {
        assert !NodeSynced(cfg, self, nodes[0], lrsrs);
      }
    }
  }

  /** Headless services (no cluster IP) have no load balancer to wait for. */
  predicate Headless(s: Service)
  {
    !s.typeHasClusterIP || !s.clusterIPSet
  }

  predicate ServicesSynced(services: seq<Service>, lbNames: string)
  {
    forall s | s in services :: Headless(s) || LbExists(lbNames, s.namespace, s.name)
  }

  /** Only scheduled, running, pod-network pods of this node need a port binding. */
  predicate NeedsPortBinding(self: string, p: Pod)
  {
    p.scheduled && !p.completed && !p.hostNetwork && p.nodeName == self
  }

  predicate PodsSynced(self: string, pods: seq<Pod>, bindings: set<(string, string)>)
  {
    forall p | p in pods :: NeedsPortBinding(self, p) ==> (p.namespace, p.name) in bindings
  }

  datatype PassOutcome = PassOutcome(state: BarrierState, done: bool, lastError: Option<BarrierError>)

  ghost predicate NodesReadyIn(cfg: Config, self: string, snap: Snapshot)
  {
    snap.nodes.Ok? && forall i :: 0 <= i < |snap.nodes.value| ==> NodeSynced(cfg, self, snap.nodes.value[i], snap.lrsrs)
  }

  predicate ServicesReadyIn(snap: Snapshot)
  {
    snap.services.Ok? && ServicesSynced(snap.services.value, snap.lbNames)
  }

  predicate PodsReadyIn(self: string, snap: Snapshot)
  {
    snap.pods.Ok? && PodsSynced(self, snap.pods.value, snap.portBindings)
  }

  /** One polling pass of the barrier. A predicate already found true is not
      evaluated again; services are evaluated only once nodes are synced and
      pods only once services are. */
  function BarrierPass(cfg: Config, self: string, st: BarrierState, snap: Snapshot, last: Option<BarrierError>): (o: PassOutcome)
    ensures st.syncNodes ==> o.state.syncNodes
    ensures st.syncServices ==> o.state.syncServices
    ensures st.syncPods ==> o.state.syncPods
    ensures Ordered(st) ==> Ordered(o.state)
    ensures o.done <==> o.state.syncNodes && o.state.syncServices && o.state.syncPods
    ensures !st.syncNodes && o.state.syncNodes ==> NodesReadyIn(cfg, self, snap)
    ensures !st.syncServices && o.state.syncServices ==> o.state.syncNodes && ServicesReadyIn(snap)
    ensures !st.syncPods && o.state.syncPods ==> o.state.syncServices && PodsReadyIn(self, snap)
    ensures !st.syncNodes && NodesReadyIn(cfg, self, snap) ==> o.state.syncNodes
    ensures o.state.syncNodes && ServicesReadyIn(snap) ==> o.state.syncServices
    ensures Ordered(st) && o.state.syncServices && PodsReadyIn(self, snap) ==> o.state.syncPods
  {
    ScanNodesSpec(cfg, self, if snap.nodes.Ok? then snap.nodes.value else [], snap.lrsrs);
    if !st.syncNodes then
      match snap.nodes
      case Err(e) => PassOutcome(st, false, Some(NodesListFailed(e)))
      case Ok(ns) =>
        match ScanNodes(cfg, self, ns, snap.lrsrs)
        case Some(e) => PassOutcome(st, false, Some(e))
        case None => ServicesPass(self, st.(syncNodes := true), snap, last)
    else ServicesPass(self, st, snap, last)
  }

  function ServicesPass(self: string, st: BarrierState, snap: Snapshot, last: Option<BarrierError>): PassOutcome
    requires st.syncNodes
  {
    if !st.syncServices then
      match snap.services
      case Err(e) => PassOutcome(st, false, Some(ServicesListFailed(e)))
      case Ok(svcs) =>
        if !ServicesSynced(svcs, snap.lbNames) then PassOutcome(st, false, last)
        else PodsPass(self, st.(syncServices := true), snap, last)
    else PodsPass(self, st, snap, last)
  }

  function PodsPass(self: string, st: BarrierState, snap: Snapshot, last: Option<BarrierError>): PassOutcome
    requires st.syncNodes && st.syncServices
  {
    if !st.syncPods then
      match snap.pods
      case Err(e) => PassOutcome(st, false, Some(PodsListFailed(e)))
      case Ok(ps) =>
        if !PodsSynced(self, ps, snap.portBindings) then PassOutcome(st, false, last)
        else PassOutcome(st.(syncPods := true), true, last)
    else PassOutcome(st, true, last)
  }

  /** Once nodes are synced, a pass does not look at the node list or the
      static routes again. */
  lemma NodesNotReevaluated(cfg: Config, self: string, st: BarrierState, snap: Snapshot, last: Option<BarrierError>,
                            otherNodes: Result<seq<Node>>, otherLrsrs: set<Subnet>)
    requires st.syncNodes
    ensures BarrierPass(cfg, self, st, snap, last) == BarrierPass(cfg, self, st, snap.(nodes := otherNodes, lrsrs := otherLrsrs), last)
  {
  }

  datatype BarrierRun = Synced(passes: nat) | BarrierTimedOut(state: BarrierState, lastError: Option<BarrierError>)

  /** The barrier's poll loop over the passes made before its deadline. */
  function RunBarrier(cfg: Config, self: string, st: BarrierState, snaps: seq<Snapshot>, last: Option<BarrierError>): (r: BarrierRun)
    decreases |snaps|
  {
    if |snaps| == 0 then BarrierTimedOut(st, last)
    else
      var o := BarrierPass(cfg, self, st, snaps[0], last);
      if o.done then Synced(1)
      else match RunBarrier(cfg, self, o.state, snaps[1..], o.lastError)
        case Synced(k) => Synced(k + 1)
        case t => t
  }

  /** A barrier that completes has seen, within the passes it used, one
      pass where the nodes were ready, one where the services were and one
      where the pods were (the ones not already synced on entry); one that
      times out never regresses a synced predicate. */
  lemma {:induction false} RunBarrierSound(cfg: Config, self: string, st: BarrierState, snaps: seq<Snapshot>, last: Option<BarrierError>)
    requires Ordered(st)
    ensures var r := RunBarrier(cfg, self, st, snaps, last);
      && (r.Synced? ==>
            && 1 <= r.passes <= |snaps|
            && (st.syncNodes || exists i :: 0 <= i < r.passes && NodesReadyIn(cfg, self, snaps[i]))
            && (st.syncServices || exists i :: 0 <= i < r.passes && ServicesReadyIn(snaps[i]))
            && (st.syncPods || exists i :: 0 <= i < r.passes && PodsReadyIn(self, snaps[i])))
      && (r.BarrierTimedOut? ==>
            && Ordered(r.state)
            && (st.syncNodes ==> r.state.syncNodes)
            && (st.syncServices ==> r.state.syncServices)
            && (st.syncPods ==> r.state.syncPods)
            && (|snaps| > 0 ==> !(r.state.syncNodes && r.state.syncServices && r.state.syncPods)))
    decreases |snaps|
  {
    if |snaps| > 0 {
      var o := BarrierPass(cfg, self, st, snaps[0], last);
      if !o.done {
        var rest := snaps[1..];
        RunBarrierSound(cfg, self, o.state, rest, o.lastError);
        var r := RunBarrier(cfg, self, o.state, rest, o.lastError);
        if r.Synced? {
          if !st.syncNodes {
            if o.state.syncNodes {
              assert NodesReadyIn(cfg, self, snaps[0]);
            } else {
              var i :| 0 <= i < r.passes && NodesReadyIn(cfg, self, rest[i]);
              assert snaps[i + 1] == rest[i];
            }
          }
          if !st.syncServices {
            if o.state.syncServices {
              assert ServicesReadyIn(snaps[0]);
            } else {
              var i :| 0 <= i < r.passes && ServicesReadyIn(rest[i]);
              assert snaps[i + 1] == rest[i];
            }
          }
          if !st.syncPods {
            var i :| 0 <= i < r.passes && PodsReadyIn(self, rest[i]);
            assert snaps[i + 1] == rest[i];
          }
        }
      }
    }
  }

  /** The barrier completes, within the passes it is given, at the latest
      on the first pass that finds nodes, services and pods all ready. */
  lemma {:induction false} RunBarrierComplete(cfg: Config, self: string, st: BarrierState, snaps: seq<Snapshot>, last: Option<BarrierError>, k: nat)
    requires k < |snaps|
    requires NodesReadyIn(cfg, self, snaps[k]) && ServicesReadyIn(snaps[k]) && PodsReadyIn(self, snaps[k])
    ensures RunBarrier(cfg, self, st, snaps, last).Synced?
    ensures RunBarrier(cfg, self, st, snaps, last).passes <= k + 1
    decreases k
  {
    var o := BarrierPass(cfg, self, st, snaps[0], last);
    if k > 0 && !o.done {
      assert snaps[1..][k - 1] == snaps[k];
      RunBarrierComplete(cfg, self, o.state, snaps[1..], o.lastError, k - 1);
    }
  }

  // ---------------------------------------------------------------------------
  // Start-up sequence (the zone-related steps of `Start`)

  datatype Step =
    | SetDBAuth                      // point the OVN database credentials at this zone
    | SetupOVNNode                   // write the OVS external ids
    | SetZoneAnnotation(zone: string)
    | SetZoneMigrated(zone: string)  // the remote-zone-migrated marker
    | WatchNamespaces
    | StartConntrackSweep
    | WatchEndpointSlices

  /** How `Start` ends: it returns nil, returns the zone time-out or another
      step's error, or the process is terminated (`klog.Exitf`, which for
      the barrier's time-out also reports the barrier's last error). */
  datatype StartEnd =
    | Completed
    | ZoneTimeout(zone: string, lastError: Option<PollError>)
    | Failed(reason: string)
    | Exited(reason: string, barrierError: Option<BarrierError>)

  /** The actions that took effect, in order, and how start-up ended. */
  datatype StartupRun = StartupRun(steps: seq<Step>, end: StartEnd)

  const Done: StartupRun := StartupRun([], Completed)

  /** Sequencing: `b` runs only when `a` completed. */
  function Then(a: StartupRun, b: StartupRun): StartupRun
  {
    if a.end.Completed? then StartupRun(a.steps + b.steps, b.end) else a
  }

  /** A step whose error `Start` returns. */
  function Act(s: Step, err: Option<string>): StartupRun
  {
    if err.None? then StartupRun([s], Completed) else StartupRun([], Failed(err.value))
  }

  /** A step whose error terminates the process. */
  function ActOrExit(s: Step, err: Option<string>): StartupRun
  {
    if err.None? then StartupRun([s], Completed) else StartupRun([], Exited(err.value, None))
  }

  /** A step this model does not detail, seen only through the error it may return. */
  function Guard(err: Option<string>): StartupRun
  {
    if err.None? then Done else StartupRun([], Failed(err.value))
  }

  /** What `Start` observes besides the barrier's passes: the node read at
      its beginning, the zone polls, the node reads of the logical-switch
      wait, and the error, if any, that each step returns. */
  datatype StartupInputs = StartupInputs(
    firstRead: Result<Node>,              // the node, or the error of reading it or its primary IP
    zonePolls: seq<SbctlRun>,
    dbAuthError: Option<string>,          // the credential switch before OVS set-up
    setupError: Option<string>,           // `setupOVNNode`
    switchReads: seq<Result<Node>>,       // the node reads of the logical-switch wait
    preAnnotationError: Option<string>,   // CNI server, device resources, management ports, gateway
    zoneAnnotationError: Option<string>,  // `SetNodeZone` and the annotator run
    encapPortError: Option<string>,       // `setEncapPort`, when the port is not the default
    barrierPasses: seq<Snapshot>,
    migratedMarkerError: Option<string>,  // `SetNodeZoneMigrated` and the annotator run
    lateDBAuthError: Option<string>,      // the credential switch after the barrier
    preWatchError: Option<string>,        // gateway readiness wait, topology version, hybrid overlay, health checks
    watchNamespacesError: Option<string>,
    watchSlicesError: Option<string>,
    postWatchError: Option<string>        // DPU pod watch or DPU-host readiness wait, CNI server and config,
                                          // egress service, external-route and egress IP controllers, DPU ready mark
  )

  /** The logical-switch wait: the first node read whose host-subnet
      annotation parses, or None when the wait times out. */
  function AwaitSwitch(nodeReads: seq<Result<Node>>): Option<Node>
    decreases |nodeReads|
  {
    if |nodeReads| == 0 then None
    else if nodeReads[0].Ok? && nodeReads[0].value.hostSubnets.Subnets? then Some(nodeReads[0].value)
    else AwaitSwitch(nodeReads[1..])
  }

  predicate SwitchReady(read: Result<Node>)
  {
    read.Ok? && read.value.hostSubnets.Subnets?
  }

  /** The wait yields a node exactly when some read succeeded with parsed
      subnets, and then it is the first such read. */
  lemma {:induction false} AwaitSwitchFirst(nodeReads: seq<Result<Node>>)
    ensures AwaitSwitch(nodeReads).Some? <==> exists i :: 0 <= i < |nodeReads| && SwitchReady(nodeReads[i])
    ensures AwaitSwitch(nodeReads).Some? ==>
              exists i :: && 0 <= i < |nodeReads| && SwitchReady(nodeReads[i])
                          && AwaitSwitch(nodeReads).value == nodeReads[i].value
                          && forall j :: 0 <= j < i ==> !SwitchReady(nodeReads[j])
    decreases |nodeReads|
  {
    if |nodeReads| > 0 && !SwitchReady(nodeReads[0]) {
      var rest := nodeReads[1..];
      AwaitSwitchFirst(rest);
      forall i | 0 < i < |nodeReads| ensures nodeReads[i] == rest[i - 1] { }
      if AwaitSwitch(rest).Some? {
        var i :| 0 <= i < |rest| && SwitchReady(rest[i]) && AwaitSwitch(rest).value == rest[i].value
                 && forall j :: 0 <= j < i ==> !SwitchReady(rest[j]);
        assert SwitchReady(nodeReads[i + 1]);
      }
    }
  }

  const SwitchTimeoutReason: string := "timed out waiting for the node's logical switch"
  const BarrierTimeoutReason: string := "timed out waiting for the remote ovnkube-controller to be ready"

  /** Outside DPU-host mode: the credential switch when the early gate
      holds for the node read at the start, then the OVS set-up. */
  function EarlyStage(cfg: Config, sbZone: string, first: Node, inp: StartupInputs): StartupRun
  {
    if cfg.mode == NodeModeDPUHost then Done
    else Then(if EarlyDBAuth(cfg, sbZone, first) then Act(SetDBAuth, inp.dbAuthError) else Done,
              Act(SetupOVNNode, inp.setupError))
  }

  /** The steps this model does not detail, the zone annotation and, outside
      DPU-host mode, the encapsulation port. */
  function AnnotationStage(cfg: Config, sbZone: string, inp: StartupInputs): StartupRun
  {
    Then(Guard(inp.preAnnotationError),
         Then(Act(SetZoneAnnotation(sbZone), inp.zoneAnnotationError),
              Guard(if cfg.mode != NodeModeDPUHost then inp.encapPortError else None)))
  }

  /** The barrier, gated on the node read by the logical-switch wait: its
      time-out, or a failure to write the marker or to switch the
      credentials, terminates the process. */
  function BarrierStage(cfg: Config, nodeName: string, sbZone: string, node: Node, inp: StartupInputs): StartupRun
  {
    if !EntersBarrier(cfg, sbZone, node) then Done
    else if RunBarrier(cfg, nodeName, InitialBarrier, inp.barrierPasses, None).BarrierTimedOut? then
      StartupRun([], Exited(BarrierTimeoutReason, RunBarrier(cfg, nodeName, InitialBarrier, inp.barrierPasses, None).lastError))
    else Then(ActOrExit(SetZoneMigrated(sbZone), inp.migratedMarkerError), ActOrExit(SetDBAuth, inp.lateDBAuthError))
  }

  /** The steps before the watches, the conntrack watches, then the steps
      after them up to `Start`'s return. */
  function WatchStage(cfg: Config, sbZone: string, inp: StartupInputs): StartupRun
  {
    Then(Guard(inp.preWatchError),
         Then(if cfg.mode == NodeModeDPUHost then Done
              else Then(if WatchesNamespaces(cfg, sbZone)
                        then Then(Act(WatchNamespaces, inp.watchNamespacesError), StartupRun([StartConntrackSweep], Completed))
                        else Done,
                        Act(WatchEndpointSlices, inp.watchSlicesError)),
              Guard(inp.postWatchError)))
  }

  /** Everything from the logical-switch wait on; the node it reads is the
      one the barrier's gate looks at. */
  function LaterStages(cfg: Config, nodeName: string, sbZone: string, inp: StartupInputs): StartupRun
  {
    match AwaitSwitch(inp.switchReads)
    case None => StartupRun([], Failed(SwitchTimeoutReason))
    case Some(node) =>
      Then(AnnotationStage(cfg, sbZone, inp), Then(BarrierStage(cfg, nodeName, sbZone, node, inp), WatchStage(cfg, sbZone, inp)))
  }

  /** The zone-related actions of `Start`, in order, and how it ends. */
  function StartupSteps(cfg: Config, nodeName: string, inp: StartupInputs): (r: StartupRun)
    ensures inp.firstRead.Err? ==> r == StartupRun([], Failed(inp.firstRead.msg))
    ensures r.end.ZoneTimeout? <==>
              inp.firstRead.Ok? && cfg.mode != NodeModeDPUHost
              && forall i :: 0 <= i < |inp.zonePolls| ==> ZoneCheck(cfg.zone, inp.zonePolls[i]).Some?
    ensures r.end.ZoneTimeout? ==>
              && r.steps == [] && r.end.zone == cfg.zone
              && r.end.lastError == if |inp.zonePolls| == 0 then None else ZoneCheck(cfg.zone, inp.zonePolls[|inp.zonePolls| - 1])
    ensures r.end.Exited? ==>
              inp.firstRead.Ok? && AwaitSwitch(inp.switchReads).Some?
              && EntersBarrier(cfg, cfg.zone, AwaitSwitch(inp.switchReads).value)
  {
    ResolveSbZoneSpec(cfg, inp.zonePolls);
    match inp.firstRead
    case Err(e) => StartupRun([], Failed(e))
    case Ok(first) =>
      match ResolveSbZone(cfg, inp.zonePolls)
      case ZoneWaitTimedOut(z, last) => StartupRun([], ZoneTimeout(z, last))
      case Adopted(sbZone) => Then(EarlyStage(cfg, sbZone, first, inp), LaterStages(cfg, nodeName, sbZone, inp))
  }

  /** Every step on the path a start-up takes, and the waits, succeeded. */
  predicate StepsSucceed(cfg: Config, nodeName: string, inp: StartupInputs)
  {
    && inp.firstRead.Ok?
    && ResolveSbZone(cfg, inp.zonePolls).Adopted?
    && (cfg.mode != NodeModeDPUHost ==>
          && (EarlyDBAuth(cfg, cfg.zone, inp.firstRead.value) ==> inp.dbAuthError.None?)
          && inp.setupError.None?)
    && AwaitSwitch(inp.switchReads).Some?
    && inp.preAnnotationError.None? && inp.zoneAnnotationError.None?
    && (cfg.mode != NodeModeDPUHost ==> inp.encapPortError.None?)
    && (EntersBarrier(cfg, cfg.zone, AwaitSwitch(inp.switchReads).value) ==>
          && RunBarrier(cfg, nodeName, InitialBarrier, inp.barrierPasses, None).Synced?
          && inp.migratedMarkerError.None? && inp.lateDBAuthError.None?)
    && inp.preWatchError.None?
    && (WatchesNamespaces(cfg, cfg.zone) ==> inp.watchNamespacesError.None?)
    && (cfg.mode != NodeModeDPUHost ==> inp.watchSlicesError.None?)
    && inp.postWatchError.None?
  }

  /** A start-up completes exactly when every step on its path succeeds;
      once the early steps are done, a logical-switch wait that never sees
      the subnets ends it with the time-out error and nothing more done. */
  lemma {:induction false} StartupCompletes(cfg: Config, nodeName: string, inp: StartupInputs)
    ensures StartupSteps(cfg, nodeName, inp).end.Completed? <==> StepsSucceed(cfg, nodeName, inp)
    ensures inp.firstRead.Ok? && ResolveSbZone(cfg, inp.zonePolls).Adopted?
            && EarlyStage(cfg, cfg.zone, inp.firstRead.value, inp).end.Completed?
            && AwaitSwitch(inp.switchReads).None? ==>
              StartupSteps(cfg, nodeName, inp)
              == StartupRun(EarlyStage(cfg, cfg.zone, inp.firstRead.value, inp).steps, Failed(SwitchTimeoutReason))
  {
    ResolveSbZoneSpec(cfg, inp.zonePolls);
    if inp.firstRead.Ok? && ResolveSbZone(cfg, inp.zonePolls).Adopted? {
      var first := inp.firstRead.value;
      var e := EarlyStage(cfg, cfg.zone, first, inp);
      var later := LaterStages(cfg, nodeName, cfg.zone, inp);
      assert StartupSteps(cfg, nodeName, inp) == Then(e, later);
      assert e.end.Completed? <==>
        (cfg.mode != NodeModeDPUHost ==> (EarlyDBAuth(cfg, cfg.zone, first) ==> inp.dbAuthError.None?) && inp.setupError.None?);
      if AwaitSwitch(inp.switchReads).Some? {
        var node := AwaitSwitch(inp.switchReads).value;
        var a := AnnotationStage(cfg, cfg.zone, inp);
        var b := BarrierStage(cfg, nodeName, cfg.zone, node, inp);
        var w := WatchStage(cfg, cfg.zone, inp);
        assert later == Then(a, Then(b, w));
        assert a.end.Completed? <==>
          inp.preAnnotationError.None? && inp.zoneAnnotationError.None? && (cfg.mode != NodeModeDPUHost ==> inp.encapPortError.None?);
        assert b.end.Completed? <==>
          (EntersBarrier(cfg, cfg.zone, node) ==>
             RunBarrier(cfg, nodeName, InitialBarrier, inp.barrierPasses, None).Synced?
             && inp.migratedMarkerError.None? && inp.lateDBAuthError.None?);
        assert w.end.Completed? <==>
          inp.preWatchError.None?
          && (WatchesNamespaces(cfg, cfg.zone) ==> inp.watchNamespacesError.None?)
          && (cfg.mode != NodeModeDPUHost ==> inp.watchSlicesError.None?)
          && inp.postWatchError.None?;
      }
    }
  }

  function CountSteps(steps: seq<Step>, s: Step): nat
  {
    multiset(steps)[s]
  }

  lemma CountThen(a: StartupRun, b: StartupRun, x: Step)
    ensures CountSteps(Then(a, b).steps, x) == CountSteps(a.steps, x) + (if a.end.Completed? then CountSteps(b.steps, x) else 0)
  {
    if a.end.Completed? {
      assert multiset(a.steps + b.steps) == multiset(a.steps) + multiset(b.steps);
    }
  }

  /** The early stage switches the credentials at most once, only when its
      gate holds, and exactly then when it completes. */
  lemma EarlyStageDBAuth(cfg: Config, sbZone: string, first: Node, inp: StartupInputs)
    ensures var e := EarlyStage(cfg, sbZone, first, inp);
      && CountSteps(e.steps, SetDBAuth) <= 1
      && (CountSteps(e.steps, SetDBAuth) == 1 ==> cfg.mode != NodeModeDPUHost && EarlyDBAuth(cfg, sbZone, first))
      && (e.end.Completed? ==>
            CountSteps(e.steps, SetDBAuth) == if cfg.mode != NodeModeDPUHost && EarlyDBAuth(cfg, sbZone, first) then 1 else 0)
  {
    var auth := if EarlyDBAuth(cfg, sbZone, first) then Act(SetDBAuth, inp.dbAuthError) else Done;
    CountThen(auth, Act(SetupOVNNode, inp.setupError), SetDBAuth);
  }

  /** The barrier stage switches the credentials at most once, only when
      the barrier is entered, and exactly then when it completes. */
  lemma BarrierStageDBAuth(cfg: Config, nodeName: string, sbZone: string, node: Node, inp: StartupInputs)
    ensures var b := BarrierStage(cfg, nodeName, sbZone, node, inp);
      && CountSteps(b.steps, SetDBAuth) <= 1
      && (CountSteps(b.steps, SetDBAuth) == 1 ==> EntersBarrier(cfg, sbZone, node))
      && (b.end.Completed? ==> CountSteps(b.steps, SetDBAuth) == if EntersBarrier(cfg, sbZone, node) then 1 else 0)
  {
    CountThen(ActOrExit(SetZoneMigrated(sbZone), inp.migratedMarkerError), ActOrExit(SetDBAuth, inp.lateDBAuthError), SetDBAuth);
  }

  /** The stages after the early one, other than the barrier, never switch
      the credentials. */
  lemma OtherStagesNoDBAuth(cfg: Config, sbZone: string, inp: StartupInputs)
    ensures SetDBAuth !in AnnotationStage(cfg, sbZone, inp).steps
    ensures SetDBAuth !in WatchStage(cfg, sbZone, inp).steps
  {
  }

  /** The credential switches of the stages after the early one. */
  lemma LaterStagesDBAuth(cfg: Config, nodeName: string, sbZone: string, inp: StartupInputs)
    ensures var l := LaterStages(cfg, nodeName, sbZone, inp);
      && (AwaitSwitch(inp.switchReads).None? ==> CountSteps(l.steps, SetDBAuth) == 0)
      && (AwaitSwitch(inp.switchReads).Some? ==>
            var node := AwaitSwitch(inp.switchReads).value;
            && CountSteps(l.steps, SetDBAuth) <= 1
            && (CountSteps(l.steps, SetDBAuth) == 1 ==> EntersBarrier(cfg, sbZone, node))
            && (l.end.Completed? ==> CountSteps(l.steps, SetDBAuth) == if EntersBarrier(cfg, sbZone, node) then 1 else 0))
  {
    if AwaitSwitch(inp.switchReads).Some? {
      var node := AwaitSwitch(inp.switchReads).value;
      var a := AnnotationStage(cfg, sbZone, inp);
      var b := BarrierStage(cfg, nodeName, sbZone, node, inp);
      var w := WatchStage(cfg, sbZone, inp);
      OtherStagesNoDBAuth(cfg, sbZone, inp);
      BarrierStageDBAuth(cfg, nodeName, sbZone, node, inp);
      CountThen(b, w, SetDBAuth);
      CountThen(a, Then(b, w), SetDBAuth);
    }
  }

  /** Whether the remote-zone-migrated marker reads the same at the start
      and in the logical-switch wait. */
  predicate MarkerStable(inp: StartupInputs)
  {
    inp.firstRead.Ok? && AwaitSwitch(inp.switchReads).Some? ==>
      inp.firstRead.value.migratedZone == AwaitSwitch(inp.switchReads).value.migratedZone
  }

  /** The credentials are switched by the early gate, judged on the node
      read at the start, and by the barrier, judged on the node read by the
      logical-switch wait: a completed start-up switches them once per gate
      that held, and no start-up switches them more than twice. */
  lemma {:induction false} StartupDBAuthCount(cfg: Config, nodeName: string, inp: StartupInputs)
    ensures var r := StartupSteps(cfg, nodeName, inp);
      && CountSteps(r.steps, SetDBAuth) <= 2
      && (r.end.Completed? ==>
            && inp.firstRead.Ok? && AwaitSwitch(inp.switchReads).Some?
            && CountSteps(r.steps, SetDBAuth)
               == (if cfg.mode != NodeModeDPUHost && EarlyDBAuth(cfg, cfg.zone, inp.firstRead.value) then 1 else 0)
                  + (if EntersBarrier(cfg, cfg.zone, AwaitSwitch(inp.switchReads).value) then 1 else 0))
      && (CountSteps(r.steps, SetDBAuth) == 2 ==>
            && inp.firstRead.Ok? && AwaitSwitch(inp.switchReads).Some?
            && EarlyDBAuth(cfg, cfg.zone, inp.firstRead.value)
            && EntersBarrier(cfg, cfg.zone, AwaitSwitch(inp.switchReads).value))
      && (CountSteps(r.steps, SetDBAuth) >= 1 ==>
            && inp.firstRead.Ok?
            && ((cfg.mode != NodeModeDPUHost && EarlyDBAuth(cfg, cfg.zone, inp.firstRead.value))
                || (AwaitSwitch(inp.switchReads).Some? && EntersBarrier(cfg, cfg.zone, AwaitSwitch(inp.switchReads).value))))
  {
    var r := StartupSteps(cfg, nodeName, inp);
    ResolveSbZoneSpec(cfg, inp.zonePolls);
    if inp.firstRead.Ok? && ResolveSbZone(cfg, inp.zonePolls).Adopted? {
      var e := EarlyStage(cfg, cfg.zone, inp.firstRead.value, inp);
      var later := LaterStages(cfg, nodeName, cfg.zone, inp);
      assert r == Then(e, later);
      CountThen(e, later, SetDBAuth);
      EarlyStageDBAuth(cfg, cfg.zone, inp.firstRead.value, inp);
      LaterStagesDBAuth(cfg, nodeName, cfg.zone, inp);
    }
  }

  /** The database credentials are never switched on a DPU host, at most
      once when the marker reads the same at both node reads, and exactly
      once on such a start-up outside DPU-host mode that completes. */
  lemma {:induction false} StartupSetsDBAuthOnce(cfg: Config, nodeName: string, inp: StartupInputs)
    ensures var r := StartupSteps(cfg, nodeName, inp);
      && (cfg.mode == NodeModeDPUHost ==> CountSteps(r.steps, SetDBAuth) == 0)
      && (MarkerStable(inp) ==> CountSteps(r.steps, SetDBAuth) <= 1)
      && (MarkerStable(inp) && r.end.Completed? && cfg.mode != NodeModeDPUHost ==> CountSteps(r.steps, SetDBAuth) == 1)
  {
    StartupDBAuthCount(cfg, nodeName, inp);
    if inp.firstRead.Ok? && AwaitSwitch(inp.switchReads).Some? && MarkerStable(inp) {
      var first := inp.firstRead.value;
      var second := AwaitSwitch(inp.switchReads).value;
      GatesAreComplementary(cfg, cfg.zone, second);
      assert EarlyDBAuth(cfg, cfg.zone, first) == EarlyDBAuth(cfg, cfg.zone, second);
    }
  }

  /** When the marker changes between the two node reads of a completed
      interconnect start-up, the credentials are switched twice (it
      vanished) or never (it appeared). */
  lemma MarkerChangeBetweenReads(cfg: Config, nodeName: string, inp: StartupInputs)
    requires cfg.mode != NodeModeDPUHost && cfg.enableInterconnect && cfg.zone != DefaultZone
    requires StartupSteps(cfg, nodeName, inp).end.Completed?
    ensures inp.firstRead.Ok? && AwaitSwitch(inp.switchReads).Some?
    ensures inp.firstRead.value.migratedZone && !AwaitSwitch(inp.switchReads).value.migratedZone ==>
              CountSteps(StartupSteps(cfg, nodeName, inp).steps, SetDBAuth) == 2
    ensures !inp.firstRead.value.migratedZone && AwaitSwitch(inp.switchReads).value.migratedZone ==>
              CountSteps(StartupSteps(cfg, nodeName, inp).steps, SetDBAuth) == 0
  {
    StartupDBAuthCount(cfg, nodeName, inp);
  }

  predicate NoMarker(steps: seq<Step>)
  {
    forall k :: 0 <= k < |steps| ==> !steps[k].SetZoneMigrated?
  }

  /** The early stage only switches credentials and sets up OVS. */
  lemma EarlyShape(cfg: Config, sbZone: string, first: Node, inp: StartupInputs)
    ensures var e := EarlyStage(cfg, sbZone, first, inp);
      && NoMarker(e.steps) && !e.end.Exited?
      && (cfg.mode == NodeModeDPUHost ==> e == Done)
      && (!EarlyDBAuth(cfg, sbZone, first) ==> SetDBAuth !in e.steps)
  {
    var auth := if EarlyDBAuth(cfg, sbZone, first) then Act(SetDBAuth, inp.dbAuthError) else Done;
    assert auth.steps == [] || auth.steps == [SetDBAuth];
  }

  /** The annotation stage writes the zone annotation and nothing else. */
  lemma AnnotationShape(cfg: Config, sbZone: string, inp: StartupInputs)
    ensures var a := AnnotationStage(cfg, sbZone, inp);
      && !a.end.Exited?
      && (a.end.Completed? ==> a.steps == [SetZoneAnnotation(sbZone)])
      && (!a.end.Completed? ==> a.steps == [] || a.steps == [SetZoneAnnotation(sbZone)])
  {
  }

  /** The barrier stage writes the marker and then switches the
      credentials, and terminates the process when either fails; its
      time-out terminates it with the barrier's last error. */
  lemma BarrierShape(cfg: Config, nodeName: string, sbZone: string, node: Node, inp: StartupInputs)
    ensures var b := BarrierStage(cfg, nodeName, sbZone, node, inp);
      && (b.end.Completed? || b.end.Exited?)
      && (!EntersBarrier(cfg, sbZone, node) ==> b == Done)
      && (b.steps == [] || b.steps == [SetZoneMigrated(sbZone)] || b.steps == [SetZoneMigrated(sbZone), SetDBAuth])
      && (b.steps == [SetZoneMigrated(sbZone)] ==> b.end.Exited?)
      && (|b.steps| > 0 ==> EntersBarrier(cfg, sbZone, node))
    ensures var b := BarrierStage(cfg, nodeName, sbZone, node, inp);
      var run := RunBarrier(cfg, nodeName, InitialBarrier, inp.barrierPasses, None);
      && (EntersBarrier(cfg, sbZone, node) && run.BarrierTimedOut? ==>
            b == StartupRun([], Exited(BarrierTimeoutReason, run.lastError)))
      && (b.end.Exited? && b.end.barrierError.Some? ==> EntersBarrier(cfg, sbZone, node) && run.BarrierTimedOut?)
  {
  }

  /** The watch stage only starts watches. */
  lemma WatchShape(cfg: Config, sbZone: string, inp: StartupInputs)
    ensures var w := WatchStage(cfg, sbZone, inp);
      && NoMarker(w.steps) && !w.end.Exited?
      && SetupOVNNode !in w.steps && SetDBAuth !in w.steps
      && (w.end.Completed? && cfg.mode != NodeModeDPUHost ==> WatchEndpointSlices in w.steps)
  {
  }

  /** What each stage can do; only the barrier stage terminates. */
  lemma StageShapes(cfg: Config, nodeName: string, sbZone: string, first: Node, node: Node, inp: StartupInputs)
    ensures var e := EarlyStage(cfg, sbZone, first, inp);
      && NoMarker(e.steps) && !e.end.Exited?
      && (cfg.mode == NodeModeDPUHost ==> e == Done)
      && (!EarlyDBAuth(cfg, sbZone, first) ==> SetDBAuth !in e.steps)
    ensures var a := AnnotationStage(cfg, sbZone, inp);
      && !a.end.Exited?
      && (a.end.Completed? ==> a.steps == [SetZoneAnnotation(sbZone)])
      && (!a.end.Completed? ==> a.steps == [] || a.steps == [SetZoneAnnotation(sbZone)])
    ensures var b := BarrierStage(cfg, nodeName, sbZone, node, inp);
      && (b.end.Completed? || b.end.Exited?)
      && (!EntersBarrier(cfg, sbZone, node) ==> b == Done)
      && (b.steps == [] || b.steps == [SetZoneMigrated(sbZone)] || b.steps == [SetZoneMigrated(sbZone), SetDBAuth])
      && (b.steps == [SetZoneMigrated(sbZone)] ==> b.end.Exited?)
      && (|b.steps| > 0 ==> EntersBarrier(cfg, sbZone, node))
    ensures var w := WatchStage(cfg, sbZone, inp);
      && NoMarker(w.steps) && !w.end.Exited?
      && SetupOVNNode !in w.steps && SetDBAuth !in w.steps
      && (w.end.Completed? && cfg.mode != NodeModeDPUHost ==> WatchEndpointSlices in w.steps)
  {
    EarlyShape(cfg, sbZone, first, inp);
    AnnotationShape(cfg, sbZone, inp);
    BarrierShape(cfg, nodeName, sbZone, node, inp);
    WatchShape(cfg, sbZone, inp);
  }

  /** Four stages in sequence, the first two completed: the steps of the
      first two, then the third's, then the fourth's if the third completed. */
  lemma ThenFour(e: StartupRun, a: StartupRun, b: StartupRun, w: StartupRun)
    requires e.end.Completed? && a.end.Completed?
    ensures Then(e, Then(a, Then(b, w))).steps == (e.steps + a.steps) + b.steps + (if b.end.Completed? then w.steps else [])
    ensures Then(e, Then(a, Then(b, w))).end == if b.end.Completed? then w.end else b.end
  {
  }

  /** A start-up run splits into the steps before the barrier, the
      barrier's own steps and the steps after it. */
  lemma StartupDecomposes(cfg: Config, nodeName: string, inp: StartupInputs) returns (pre: seq<Step>, bs: seq<Step>, post: seq<Step>)
    ensures var r := StartupSteps(cfg, nodeName, inp);
      && r.steps == pre + bs + post
      && NoMarker(pre) && NoMarker(post)
      && (bs == [] || bs == [SetZoneMigrated(cfg.zone)] || bs == [SetZoneMigrated(cfg.zone), SetDBAuth])
      && (bs == [SetZoneMigrated(cfg.zone)] ==> post == [] && r.end.Exited?)
      && (|bs| > 0 && MarkerStable(inp) ==> SetDBAuth !in pre)
      && (r.end.Completed? ==> SetZoneAnnotation(cfg.zone) in pre)
      && (r.end.Completed? && cfg.mode != NodeModeDPUHost ==> WatchEndpointSlices in post)
      && (cfg.mode == NodeModeDPUHost ==> bs == [] && SetupOVNNode !in pre && SetupOVNNode !in post)
  {
    var r := StartupSteps(cfg, nodeName, inp);
    ResolveSbZoneSpec(cfg, inp.zonePolls);
    if inp.firstRead.Ok? && ResolveSbZone(cfg, inp.zonePolls).Adopted? {
      var first := inp.firstRead.value;
      var e := EarlyStage(cfg, cfg.zone, first, inp);
      var later := LaterStages(cfg, nodeName, cfg.zone, inp);
      assert r == Then(e, later);
      StageShapes(cfg, nodeName, cfg.zone, first, first, inp);
      if AwaitSwitch(inp.switchReads).Some? && e.end.Completed? {
        pre, bs, post := LaterDecomposes(cfg, nodeName, first, inp);
      } else {
        pre, bs, post := r.steps, [], [];
      }
    } else {
      pre, bs, post := r.steps, [], [];
    }
  }

  lemma LaterDecomposes(cfg: Config, nodeName: string, first: Node, inp: StartupInputs) returns (pre: seq<Step>, bs: seq<Step>, post: seq<Step>)
    requires AwaitSwitch(inp.switchReads).Some?
    requires EarlyStage(cfg, cfg.zone, first, inp).end.Completed?
    requires inp.firstRead == Ok(first)
    ensures var r := Then(EarlyStage(cfg, cfg.zone, first, inp), LaterStages(cfg, nodeName, cfg.zone, inp));
      && r.steps == pre + bs + post
      && NoMarker(pre) && NoMarker(post)
      && (bs == [] || bs == [SetZoneMigrated(cfg.zone)] || bs == [SetZoneMigrated(cfg.zone), SetDBAuth])
      && (bs == [SetZoneMigrated(cfg.zone)] ==> post == [] && r.end.Exited?)
      && (|bs| > 0 && MarkerStable(inp) ==> SetDBAuth !in pre)
      && (r.end.Completed? ==> SetZoneAnnotation(cfg.zone) in pre)
      && (r.end.Completed? && cfg.mode != NodeModeDPUHost ==> WatchEndpointSlices in post)
      && (cfg.mode == NodeModeDPUHost ==> bs == [] && SetupOVNNode !in pre && SetupOVNNode !in post)
  {
    var z := cfg.zone;
    var node := AwaitSwitch(inp.switchReads).value;
    var e := EarlyStage(cfg, z, first, inp);
    var a := AnnotationStage(cfg, z, inp);
    var b := BarrierStage(cfg, nodeName, z, node, inp);
    var w := WatchStage(cfg, z, inp);
    var r := Then(e, Then(a, Then(b, w)));
    assert Then(e, LaterStages(cfg, nodeName, z, inp)) == r;
    StageShapes(cfg, nodeName, z, first, node, inp);
    if a.end.Completed? {
      ThenFour(e, a, b, w);
      pre := e.steps + [SetZoneAnnotation(z)];
      bs := b.steps;
      post := if b.end.Completed? then w.steps else [];
      if |bs| > 0 && MarkerStable(inp) {
        GatesAreComplementary(cfg, z, first);
      }
    } else {
      assert r.steps == e.steps + a.steps;
      pre, bs, post := r.steps, [], [];
    }
  }

  /** Where the marker can stand in such a run. */
  lemma MarkerInContext(pre: seq<Step>, bs: seq<Step>, post: seq<Step>, z: string, i: int)
    requires NoMarker(pre) && NoMarker(post)
    requires bs == [] || bs == [SetZoneMigrated(z)] || bs == [SetZoneMigrated(z), SetDBAuth]
    requires 0 <= i < |pre + bs + post| && (pre + bs + post)[i].SetZoneMigrated?
    ensures i == |pre| && |bs| > 0
    ensures forall j :: 0 <= j < i ==> (pre + bs + post)[j] == pre[j]
    ensures bs == [SetZoneMigrated(z), SetDBAuth] ==> (pre + bs + post)[i + 1] == SetDBAuth
  {
  }

  /** The zone annotation is written on every completed start-up, and so
      is the endpoint-slice watch outside DPU-host mode; a DPU host never
      sets up OVS nor writes the marker; the marker is followed at once by
      the credential switch, or it is the last step of a start-up that the
      failed switch terminated; and when the marker reads the same at both
      node reads, no credential switch comes before it. */
  lemma {:induction false} StartupStepsOrder(cfg: Config, nodeName: string, inp: StartupInputs)
    ensures var r := StartupSteps(cfg, nodeName, inp);
      && (r.end.Completed? ==> SetZoneAnnotation(cfg.zone) in r.steps)
      && (r.end.Completed? && cfg.mode != NodeModeDPUHost ==> WatchEndpointSlices in r.steps)
      && (cfg.mode == NodeModeDPUHost ==> SetupOVNNode !in r.steps && SetZoneMigrated(cfg.zone) !in r.steps)
      && (forall i :: 0 <= i < |r.steps| && r.steps[i].SetZoneMigrated? ==>
            || (i + 1 < |r.steps| && r.steps[i + 1] == SetDBAuth)
            || (i + 1 == |r.steps| && r.end.Exited?))
      && (MarkerStable(inp) ==>
            forall i, j :: 0 <= j < i < |r.steps| && r.steps[i].SetZoneMigrated? ==> r.steps[j] != SetDBAuth)
  {
    var r := StartupSteps(cfg, nodeName, inp);
    var pre, bs, post := StartupDecomposes(cfg, nodeName, inp);
    forall i | 0 <= i < |r.steps| && r.steps[i].SetZoneMigrated?
      ensures || (i + 1 < |r.steps| && r.steps[i + 1] == SetDBAuth)
              || (i + 1 == |r.steps| && r.end.Exited?)
      ensures MarkerStable(inp) ==> forall j :: 0 <= j < i ==> r.steps[j] != SetDBAuth
    {
      MarkerInContext(pre, bs, post, cfg.zone, i);
    }
  }
}
