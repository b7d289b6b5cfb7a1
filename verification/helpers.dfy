/** The small pure helpers of the default node network controller: the
    flow-collector target string, the device-plugin environment name,
    device-ID reservation, the VTEP MTU check, the dummy next hops, the
    DPU-host label test and the DPU-host readiness wait. */
module NodeHelpers {
  import opened Common
  import opened Cluster

  // ---------------------------------------------------------------------------
  // Flow collectors

  /** A configured collector: an optional host IP and a port. */
  datatype HostPort = HostPort(host: Option<string>, port: int32)

  predicate HasOwnHost(t: HostPort)
  {
    t.host.Some? && |t.host.value| > 0
  }

  /** `net.JoinHostPort`: IPv6 literals (containing ':') are bracketed. */
  function JoinHostPort(host: string, port: int32): string
  {
    if ':' in host then "[" + host + "]:" + Itoa(port as int) else host + ":" + Itoa(port as int)
  }

  /** The `host:port` text of one target, with the node IP standing in for
      a missing or empty host. */
  function CollectorEntry(t: HostPort, nodeIP: Result<string>): string
    requires HasOwnHost(t) || nodeIP.Ok?
  {
    JoinHostPort(if HasOwnHost(t) then t.host.value else nodeIP.value, t.port)
  }

  /** Every target can be rendered: it has a host, or the node IP is known. */
  predicate Renderable(targets: seq<HostPort>, nodeIP: Result<string>)
  {
    forall i :: 0 <= i < |targets| ==> HasOwnHost(targets[i]) || nodeIP.Ok?
  }

  function CollectorEntries(targets: seq<HostPort>, nodeIP: Result<string>): (es: seq<string>)
    requires Renderable(targets, nodeIP)
    ensures |es| == |targets|
    ensures forall i :: 0 <= i < |targets| ==> es[i] == CollectorEntry(targets[i], nodeIP)
  {
    seq(|targets|, i requires 0 <= i < |targets| => CollectorEntry(targets[i], nodeIP))
  }

  const CollectorSep: string := "\",\""

  lemma {:induction false} JoinSnoc(parts: seq<string>, sep: string, n: nat)
    requires 1 <= n < |parts|
    ensures Join(parts[..n + 1], sep) == Join(parts[..n], sep) + sep + parts[n]
    decreases n
  {
    if n == 1 {
      assert parts[..2][1..] == [parts[1]];
    } else {
      var tail := parts[1..];
      JoinSnoc(tail, sep, n - 1);
      assert parts[..n + 1][1..] == tail[..n];
      assert parts[..n][1..] == tail[..n - 1];
    }
  }

  /** Rendering one more target appends its entry after a separator. */
  lemma CollectorEntriesSnoc(targets: seq<HostPort>, nodeIP: Result<string>, n: nat)
    requires 1 <= n < |targets|
    requires Renderable(targets[..n + 1], nodeIP)
    ensures Renderable(targets[..n], nodeIP)
    ensures Join(CollectorEntries(targets[..n + 1], nodeIP), CollectorSep)
         == Join(CollectorEntries(targets[..n], nodeIP), CollectorSep) + CollectorSep + CollectorEntry(targets[n], nodeIP)
  {
    var es := CollectorEntries(targets[..n + 1], nodeIP);
    assert targets[..n + 1][..n] == targets[..n];
    JoinSnoc(es, CollectorSep, n);
    assert es[..n] == CollectorEntries(targets[..n], nodeIP);
    assert es[..n + 1] == es;
  }

  /** One pass of the loop below: appending the next entry (after the
      opening quote, or after a separator) renders one more target. */
  lemma CollectorStep(targets: seq<HostPort>, nodeIP: Result<string>, n: nat, joined: string)
    requires n < |targets|
    requires Renderable(targets[..n], nodeIP) && (HasOwnHost(targets[n]) || nodeIP.Ok?)
    requires n == 0 ==> joined == ""
    requires n > 0 ==> joined == "\"" + Join(CollectorEntries(targets[..n], nodeIP), CollectorSep)
    ensures Renderable(targets[..n + 1], nodeIP)
    ensures (if n == 0 then "\"" else joined + CollectorSep) + CollectorEntry(targets[n], nodeIP)
         == "\"" + Join(CollectorEntries(targets[..n + 1], nodeIP), CollectorSep)
  {
    assert forall i :: 0 <= i < n ==> targets[..n + 1][i] == targets[..n][i];
    assert targets[..n + 1][n] == targets[n];
    if n == 0 {
      assert CollectorEntries(targets[..1], nodeIP) == [CollectorEntry(targets[0], nodeIP)];
    } else {
      CollectorEntriesSnoc(targets, nodeIP, n);
    }
  }

  /** `collectorsString`: fails on an empty target list, and when a target
      without its own host needs the node IP that could not be found;
      otherwise the quoted `host:port` entries in input order joined by
      `","`. The node IP is only consulted for targets without a host. */
  method CollectorsString(targets: seq<HostPort>, nodeIP: Result<string>) returns (r: Result<string>)
    ensures |targets| == 0 ==> r.Err?
    ensures r.Ok? <==> |targets| > 0 && Renderable(targets, nodeIP)
    ensures r.Ok? ==> r.value == "\"" + Join(CollectorEntries(targets, nodeIP), CollectorSep) + "\""
  {
    if |targets| == 0 {
      return Err("collector targets can't be empty");
    }
    var joined := "";
    var n := 0;
    while n < |targets|
      invariant 0 <= n <= |targets|
      invariant Renderable(targets[..n], nodeIP)
      invariant n == 0 ==> joined == ""
      invariant n > 0 ==> joined == "\"" + Join(CollectorEntries(targets[..n], nodeIP), CollectorSep)
    {
      var v := targets[n];
      if !HasOwnHost(v) && nodeIP.Err? {
        return Err("composing flow collectors' IPs: " + nodeIP.msg);
      }
      CollectorStep(targets, nodeIP, n, joined);
      joined := (if n == 0 then "\"" else joined + CollectorSep) + CollectorEntry(v, nodeIP);
      n := n + 1;
    }
    assert targets[..n] == targets;
    r := Ok(joined + "\"");
  }

  // ---------------------------------------------------------------------------
  // Device plugin resources

  const EnvPrefix: string := "PCIDEVICE_"

  /** `getEnvNameFromResourceName`: dots and slashes become underscores,
      letters are upper-cased, and the device-plugin prefix is prepended. */
  function EnvNameFromResourceName(resource: string): (r: string)
    ensures |r| == |EnvPrefix| + |resource|
    ensures r[..|EnvPrefix|] == EnvPrefix
    ensures forall i :: 0 <= i < |resource| ==>
              r[|EnvPrefix| + i] == EnvChar(resource[i])
    ensures '.' !in r && '/' !in r
  {
    var res1 := ReplaceChar(resource, '.', '_');
    var res2 := ReplaceChar(res1, '/', '_');
    var up := ToUpper(res2);
    EnvCharsSpec(resource, res1, res2, up);
    assert '.' !in EnvPrefix && '/' !in EnvPrefix;
    EnvPrefix + up
  }

  /** The character the environment name holds for one resource character. */
  function EnvChar(c: char): char
  {
    if c == '.' || c == '/' then '_' else UpperChar(c)
  }

  lemma EnvCharAt(resource: string, res1: string, res2: string, up: string, i: int)
    requires res1 == ReplaceChar(resource, '.', '_')
    requires res2 == ReplaceChar(res1, '/', '_')
    requires up == ToUpper(res2)
    requires 0 <= i < |resource|
    ensures up[i] == EnvChar(resource[i])
    ensures up[i] != '.' && up[i] != '/'
  {
    assert res1[i] == (if resource[i] == '.' then '_' else resource[i]);
    assert res2[i] == (if res1[i] == '/' then '_' else res1[i]);
    assert up[i] == UpperChar(res2[i]);
  }

  lemma EnvCharsSpec(resource: string, res1: string, res2: string, up: string)
    requires res1 == ReplaceChar(resource, '.', '_')
    requires res2 == ReplaceChar(res1, '/', '_')
    requires up == ToUpper(res2)
    ensures |up| == |resource|
    ensures forall i :: 0 <= i < |resource| ==> up[i] == EnvChar(resource[i])
    ensures '.' !in up && '/' !in up
  {
    forall i | 0 <= i < |resource|
      ensures up[i] == EnvChar(resource[i]) && up[i] != '.' && up[i] != '/'
    {
      EnvCharAt(resource, res1, res2, up, i);
    }
  }

  /** `reserveDeviceId`: the first ID and the remaining ones. The caller
      guarantees a non-empty list. */
  function ReserveDeviceId(ids: seq<string>): (r: (string, seq<string>))
    requires |ids| > 0
    ensures ids == [r.0] + r.1
  {
    (ids[0], ids[1..])
  }

  datatype NetdevOutcome = NetdevOutcome(pool: map<string, seq<string>>, netdev: Result<string>)

  /** `handleNetdevResources`: take the first free device ID of the
      resource and look up its network device (`netdevOf`, an OS lookup
      given as data). The ID stays consumed even when the lookup fails. */
  function HandleNetdevResources(pool: map<string, seq<string>>, resource: string, netdevOf: map<string, string>): (o: NetdevOutcome)
    ensures resource !in pool || |pool[resource]| == 0 ==> o.netdev.Err? && o.pool == pool
    ensures resource in pool && |pool[resource]| > 0 ==>
              && o.pool.Keys == pool.Keys
              && pool[resource] == [pool[resource][0]] + o.pool[resource]
              && (forall k :: k in pool && k != resource ==> o.pool[k] == pool[k])
              && (o.netdev.Ok? <==> pool[resource][0] in netdevOf)
              && (o.netdev.Ok? ==> o.netdev.value == netdevOf[pool[resource][0]])
  {
    if resource in pool && |pool[resource]| > 0 then
      var (deviceId, rest) := ReserveDeviceId(pool[resource]);
      var pool' := pool[resource := rest];
      if deviceId in netdevOf then NetdevOutcome(pool', Ok(netdevOf[deviceId]))
      else NetdevOutcome(pool', Err("failed to get netdev for device " + deviceId))
    else NetdevOutcome(pool, Err("insufficient device IDs for resource: " + resource))
  }

  /** Two successive reservations hand out the first two IDs, in order. */
  lemma ReservationsInOrder(pool: map<string, seq<string>>, resource: string, netdevOf: map<string, string>)
    requires resource in pool && |pool[resource]| >= 2
    requires pool[resource][0] in netdevOf && pool[resource][1] in netdevOf
    ensures var first := HandleNetdevResources(pool, resource, netdevOf);
      var second := HandleNetdevResources(first.pool, resource, netdevOf);
      && first.netdev == Ok(netdevOf[pool[resource][0]])
      && second.netdev == Ok(netdevOf[pool[resource][1]])
      && second.pool[resource] == pool[resource][2..]
  {
    var first := HandleNetdevResources(pool, resource, netdevOf);
    assert first.pool[resource] == pool[resource][1..];
  }

  // ---------------------------------------------------------------------------
  // VTEP MTU

  /** Geneve encapsulation overhead (`types.GeneveHeaderLengthIPv4/IPv6`). */
  const GeneveHeaderLengthIPv4: int := 58
  const GeneveHeaderLengthIPv6: int := 78

  /** The MTU the encapsulation interface must carry. */
  function RequiredMTU(cfg: Config): int
  {
    if cfg.singleNode then cfg.mtu
    else if cfg.ipv4Mode && !cfg.ipv6Mode then cfg.mtu + GeneveHeaderLengthIPv4
    else cfg.mtu + GeneveHeaderLengthIPv6
  }

  /** `validateVTEPInterfaceMTU`: the encapsulation IP must parse, its
      interface must be found, and its MTU must be at least the required one. */
  function ValidateVTEPInterfaceMTU(cfg: Config, encapIPValid: bool, ifaceMTU: Result<int>): (r: Result<int>)
    ensures r.Ok? <==> encapIPValid && ifaceMTU.Ok? && ifaceMTU.value >= RequiredMTU(cfg)
    ensures r.Ok? ==> r.value == ifaceMTU.value
  {
    if !encapIPValid then Err("the set OVN Encap IP is invalid")
    else match ifaceMTU
      case Err(e) => Err("could not get MTU for the interface: " + e)
      case Ok(mtu) =>
        var required := RequiredMTU(cfg);
        if mtu < required then Err("interface MTU is too small for specified overlay MTU") else Ok(mtu)
  }

  /** The required MTU is the overlay MTU on a single node, and otherwise
      adds the Geneve overhead of the IPv4 header only in IPv4-only mode
      (IPv6 and dual stack pay the larger IPv6 header); so an interface that
      suffices for dual stack suffices for IPv4-only. */
  lemma RequiredMTUByMode(cfg: Config)
    ensures cfg.singleNode ==> RequiredMTU(cfg) == cfg.mtu
    ensures !cfg.singleNode && cfg.ipv4Mode && !cfg.ipv6Mode ==> RequiredMTU(cfg) == cfg.mtu + 58
    ensures !cfg.singleNode && !(cfg.ipv4Mode && !cfg.ipv6Mode) ==> RequiredMTU(cfg) == cfg.mtu + 78
    ensures cfg.mtu <= RequiredMTU(cfg) <= cfg.mtu + 78
    ensures RequiredMTU(cfg.(ipv4Mode := true, ipv6Mode := false)) <= RequiredMTU(cfg.(ipv4Mode := true, ipv6Mode := true))
  {
  }

  // ---------------------------------------------------------------------------
  // Service routing next hops, DPU host

  /** `DummyNextHopIPs`: one fake next hop per enabled family, IPv4 first. */
  function DummyNextHopIPs(cfg: Config): (hops: seq<string>)
    ensures |hops| == (if cfg.ipv4Mode then 1 else 0) + (if cfg.ipv6Mode then 1 else 0)
    ensures cfg.ipv4Mode ==> hops[0] == cfg.v4DummyNextHop
    ensures cfg.ipv6Mode ==> hops[|hops| - 1] == cfg.v6DummyNextHop
  {
    (if cfg.ipv4Mode then [cfg.v4DummyNextHop] else []) + (if cfg.ipv6Mode then [cfg.v6DummyNextHop] else [])
  }

  /** `IsDPUHostMode`: the node carries the DPU-host label (any value). */
  predicate IsDPUHostMode(node: Node)
  {
    DPUHostLabel in node.labels
  }

  /** A node the DPU host waits for: a DPU (not a DPU host) in its zone
      that has not announced readiness. */
  predicate BlocksDPUHost(n: Node, zone: string)
  {
    !IsDPUHostMode(n) && n.zone == zone && !n.dpuNodeReady
  }

  /** One pass of the DPU-host readiness wait: the node list must be
      readable and no node of the zone may block; the scan stops at the
      first blocking node. */
  method DPUHostReadyPass(nodes: Result<seq<Node>>, zone: string) returns (ready: bool)
    ensures ready <==> nodes.Ok? && forall i :: 0 <= i < |nodes.value| ==> !BlocksDPUHost(nodes.value[i], zone)
  {
    if nodes.Err? {
      return false;
    }
    var ns := nodes.value;
    ready := true;
    var i := 0;
    while i < |ns|
      invariant 0 <= i <= |ns|
      invariant ready && forall j :: 0 <= j < i ==> !BlocksDPUHost(ns[j], zone)
    {
      if BlocksDPUHost(ns[i], zone) {
        ready := false;
        break;
      }
      i := i + 1;
    }
  }
}
