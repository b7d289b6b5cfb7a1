/** The DPU heartbeat: in DPU mode the agent owns a coordination lease
    named after its node and renews it on every tick; in DPU-host mode it
    lists the leases of the lease namespace on every tick and reports when
    none exists or one has expired. Times are nanoseconds on one clock;
    the API server is a map from (namespace, name) to lease spec, and each
    request carries a flag saying whether the server could be reached. */
module DPUHeartbeat {
  import opened Common
  import opened Cluster

  // ---------------------------------------------------------------------------
  // Options

  /** The lease duration of node leases, in seconds. */
  const DefaultLeaseDurationSeconds: int32 := 40
  const DefaultLeaseNS: string := "dpu-lease-zone"
  const NanosPerSecond: int := 1_000_000_000
  /** Ten seconds, as a `time.Duration`. */
  const DefaultInterval: int64 := 10_000_000_000

  datatype HeartbeatOptions = HeartbeatOptions(
    holderIdentity: string,
    leaseDurationSeconds: int32,
    leaseNS: string,
    mode: string,
    interval: int64
  )

  /** The zero value the options start from. */
  const ZeroOptions: HeartbeatOptions := HeartbeatOptions("", 0, "", "", 0)

  /** The functional options; each one assigns a single field. */
  datatype HeartbeatOption =
    | HolderIdentityOption(id: string)
    | LeaseDurationSecondsOption(seconds: int32)
    | LeaseNSOption(ns: string)
    | ModeOption(mode: string)
    | IntervalOption(interval: int64)

  function ApplyOption(o: HeartbeatOptions, opt: HeartbeatOption): HeartbeatOptions
  {
    match opt
    case HolderIdentityOption(id) => o.(holderIdentity := id)
    case LeaseDurationSecondsOption(secs) => o.(leaseDurationSeconds := secs)
    case LeaseNSOption(ns) => o.(leaseNS := ns)
    case ModeOption(m) => o.(mode := m)
    case IntervalOption(d) => o.(interval := d)
  }

  /** The options applied in the order given. */
  function ApplyOptions(o: HeartbeatOptions, opts: seq<HeartbeatOption>): HeartbeatOptions
    decreases |opts|
  {
    if |opts| == 0 then o else ApplyOptions(ApplyOption(o, opts[0]), opts[1..])
  }

  /** The option fields, and a uniform view of their values. */
  datatype Field = HolderIdentityField | LeaseDurationField | LeaseNSField | ModeField | IntervalField
  datatype FieldValue = Text(s: string) | Int32(i: int32) | Int64(n: int64)

  function FieldOf(o: HeartbeatOptions, f: Field): FieldValue
  {
    match f
    case HolderIdentityField => Text(o.holderIdentity)
    case LeaseDurationField => Int32(o.leaseDurationSeconds)
    case LeaseNSField => Text(o.leaseNS)
    case ModeField => Text(o.mode)
    case IntervalField => Int64(o.interval)
  }

  /** The value an option assigns to a field, if it assigns that field. */
  function Sets(opt: HeartbeatOption, f: Field): Option<FieldValue>
  {
    match (opt, f)
    case (HolderIdentityOption(id), HolderIdentityField) => Some(Text(id))
    case (LeaseDurationSecondsOption(secs), LeaseDurationField) => Some(Int32(secs))
    case (LeaseNSOption(ns), LeaseNSField) => Some(Text(ns))
    case (ModeOption(m), ModeField) => Some(Text(m))
    case (IntervalOption(d), IntervalField) => Some(Int64(d))
    case _ => None
  }

  /** Reference definition: the value assigned by the last option that
      assigns `f`, searching from the end. */
  function LastSetting(opts: seq<HeartbeatOption>, f: Field): Option<FieldValue>
    decreases |opts|
  {
    if |opts| == 0 then None
    else if Sets(opts[|opts| - 1], f).Some? then Sets(opts[|opts| - 1], f)
    else LastSetting(opts[..|opts| - 1], f)
  }

  lemma ApplyOptionField(o: HeartbeatOptions, opt: HeartbeatOption, f: Field)
    ensures FieldOf(ApplyOption(o, opt), f) == if Sets(opt, f).Some? then Sets(opt, f).value else FieldOf(o, f)
  {
  }

  lemma {:induction false} ApplyOptionsSnoc(o: HeartbeatOptions, opts: seq<HeartbeatOption>, opt: HeartbeatOption)
    ensures ApplyOptions(o, opts + [opt]) == ApplyOption(ApplyOptions(o, opts), opt)
    decreases |opts|
  {
    if |opts| == 0 {
      assert [opt][1..] == [];
    } else {
      assert (opts + [opt])[1..] == opts[1..] + [opt];
      ApplyOptionsSnoc(ApplyOption(o, opts[0]), opts[1..], opt);
    }
  }

  /** Applying options in order leaves every field with the value of the
      last option that assigns it, and untouched when none does. */
  lemma {:induction false} LastOptionWins(o: HeartbeatOptions, opts: seq<HeartbeatOption>, f: Field)
    ensures FieldOf(ApplyOptions(o, opts), f) == if LastSetting(opts, f).Some? then LastSetting(opts, f).value else FieldOf(o, f)
    decreases |opts|
  {
    if |opts| > 0 {
      var init := opts[..|opts| - 1];
      var last := opts[|opts| - 1];
      assert opts == init + [last];
      ApplyOptionsSnoc(o, init, last);
      LastOptionWins(o, init, f);
      ApplyOptionField(ApplyOptions(o, init), last, f);
    }
  }

  // ---------------------------------------------------------------------------
  // Leases, the API server and the heartbeat state

  type Time = int

  datatype LeaseSpec = LeaseSpec(holderIdentity: string, leaseDurationSeconds: int32, acquireTime: Time, renewTime: Time)
  datatype Lease = Lease(namespace: string, name: string, spec: LeaseSpec)

  /** The lease objects held by the API server. */
  type Store = map<(string, string), LeaseSpec>

  datatype Heartbeat = Heartbeat(nodeName: string, options: HeartbeatOptions, lease: Option<Lease>)

  /** `newHeartbeat`: the options applied in order, then every field
      still at its zero value (except the holder identity) replaced by its
      default. No lease is held yet. */
  function NewHeartbeat(nodeName: string, opts: seq<HeartbeatOption>): (h: Heartbeat)
    ensures h.nodeName == nodeName && h.lease.None?
    ensures h.options.leaseDurationSeconds != 0 && h.options.leaseNS != ""
    ensures h.options.interval != 0 && h.options.mode != ""
  {
    var o := ApplyOptions(ZeroOptions, opts);
    var o := if o.leaseDurationSeconds == 0 then o.(leaseDurationSeconds := DefaultLeaseDurationSeconds) else o;
    var o := if o.leaseNS == "" then o.(leaseNS := DefaultLeaseNS) else o;
    var o := if o.interval == 0 then o.(interval := DefaultInterval) else o;
    var o := if o.mode == "" then o.(mode := NodeModeDPU) else o;
    Heartbeat(nodeName, o, None)
  }

  function ZeroValue(f: Field): FieldValue
  {
    FieldOf(ZeroOptions, f)
  }

  function DefaultValue(f: Field): FieldValue
  {
    match f
    case HolderIdentityField => Text("")
    case LeaseDurationField => Int32(DefaultLeaseDurationSeconds)
    case LeaseNSField => Text(DefaultLeaseNS)
    case ModeField => Text(NodeModeDPU)
    case IntervalField => Int64(DefaultInterval)
  }

  /** Every field of a new heartbeat holds the value of the last option
      that set it, unless that value is the zero value or no option set it,
      in which case it holds the field's default. */
  lemma NewHeartbeatFields(nodeName: string, opts: seq<HeartbeatOption>, f: Field)
    ensures var v := if LastSetting(opts, f).Some? then LastSetting(opts, f).value else ZeroValue(f);
      FieldOf(NewHeartbeat(nodeName, opts).options, f) == if v == ZeroValue(f) then DefaultValue(f) else v
  {
    LastOptionWins(ZeroOptions, opts, f);
  }

  datatype RunPath = OwnerPath | ObserverPath | UnknownMode(msg: string)

  /** `run`: a DPU owns the lease, a DPU host observes it, any other mode
      is an error. */
  function RunMode(mode: string): (p: RunPath)
    ensures p.OwnerPath? <==> mode == NodeModeDPU
    ensures p.ObserverPath? <==> mode == NodeModeDPUHost
    ensures p.UnknownMode? ==> Contains(p.msg, mode)
  {
    match mode
    case "dpu" => OwnerPath
    case "dpu-host" => ObserverPath
    case _ =>
      var prefix := "unknown node mode: ";
      assert OccursAt(mode, prefix + mode, |prefix|);
      UnknownMode(prefix + mode)
  }

  /** A heartbeat built without a mode option takes the owner path. */
  lemma DefaultModeOwnsLease(nodeName: string, opts: seq<HeartbeatOption>)
    requires LastSetting(opts, ModeField).None?
    ensures RunMode(NewHeartbeat(nodeName, opts).options.mode).OwnerPath?
  {
    NewHeartbeatFields(nodeName, opts, ModeField);
  }

  /** `createLeaseSpec`: the holder and duration come from the options. */
  function CreateLeaseSpec(h: Heartbeat, acquireTime: Time, renewTime: Time): LeaseSpec
  {
    LeaseSpec(h.options.holderIdentity, h.options.leaseDurationSeconds, acquireTime, renewTime)
  }

  /** The key of the lease a heartbeat owns. */
  function OwnKey(h: Heartbeat): (string, string)
  {
    (h.options.leaseNS, h.nodeName)
  }

  // The API server's lease requests. `down` makes a request fail
  // without touching the store.

  datatype GetReply = Found(lease: Lease) | NotFoundError | GetFailed(reason: string)
  datatype Write = Write(store: Store, reply: Result<Lease>)

  const Unreachable: string := "the server could not be reached"

  function ApiGet(store: Store, ns: string, name: string, down: bool): GetReply
  {
    if down then GetFailed(Unreachable)
    else if (ns, name) in store then Found(Lease(ns, name, store[(ns, name)]))
    else NotFoundError
  }

  function ApiCreate(store: Store, lease: Lease, down: bool): Write
  {
    if down then Write(store, Err(Unreachable))
    else if (lease.namespace, lease.name) in store then Write(store, Err("already exists"))
    else Write(store[(lease.namespace, lease.name) := lease.spec], Ok(lease))
  }

  function ApiUpdate(store: Store, lease: Lease, down: bool): Write
  {
    if down then Write(store, Err(Unreachable))
    else if (lease.namespace, lease.name) !in store then Write(store, Err("not found"))
    else Write(store[(lease.namespace, lease.name) := lease.spec], Ok(lease))
  }

  function ApiDelete(store: Store, ns: string, name: string, down: bool): (Store, Option<string>)
  {
    if down then (store, Some(Unreachable))
    else if (ns, name) !in store then (store, Some("not found"))
    else (store - {(ns, name)}, None)
  }

  /** The state after one step of the owner, and the error it returns. */
  datatype Step = Step(hb: Heartbeat, store: Store, err: Option<string>)

  /** `update`: without a held lease nothing happens; otherwise the held
      lease takes the new spec locally, whatever the server answers, and is
      replaced by the server's copy when the write succeeds. */
  function Update(h: Heartbeat, store: Store, spec: LeaseSpec, down: bool): (s: Step)
    ensures h.lease.None? ==> s.err.Some? && s.hb == h && s.store == store
    ensures h.lease.Some? ==>
              && s.hb.lease == Some(h.lease.value.(spec := spec))
              && (s.err.None? <==> !down && (h.lease.value.namespace, h.lease.value.name) in store)
              && (s.err.None? ==> s.store == store[(h.lease.value.namespace, h.lease.value.name) := spec])
              && (s.err.Some? ==> s.store == store)
  {
    if h.lease.None? then Step(h, store, Some("lease not initialized, call get or create first"))
    else
      var local := h.lease.value.(spec := spec);
      var h1 := h.(lease := Some(local));
      var w := ApiUpdate(store, local, down);
      match w.reply
      case Err(e) => Step(h1, w.store, Some(e))
      case Ok(l) => Step(h1.(lease := Some(l)), w.store, None)
  }

  /** `create`: the held lease becomes the server's reply, none on failure. */
  function Create(h: Heartbeat, store: Store, spec: LeaseSpec, down: bool): Step
  {
    var w := ApiCreate(store, Lease(h.options.leaseNS, h.nodeName, spec), down);
    match w.reply
    case Err(e) => Step(h.(lease := None), w.store, Some(e))
    case Ok(l) => Step(h.(lease := Some(l)), w.store, None)
  }

  /** `runDPUNode` before its ticker starts: adopt and renew an existing
      lease (keeping its acquire time), or create one acquired and renewed
      now. A read error other than "not found" is returned as is. */
  function RunDPUNode(h: Heartbeat, store: Store, now: Time, getDown: bool, writeDown: bool): Step
  {
    match ApiGet(store, h.options.leaseNS, h.nodeName, getDown)
    case GetFailed(e) => Step(h, store, Some(e))
    case Found(l) =>
      var h1 := h.(lease := Some(l));
      Update(h1, store, CreateLeaseSpec(h1, l.spec.acquireTime, now), writeDown)
    case NotFoundError => Create(h, store, CreateLeaseSpec(h, now, now), writeDown)
  }

  /** The lease a heartbeat has written at `now`, as the server stores it. */
  predicate Renewed(h: Heartbeat, store: Store, now: Time)
  {
    && h.lease.Some?
    && h.lease.value.namespace == h.options.leaseNS
    && h.lease.value.name == h.nodeName
    && OwnKey(h) in store
    && store[OwnKey(h)] == h.lease.value.spec
    && h.lease.value.spec.holderIdentity == h.options.holderIdentity
    && h.lease.value.spec.leaseDurationSeconds == h.options.leaseDurationSeconds
    && h.lease.value.spec.renewTime == now
  }

  /** The owner's start succeeds exactly when both requests reach the
      server; it then holds and has stored a lease renewed now, acquired
      now when it was new and at the old acquire time when it was adopted,
      and no other lease changes. On failure the error is returned. */
  lemma RunDPUNodeSpec(h: Heartbeat, store: Store, now: Time, getDown: bool, writeDown: bool)
    ensures var s := RunDPUNode(h, store, now, getDown, writeDown);
      && (s.err.None? <==> !getDown && !writeDown)
      && (s.err.None? ==> Renewed(s.hb, s.store, now))
      && (s.err.None? && OwnKey(h) in store ==> s.hb.lease.value.spec.acquireTime == store[OwnKey(h)].acquireTime)
      && (s.err.None? && OwnKey(h) !in store ==> s.hb.lease.value.spec.acquireTime == now)
      && (forall k :: k != OwnKey(h) ==> (k in s.store <==> k in store) && (k in store ==> s.store[k] == store[k]))
      && s.hb.nodeName == h.nodeName && s.hb.options == h.options
  {
  }

  // ---------------------------------------------------------------------------
  // The owner's ticker

  datatype Event = TickAt(now: Time, down: bool) | Cancel(down: bool)

  /** One tick: renew the held lease now, keeping its acquire time. The
      source reads the held lease without a nil check; a successful start
      establishes it and every tick keeps it. */
  function Tick(h: Heartbeat, store: Store, now: Time, down: bool): (s: Step)
    requires h.lease.Some?
    ensures s.hb.lease.Some? && s.hb.nodeName == h.nodeName && s.hb.options == h.options
    ensures s.hb.lease.value.spec.acquireTime == h.lease.value.spec.acquireTime
    ensures s.hb.lease.value.spec.renewTime == now
    ensures s.hb.lease.value.namespace == h.lease.value.namespace && s.hb.lease.value.name == h.lease.value.name
    ensures s.store.Keys == store.Keys
    ensures s.err == TickError(HeldKey(h) in store, down)
  {
    Update(h, store, CreateLeaseSpec(h, h.lease.value.spec.acquireTime, now), down)
  }

  /** The key of the lease a heartbeat holds. */
  function HeldKey(h: Heartbeat): (string, string)
    requires h.lease.Some?
  {
    (h.lease.value.namespace, h.lease.value.name)
  }

  /** Why a renewal fails: the server cannot be reached, or it no longer
      holds the lease. */
  function TickError(stored: bool, down: bool): Option<string>
  {
    if down then Some(Unreachable) else if !stored then Some("not found") else None
  }

  /** What the ticker leaves behind and the values it sent on the error
      channel (`None` is a nil error). */
  datatype TickerRun = TickerRun(hb: Heartbeat, store: Store, reports: seq<Option<string>>, cancelled: bool)

  /** The ticker loop: each tick renews the lease and reports a failed
      renewal without stopping; cancellation deletes the lease, reports
      the outcome of the delete and stops. */
  function RunTicker(h: Heartbeat, store: Store, events: seq<Event>): TickerRun
    requires h.lease.Some?
    decreases |events|
  {
    if |events| == 0 then TickerRun(h, store, [], false)
    else match events[0]
      case Cancel(down) =>
        var (store', res) := ApiDelete(store, h.options.leaseNS, h.nodeName, down);
        TickerRun(h, store', [res], true)
      case TickAt(now, down) =>
        var s := Tick(h, store, now, down);
        var rest := RunTicker(s.hb, s.store, events[1..]);
        if s.err.Some? then rest.(reports := [s.err] + rest.reports) else rest
  }

  predicate HasCancel(events: seq<Event>)
  {
    exists i :: 0 <= i < |events| && events[i].Cancel?
  }

  /** Whatever the server answers, the held lease survives every tick with
      its acquire time; every message sent before cancellation is an
      error; and cancellation sends exactly one message, last. */
  lemma {:induction false} TickerKeepsAcquireTime(h: Heartbeat, store: Store, events: seq<Event>)
    requires h.lease.Some?
    ensures var r := RunTicker(h, store, events);
      && r.hb.lease.Some?
      && r.hb.lease.value.spec.acquireTime == h.lease.value.spec.acquireTime
      && r.cancelled == HasCancel(events)
      && (forall i :: 0 <= i < |r.reports| && !(r.cancelled && i == |r.reports| - 1) ==> r.reports[i].Some?)
    decreases |events|
  {
    if |events| > 0 {
      match events[0]
      case Cancel(down) =>
      case TickAt(now, down) =>
        var s := Tick(h, store, now, down);
        TickerKeepsAcquireTime(s.hb, s.store, events[1..]);
        assert HasCancel(events) == HasCancel(events[1..]) by {
          if HasCancel(events) {
            var i :| 0 <= i < |events| && events[i].Cancel?;
            assert events[1..][i - 1].Cancel?;
          }
          if HasCancel(events[1..]) {
            var i :| 0 <= i < |events[1..]| && events[1..][i].Cancel?;
            assert events[i + 1].Cancel?;
          }
        }
    }
  }

  /** The position of the first cancellation, or the length when there is none. */
  function FirstCancel(events: seq<Event>): (c: nat)
    ensures c <= |events|
    ensures c < |events| ==> events[c].Cancel?
    ensures forall i :: 0 <= i < c ==> events[i].TickAt?
    decreases |events|
  {
    if |events| == 0 || events[0].Cancel? then 0 else 1 + FirstCancel(events[1..])
  }

  /** Reference definition, built from the last event backwards: the
      errors of the failed renewals among `ticks`, in order, when the held
      lease is `stored` on the server or not. */
  function FailedRenewals(stored: bool, ticks: seq<Event>): seq<Option<string>>
    decreases |ticks|
  {
    if |ticks| == 0 then []
    else
      var e := ticks[|ticks| - 1];
      var err := if e.TickAt? then TickError(stored, e.down) else None;
      FailedRenewals(stored, ticks[..|ticks| - 1]) + (if err.Some? then [err] else [])
  }

  lemma {:induction false} FailedRenewalsCons(stored: bool, e: Event, ticks: seq<Event>)
    ensures FailedRenewals(stored, [e] + ticks)
         == (if e.TickAt? && TickError(stored, e.down).Some? then [TickError(stored, e.down)] else [])
            + FailedRenewals(stored, ticks)
    decreases |ticks|
  {
    if |ticks| > 0 {
      var init := ticks[..|ticks| - 1];
      assert ([e] + ticks)[..|ticks|] == [e] + init;
      assert ([e] + ticks)[|ticks|] == ticks[|ticks| - 1];
      FailedRenewalsCons(stored, e, init);
    } else {
      assert ([e] + ticks)[..0] == [];
    }
  }

  /** The ticker reports, in order, the error of every failed renewal before
      the first cancellation, and then the outcome of deleting the lease
      when a cancellation comes; the loop goes on after a failed renewal.
      Renewals never add or remove a lease, so whether one fails depends
      only on the server being reachable and on the held lease having been
      stored at the start. */
  lemma {:induction false} TickerReportsFailures(h: Heartbeat, store: Store, events: seq<Event>)
    requires h.lease.Some?
    ensures var r := RunTicker(h, store, events);
      var c := FirstCancel(events);
      r.reports == FailedRenewals(HeldKey(h) in store, events[..c])
                   + (if c < |events| then [ApiDelete(store, h.options.leaseNS, h.nodeName, events[c].down).1] else [])
    decreases |events|
  {
    if |events| > 0 && events[0].TickAt? {
      var s := TickerStep(h, store, events);
      TickerReportsFailures(s.hb, s.store, events[1..]);
      var c := FirstCancel(events);
      if c < |events| {
        assert events[1..][c - 1] == events[c];
        DeleteOutcomeByKeys(s.store, store, h.options.leaseNS, h.nodeName, events[c].down);
      }
      var tail := if c < |events| then [ApiDelete(store, h.options.leaseNS, h.nodeName, events[c].down).1] else [];
      assert events[..c] == [events[0]] + events[1..][..c - 1];
      FailedRenewalsStep(HeldKey(h) in store, events[0], events[1..][..c - 1], tail);
    } else {
      assert events[..FirstCancel(events)] == [];
    }
  }

  /** The reference definition advanced by one leading tick. */
  lemma FailedRenewalsStep(stored: bool, e: Event, ticks: seq<Event>, tail: seq<Option<string>>)
    requires e.TickAt?
    ensures var err := TickError(stored, e.down);
      (if err.Some? then [err] else []) + (FailedRenewals(stored, ticks) + tail)
      == FailedRenewals(stored, [e] + ticks) + tail
  {
    FailedRenewalsCons(stored, e, ticks);
  }

  /** The first tick of a run: its report, if any, comes first, and the
      held lease keeps its key and the store its keys. */
  lemma TickerStep(h: Heartbeat, store: Store, events: seq<Event>) returns (s: Step)
    requires h.lease.Some? && |events| > 0 && events[0].TickAt?
    ensures s == Tick(h, store, events[0].now, events[0].down)
    ensures s.hb.lease.Some? && s.hb.nodeName == h.nodeName && s.hb.options == h.options
    ensures RunTicker(h, store, events).reports == (if s.err.Some? then [s.err] else []) + RunTicker(s.hb, s.store, events[1..]).reports
    ensures RunTicker(h, store, events).store == RunTicker(s.hb, s.store, events[1..]).store
    ensures RunTicker(h, store, events).cancelled == RunTicker(s.hb, s.store, events[1..]).cancelled
    ensures (HeldKey(s.hb) in s.store) == (HeldKey(h) in store) && s.store.Keys == store.Keys
    ensures s.err == TickError(HeldKey(h) in store, events[0].down)
  {
    s := Tick(h, store, events[0].now, events[0].down);
  }

  /** Whether a delete succeeds depends only on which leases exist. */
  lemma DeleteOutcomeByKeys(a: Store, b: Store, ns: string, name: string, down: bool)
    requires a.Keys == b.Keys
    ensures ApiDelete(a, ns, name, down).1 == ApiDelete(b, ns, name, down).1
  {
  }

  /** A run of ticks that all reach the server, on a lease the server
      still holds, reports nothing and leaves the stored lease renewed at
      the last tick. */
  lemma {:induction false} TicksRenewStoredLease(h: Heartbeat, store: Store, events: seq<Event>)
    requires h.lease.Some? && h.lease.value.namespace == h.options.leaseNS && h.lease.value.name == h.nodeName
    requires OwnKey(h) in store
    requires |events| > 0
    requires forall i :: 0 <= i < |events| ==> events[i].TickAt? && !events[i].down
    ensures var r := RunTicker(h, store, events);
      && r.reports == [] && !r.cancelled
      && Renewed(r.hb, r.store, events[|events| - 1].now)
      && r.hb.lease.value.spec.acquireTime == h.lease.value.spec.acquireTime
    decreases |events|
  {
    var s := Tick(h, store, events[0].now, false);
    if |events| > 1 {
      TicksRenewStoredLease(s.hb, s.store, events[1..]);
    }
  }

  /** Ticks alone never add or remove a lease. */
  lemma {:induction false} TicksKeepKeys(h: Heartbeat, store: Store, events: seq<Event>)
    requires h.lease.Some?
    requires forall i :: 0 <= i < |events| ==> events[i].TickAt?
    ensures RunTicker(h, store, events).store.Keys == store.Keys
    ensures !RunTicker(h, store, events).cancelled
    decreases |events|
  {
    if |events| > 0 {
      var s := TickerStep(h, store, events);
      TicksKeepKeys(s.hb, s.store, events[1..]);
    }
  }

  /** Cancelling while the server is reachable releases the owner's lease
      and sends a nil error last. */
  lemma {:induction false} CancelReleasesLease(h: Heartbeat, store: Store, events: seq<Event>)
    requires h.lease.Some? && OwnKey(h) in store
    requires FirstCancel(events) < |events| && !events[FirstCancel(events)].down
    ensures var r := RunTicker(h, store, events);
      && r.cancelled && OwnKey(h) !in r.store
      && |r.reports| > 0 && r.reports[|r.reports| - 1] == None
    decreases |events|
  {
    if events[0].TickAt? {
      var s := TickerStep(h, store, events);
      assert FirstCancel(events) == 1 + FirstCancel(events[1..]);
      assert events[1..][FirstCancel(events[1..])] == events[FirstCancel(events)];
      CancelReleasesLease(s.hb, s.store, events[1..]);
    }
  }

  const ContextCanceled: string := "context canceled"

  /** The ticker as written: the lease is released with the context whose
      cancellation triggered the release, and client-go fails a request on
      a cancelled context before it reaches the server. The ticks before the
      cancellation are those of `RunTicker`. */
  function RunTickerAsWritten(h: Heartbeat, store: Store, events: seq<Event>): TickerRun
    requires h.lease.Some?
  {
    var c := FirstCancel(events);
    var ticks := RunTicker(h, store, events[..c]);
    if c < |events| then ticks.(reports := ticks.reports + [Some(ContextCanceled)], cancelled := true)
    else ticks
  }

  /** As written, a cancellation never deletes a lease: every stored lease
      survives, and the last message is the cancelled context's error. */
  lemma AsWrittenNeverReleases(h: Heartbeat, store: Store, events: seq<Event>)
    requires h.lease.Some? && FirstCancel(events) < |events|
    ensures var r := RunTickerAsWritten(h, store, events);
      && r.cancelled && r.store.Keys == store.Keys
      && |r.reports| > 0 && r.reports[|r.reports| - 1] == Some(ContextCanceled)
  {
    TicksKeepKeys(h, store, events[..FirstCancel(events)]);
  }

  /** A held, stored lease and an immediate cancellation with the server
      reachable: the code as written leaves the lease in place and reports
      an error, where releasing it deletes it and reports nil. */
  lemma AsWrittenKeepsLease(h: Heartbeat, store: Store)
    requires h.lease.Some? && OwnKey(h) in store
    ensures OwnKey(h) in RunTickerAsWritten(h, store, [Cancel(false)]).store
    ensures RunTickerAsWritten(h, store, [Cancel(false)]).reports == [Some(ContextCanceled)]
    ensures OwnKey(h) !in RunTicker(h, store, [Cancel(false)]).store
    ensures RunTicker(h, store, [Cancel(false)]).reports == [None]
  {
    assert [Cancel(false)][..0] == [];
  }

  // ---------------------------------------------------------------------------
  // The observer

  /** A lease whose renew time plus its duration lies strictly before now. */
  predicate Expired(l: Lease, now: Time)
  {
    l.spec.renewTime + l.spec.leaseDurationSeconds as int * NanosPerSecond < now
  }

  /** The first expired lease of a listing, if any. */
  function FirstExpired(leases: seq<Lease>, now: Time): (r: Option<nat>)
    ensures r.None? <==> forall i :: 0 <= i < |leases| ==> !Expired(leases[i], now)
    ensures r.Some? ==> r.value < |leases| && Expired(leases[r.value], now)
    ensures r.Some? ==> forall j :: 0 <= j < r.value ==> !Expired(leases[j], now)
    decreases |leases|
  {
    if |leases| == 0 then None
    else if Expired(leases[0], now) then Some(0)
    else match FirstExpired(leases[1..], now)
      case None => None
      case Some(k) => Some(k + 1)
  }

  /** `isHeartBeatValid`: a failed listing, an empty namespace and an
      expired lease are errors (the first expired lease is named); it is
      never "invalid without an error". */
  function IsHeartBeatValid(leases: Result<seq<Lease>>, ns: string, now: Time): (r: Result<bool>)
    ensures r.Ok? ==> r.value
    ensures r.Ok? <==> leases.Ok? && |leases.value| > 0 && forall i :: 0 <= i < |leases.value| ==> !Expired(leases.value[i], now)
    ensures leases.Ok? && FirstExpired(leases.value, now).Some? ==> r == Err("lease " + leases.value[FirstExpired(leases.value, now).value].name + " is expired")
  {
    match leases
    case Err(e) => Err(e)
    case Ok(items) =>
      if |items| == 0 then Err("no lease found in namespace " + ns)
      else match FirstExpired(items, now)
        case Some(i) => Err("lease " + items[i].name + " is expired")
        case None => Ok(true)
  }

  /** A lease is still valid at the very instant its renewal plus its
      duration is reached, and one nanosecond later it makes the whole
      check fail, naming it, however fresh the leases listed before it are. */
  lemma ExpiryBoundary(l: Lease, others: seq<Lease>, ns: string)
    requires forall i :: 0 <= i < |others| ==>
               !Expired(others[i], l.spec.renewTime + l.spec.leaseDurationSeconds as int * NanosPerSecond + 1)
    ensures var deadline := l.spec.renewTime + l.spec.leaseDurationSeconds as int * NanosPerSecond;
      && IsHeartBeatValid(Ok([l]), ns, deadline) == Ok(true)
      && IsHeartBeatValid(Ok(others + [l]), ns, deadline + 1) == Err("lease " + l.name + " is expired")
  {
    var deadline := l.spec.renewTime + l.spec.leaseDurationSeconds as int * NanosPerSecond;
    var all := others + [l];
    assert all[|others|] == l;
    assert forall i :: 0 <= i < |others| ==> all[i] == others[i];
    var k := FirstExpired(all, deadline + 1);
    assert k.Some? && k.value == |others|;
  }

  /** A listing of a namespace: exactly the server's leases there. */
  predicate ListsNamespace(store: Store, ns: string, items: seq<Lease>)
  {
    && (forall i :: 0 <= i < |items| ==>
          items[i].namespace == ns && (ns, items[i].name) in store && items[i].spec == store[(ns, items[i].name)])
    && (forall k :: k in store && k.0 == ns ==> Lease(k.0, k.1, store[k]) in items)
  }

  /** The observer judges the owner's lease by the owner's renewal: after
      the owner renewed at `renew`, and with every other lease of the
      namespace fresh, the host's check at `now` succeeds exactly while
      `now` is at most the renewal plus the lease duration. */
  lemma HostSeesOwnersRenewal(h: Heartbeat, store: Store, renew: Time, items: seq<Lease>, now: Time)
    requires Renewed(h, store, renew)
    requires ListsNamespace(store, h.options.leaseNS, items)
    requires forall i :: 0 <= i < |items| && items[i].name != h.nodeName ==> !Expired(items[i], now)
    ensures (IsHeartBeatValid(Ok(items), h.options.leaseNS, now) == Ok(true))
              <==> (now <= renew + h.options.leaseDurationSeconds as int * NanosPerSecond)
  {
    var own := Lease(h.options.leaseNS, h.nodeName, store[OwnKey(h)]);
    assert own in items;
    var k :| 0 <= k < |items| && items[k] == own;
    forall i | 0 <= i < |items| && items[i].name == h.nodeName
      ensures items[i] == own
    {
    }
  }

  /** `runDPUHost`'s ticks: every failed check sends its error; cancellation
      sends nil and stops. */
  datatype HostEvent = Check(leases: Result<seq<Lease>>, now: Time) | HostCancel

  /** One observer tick: nothing is sent for a valid heartbeat; otherwise
      the check's error is sent (`Some(None)` would be a nil error). */
  function HostTick(leases: Result<seq<Lease>>, ns: string, now: Time): Option<Option<string>>
  {
    match IsHeartBeatValid(leases, ns, now)
    case Err(e) => Some(Some(e))
    case Ok(valid) => if valid then None else Some(None)
  }

  function RunDPUHost(ns: string, events: seq<HostEvent>): (reports: seq<Option<string>>)
    decreases |events|
  {
    if |events| == 0 then []
    else match events[0]
      case HostCancel => [None]
      case Check(leases, now) =>
        var rest := RunDPUHost(ns, events[1..]);
        match HostTick(leases, ns, now)
        case None => rest
        case Some(e) => [e] + rest
  }

  /** The position of the first cancellation, or the length when there is none. */
  function FirstHostCancel(events: seq<HostEvent>): (c: nat)
    ensures c <= |events|
    ensures c < |events| ==> events[c].HostCancel?
    ensures forall i :: 0 <= i < c ==> events[i].Check?
    decreases |events|
  {
    if |events| == 0 || events[0].HostCancel? then 0 else 1 + FirstHostCancel(events[1..])
  }

  /** Reference definition, built from the last event backwards: the
      errors of the failed checks among `checks`, in order. */
  function FailedChecks(ns: string, checks: seq<HostEvent>): seq<Option<string>>
    decreases |checks|
  {
    if |checks| == 0 then []
    else
      var e := checks[|checks| - 1];
      var v := if e.Check? then IsHeartBeatValid(e.leases, ns, e.now) else Ok(true);
      FailedChecks(ns, checks[..|checks| - 1]) + (if v.Err? then [Some(v.msg)] else [])
  }

  lemma {:induction false} FailedChecksCons(ns: string, e: HostEvent, checks: seq<HostEvent>)
    ensures var v := if e.Check? then IsHeartBeatValid(e.leases, ns, e.now) else Ok(true);
      FailedChecks(ns, [e] + checks) == (if v.Err? then [Some(v.msg)] else []) + FailedChecks(ns, checks)
    decreases |checks|
  {
    if |checks| > 0 {
      var init := checks[..|checks| - 1];
      assert ([e] + checks)[..|checks|] == [e] + init;
      assert ([e] + checks)[|checks|] == checks[|checks| - 1];
      FailedChecksCons(ns, e, init);
    } else {
      assert ([e] + checks)[..0] == [];
    }
  }

  /** The observer sends, in order, the error of every failed check before
      the first cancellation, and a single nil when cancelled. */
  lemma {:induction false} HostReportsEachFailure(ns: string, events: seq<HostEvent>)
    ensures var c := FirstHostCancel(events);
      RunDPUHost(ns, events) == FailedChecks(ns, events[..c]) + (if c < |events| then [None] else [])
    decreases |events|
  {
    if |events| > 0 && events[0].Check? {
      HostReportsEachFailure(ns, events[1..]);
      var c := FirstHostCancel(events);
      assert events[..c] == [events[0]] + events[1..][..c - 1];
      FailedChecksStep(ns, events[0], events[1..][..c - 1], if c < |events| then [None] else []);
    }
  }

  /** The reference definition advanced by one leading check. */
  lemma FailedChecksStep(ns: string, e: HostEvent, checks: seq<HostEvent>, tail: seq<Option<string>>)
    requires e.Check?
    ensures var v := IsHeartBeatValid(e.leases, ns, e.now);
      (if v.Err? then [Some(v.msg)] else []) + (FailedChecks(ns, checks) + tail)
      == FailedChecks(ns, [e] + checks) + tail
  {
    FailedChecksCons(ns, e, checks);
  }

  /** The observer reports exactly the failed checks before cancellation,
      each with a non-nil error, and a single nil once cancelled. */
  lemma {:induction false} HostReportsFailedChecks(ns: string, events: seq<HostEvent>)
    ensures var reports := RunDPUHost(ns, events);
      && |reports| <= |events|
      && (forall i :: 0 <= i < |reports| - 1 ==> reports[i].Some?)
      && (|reports| > 0 && reports[|reports| - 1].None? <==> exists i :: 0 <= i < |events| && events[i].HostCancel?)
      && ((forall i :: 0 <= i < |events| ==> events[i].Check? && IsHeartBeatValid(events[i].leases, ns, events[i].now).Ok?) ==> reports == [])
    decreases |events|
  {
    if |events| > 0 {
      HostReportsFailedChecks(ns, events[1..]);
      var reports := RunDPUHost(ns, events);
      var rest := RunDPUHost(ns, events[1..]);
      if events[0].Check? {
        assert (exists i :: 0 <= i < |events| && events[i].HostCancel?) <==> (exists i :: 0 <= i < |events[1..]| && events[1..][i].HostCancel?) by {
          if exists i :: 0 <= i < |events| && events[i].HostCancel? {
            var i :| 0 <= i < |events| && events[i].HostCancel?;
            assert events[1..][i - 1].HostCancel?;
          }
        }
      } else {
        assert events[0].HostCancel?;
      }
    }
  }
}
