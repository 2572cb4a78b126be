/** One relay as a transition system: the two worker steps and the control operations that attach and
    detach either side.

    A worker step is one call of relay_vm2vf_traffic or relay_vf2vm_traffic and is atomic. Control
    operations on the relay are serialised; the two that wait for the workers are split into a first
    half, any number of worker steps, and a second half that runs when the wait succeeds or times
    out. What DPDK and vhost return is part of the event. Counters do not wrap around. */
module RelayModel {
  import opened Common
  import opened Transmit

  const BURST_LEN := 32

  datatype VioState = VioUninit | VioReady | VioRemoving1 | VioRemoving2
  datatype VfState = VfUninit | VfAdded | VfReady | VfRemoving1 | VfRemoving2
  /** The control operation in progress. */
  datatype Waiting = Idle | ForVf | ForVirtio

  /** States and CPUs of the two sides. */
  datatype Ctl = Ctl(vio: VioState, vf: VfState, vioCpu: int, vfCpu: int, waiting: Waiting)

  /** One direction: the live window of its 32-slot buffer, everything it ever received, delivered
      and dropped, and its three packet counters. */
  datatype Lane = Lane(window: seq<Mbuf>, received: seq<Mbuf>, delivered: seq<Mbuf>, dropped: seq<Mbuf>,
                       rxCount: nat, txCount: nat, dropCount: nat)

  /** Packet pools are numbered in the order of their creation. */
  datatype Pools = Pools(current: Option<nat>, created: nat, freed: seq<nat>)

  datatype Relay = Relay(ctl: Ctl, vm2vf: Lane, vf2vm: Lane, pools: Pools)

  /** How an attempt to attach a VF or bond ends: refused before any pool is needed, failed after the
      pool exists, or attached on a CPU. */
  datatype Attach = Refused | FailedWithPool | Attached(cpu: nat)

  datatype Event =
    | Vm2Vf(burst: seq<Mbuf>, room: nat)
    | Vf2Vm(burst: seq<Mbuf>, rxBits: set<nat>, accepted: seq<nat>)
    | AddVf(outcome: Attach)
    | AddBond(newPool: bool, outcome: Attach)
    | BeginRemoveVf
    | EndRemoveVf(detached: bool)
    | AddVirtio(newPool: bool, cpu: nat, vfCpu: nat, started: bool)
    | AddVirtioFails(needPool: bool, newPool: bool, strayCpu: Option<nat>)
    | BeginRemoveVirtio
    | EndRemoveVirtio
    | MigrateCpus(vioTarget: Option<nat>, vfTarget: Option<nat>)

  // ---------------------------------------------------------------- states and CPUs

  function AttachCtl(c: Ctl, outcome: Attach): Ctl {
    if c.vf != VfUninit || !outcome.Attached? then c
    else c.(vfCpu := outcome.cpu, vf := if c.vio == VioReady then VfReady else VfAdded)
  }

  function CtlStep(c: Ctl, e: Event): Ctl {
    match e
    case Vm2Vf(_, _) =>
      // a REMOVING1 virtio side is passed on to the other thread, if there is one
      c.(vio := if c.vio != VioRemoving1 then c.vio else if c.vfCpu == NO_CPU then VioUninit else VioRemoving2,
         vf := if c.vf == VfRemoving2 then VfUninit else c.vf)
    case Vf2Vm(_, _, _) =>
      c.(vio := if c.vio == VioRemoving2 then VioUninit else c.vio,
         vf := if c.vf != VfRemoving1 then c.vf else if c.vioCpu == NO_CPU then VfUninit else VfRemoving2)
    case AddVf(outcome) => AttachCtl(c, outcome)
    case AddBond(_, outcome) => AttachCtl(c, outcome)
    case BeginRemoveVf =>
      if c.vf == VfAdded || c.vf == VfReady then c.(vf := VfRemoving1, waiting := ForVf) else c
    case EndRemoveVf(_) =>
      // a VF that was not released in time keeps its state and its CPU
      if c.vf == VfUninit then c.(waiting := Idle, vfCpu := NO_CPU) else c.(waiting := Idle)
    case AddVirtio(_, cpu, vfCpu, started) =>
      if c.vio != VioUninit then c
      else if c.vf != VfAdded then c.(vio := VioReady, vioCpu := cpu)
      else c.(vio := VioReady, vioCpu := cpu, vfCpu := vfCpu, vf := if started then VfReady else VfAdded)
    case AddVirtioFails(_, _, strayCpu) =>
      if c.vio == VioUninit && strayCpu.Some? then c.(vioCpu := strayCpu.value) else c
    case BeginRemoveVirtio =>
      if c.vio == VioReady then c.(vio := VioRemoving1, waiting := ForVirtio) else c
    case EndRemoveVirtio =>
      // carried out whether or not the workers have released the virtio side
      c.(vioCpu := NO_CPU, waiting := Idle, vf := if c.vf == VfReady then VfAdded else c.vf)
    case MigrateCpus(vioTarget, vfTarget) =>
      // a target that is not an initialised worker is refused
      c.(vioCpu := if vioTarget.Some? && c.vio == VioReady then vioTarget.value else c.vioCpu,
         vfCpu := if vfTarget.Some? && (c.vf == VfAdded || c.vf == VfReady) then vfTarget.value else c.vfCpu)
  }

  // ---------------------------------------------------------------- packets

  function Receive(l: Lane, burst: seq<Mbuf>): Lane {
    if l.window != [] then l
    else l.(window := burst, received := l.received + burst, rxCount := l.rxCount + |burst|)
  }

  /** Frees the window, last packet first. */
  function Drop(l: Lane): Lane {
    l.(window := [], dropped := l.dropped + Backwards(l.window, |l.window|, 0), dropCount := l.dropCount + |l.window|)
  }

  function Deliver(l: Lane, sent: seq<Mbuf>, kept: seq<Mbuf>): Lane {
    l.(window := kept, delivered := l.delivered + sent, txCount := l.txCount + |sent|)
  }

  /** Towards the NIC: a burst sends a prefix of the window. */
  function SendToVf(l: Lane, room: nat): Lane {
    Deliver(l, l.window[..Min(room, |l.window|)], Suffix(l.window, Min(room, |l.window|)))
  }

  function Accepted(accepted: seq<nat>, n: nat): (k: nat)
    ensures k <= n
  {
    if |accepted| == 0 then 0 else Min(accepted[0], n)
  }

  /** The bitmap of enabled receive queues is above 1: some queue other than queue 0 is enabled. */
  predicate Multiqueue(rxBits: set<nat>) {
    rxBits - {0} != {}
  }

  /** Towards the VM: in multiqueue mode the packets are batched by queue. */
  function SendToVm(l: Lane, rxBits: set<nat>, accepted: seq<nat>): Lane {
    if Multiqueue(rxBits) then Deliver(l, Sent(l.window, |rxBits|, accepted), Kept(l.window, |rxBits|, accepted))
    else
      var k := Accepted(accepted, |l.window|);
      Deliver(l, l.window[..k], Suffix(l.window, k))
  }

  /** Both halves of a step of the VM-to-VF lane: fetch when empty, then send or drop. */
  function Vm2VfTraffic(c: Ctl, l: Lane, burst: seq<Mbuf>, room: nat): Lane {
    var a := if c.vio == VioReady then Receive(l, burst) else l;
    if c.vf == VfReady then SendToVf(a, room) else Drop(a)
  }

  function Vf2VmTraffic(c: Ctl, l: Lane, burst: seq<Mbuf>, rxBits: set<nat>, accepted: seq<nat>): Lane {
    var a := if c.vf == VfReady then Receive(l, burst) else l;
    if c.vio == VioReady then SendToVm(a, rxBits, accepted) else Drop(a)
  }

  function Vm2VfLane(c: Ctl, l: Lane, e: Event): Lane {
    match e
    case Vm2Vf(burst, room) =>
      var a := Vm2VfTraffic(c, l, burst, room);
      if c.vf == VfRemoving2 then Drop(a) else a
    case Vf2Vm(_, _, _) => if c.vio == VioRemoving2 then Drop(l) else l
    case _ => l
  }

  function Vf2VmLane(c: Ctl, l: Lane, e: Event): Lane {
    match e
    case Vm2Vf(_, _) => if c.vf == VfRemoving2 then Drop(l) else l
    case Vf2Vm(burst, rxBits, accepted) =>
      var a := Vf2VmTraffic(c, l, burst, rxBits, accepted);
      if c.vio == VioRemoving2 then Drop(a) else a
    case _ => l
  }

  // ---------------------------------------------------------------- pools

  function NewPool(p: Pools): Pools {
    Pools(Some(p.created), p.created + 1, p.freed)
  }

  function FreePool(p: Pools): Pools {
    if p.current.None? then p else Pools(None, p.created, p.freed + [p.current.value])
  }

  /** A missing pool is created. */
  function EnsurePool(p: Pools): Pools {
    if p.current.None? then NewPool(p) else p
  }

  /** migrate_mempool: a new pool takes the place of the old one, which is freed. */
  function MigratePool(p: Pools): Pools {
    NewPool(FreePool(p))
  }

  /** What add_virtio does: create a missing pool, or move it to the guest's NUMA node. */
  function AlignPool(p: Pools, newPool: bool): Pools {
    if p.current.Some? && newPool then MigratePool(p) else EnsurePool(p)
  }

  function PoolStep(c: Ctl, p: Pools, e: Event): Pools {
    match e
    case AddVf(outcome) => if c.vf != VfUninit || outcome.Refused? then p else EnsurePool(p)
    case AddBond(newPool, outcome) =>
      if c.vf != VfUninit then p
      else
        var q := if newPool then MigratePool(p) else p;
        if outcome.Refused? then q else EnsurePool(q)
    case EndRemoveVf(detached) =>
      if c.vf == VfUninit && detached && c.vio == VioUninit then FreePool(p) else p
    case AddVirtio(newPool, _, _, _) => if c.vio != VioUninit then p else AlignPool(p, newPool)
    case AddVirtioFails(needPool, newPool, _) =>
      if c.vio == VioUninit && needPool then AlignPool(p, newPool) else p
    case EndRemoveVirtio => if c.vf == VfReady then p else FreePool(p)
    case _ => p
  }

  // ---------------------------------------------------------------- runs

  function InitialCtl(): Ctl {
    Ctl(VioUninit, VfUninit, NO_CPU, NO_CPU, Idle)
  }

  function EmptyLane(): Lane {
    Lane([], [], [], [], 0, 0, 0)
  }

  function Initial(): Relay {
    Relay(InitialCtl(), EmptyLane(), EmptyLane(), Pools(None, 0, []))
  }

  function Apply(s: Relay, e: Event): Relay {
    Relay(CtlStep(s.ctl, e), Vm2VfLane(s.ctl, s.vm2vf, e), Vf2VmLane(s.ctl, s.vf2vm, e), PoolStep(s.ctl, s.pools, e))
  }

  /** Each received buffer holds a new packet. */
  ghost predicate NewPackets(l: Lane, burst: seq<Mbuf>) {
    && |burst| <= BURST_LEN
    && AllDifferent(burst)
    && forall i :: 0 <= i < |burst| ==> burst[i] !in l.received
  }

  /** A worker serves a direction only if the direction has a CPU; control operations wait for each
      other. */
  predicate CtlEnabled(c: Ctl, e: Event) {
    match e
    case Vm2Vf(_, _) => c.vioCpu >= 0
    case Vf2Vm(_, _, _) => c.vfCpu >= 0
    case EndRemoveVf(_) => c.waiting == ForVf
    case EndRemoveVirtio => c.waiting == ForVirtio
    case _ => c.waiting == Idle
  }

  /** In multiqueue mode, the queue numbers of new and buffered packets are below the number of queues that
      are enabled now, by which the batches are indexed. */
  ghost predicate QueuesFit(l: Lane, e: Event) {
    e.Vf2Vm? && Multiqueue(e.rxBits) ==> QueuesBelow(e.burst, |e.rxBits|) && QueuesBelow(l.window, |e.rxBits|)
  }

  /** A burst is at most as long as the buffer. */
  predicate BurstFits(e: Event) {
    e.Vm2Vf? || e.Vf2Vm? ==> |e.burst| <= BURST_LEN
  }

  ghost predicate Enabled(s: Relay, e: Event) {
    && CtlEnabled(s.ctl, e)
    && (e.Vm2Vf? ==> NewPackets(s.vm2vf, e.burst))
    && (e.Vf2Vm? ==> NewPackets(s.vf2vm, e.burst))
    && QueuesFit(s.vf2vm, e)
  }

  ghost predicate CanRun(s: Relay, es: seq<Event>)
    decreases |es|
  {
    es == [] || (Enabled(s, es[0]) && CanRun(Apply(s, es[0]), es[1..]))
  }

  function After(s: Relay, es: seq<Event>): Relay
    decreases |es|
  {
    if es == [] then s else After(Apply(s, es[0]), es[1..])
  }
}
