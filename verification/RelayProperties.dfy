/** What every run of a relay keeps, and when its removals complete. */
module RelayProperties {
  import opened Common
  import opened Transmit
  import opened RelayModel

  // ---------------------------------------------------------------- conservation

  /** Every received packet is delivered, dropped or in the window, equally often; the counters count
      them, and no packet was received twice. */
  ghost predicate Balanced(l: Lane, x: Mbuf) {
    && Count(l.received, x) == Count(l.delivered, x) + Count(l.dropped, x) + Count(l.window, x)
    && |l.received| == |l.delivered| + |l.dropped| + |l.window|
    && l.rxCount == |l.received| && l.txCount == |l.delivered| && l.dropCount == |l.dropped|
    && |l.window| <= BURST_LEN
    && AllDifferent(l.received)
  }

  lemma {:induction false} ReceiveKeepsBalance(l: Lane, burst: seq<Mbuf>, x: Mbuf)
    requires Balanced(l, x) && NewPackets(l, burst)
    ensures Balanced(Receive(l, burst), x)
  {
    CountConcat(l.received, burst, x);
  }

  lemma {:induction false} DropKeepsBalance(l: Lane, x: Mbuf)
    requires Balanced(l, x)
    ensures Balanced(Drop(l), x)
  {
    CountConcat(l.dropped, Backwards(l.window, |l.window|, 0), x);
    CountBackwards(l.window, |l.window|, 0, x);
  }

  lemma {:induction false} DeliverKeepsBalance(l: Lane, sent: seq<Mbuf>, kept: seq<Mbuf>, x: Mbuf)
    requires Balanced(l, x) && Count(sent, x) + Count(kept, x) == Count(l.window, x) && |sent| + |kept| == |l.window|
    ensures Balanced(Deliver(l, sent, kept), x)
  {
    CountConcat(l.delivered, sent, x);
  }

  lemma {:induction false} SendToVfKeepsBalance(l: Lane, room: nat, x: Mbuf)
    requires Balanced(l, x)
    ensures Balanced(SendToVf(l, room), x)
  {
    var k := Min(room, |l.window|);
    CountSlices(l.window, k, x);
    DeliverKeepsBalance(l, l.window[..k], Suffix(l.window, k), x);
  }

  lemma {:induction false} SendToVmKeepsBalance(l: Lane, rxBits: set<nat>, accepted: seq<nat>, x: Mbuf)
    requires Balanced(l, x) && (Multiqueue(rxBits) ==> QueuesBelow(l.window, |rxBits|))
    ensures Balanced(SendToVm(l, rxBits, accepted), x)
  {
    if Multiqueue(rxBits) {
      TransmitConserves(l.window, |rxBits|, accepted, x);
      DeliverKeepsBalance(l, Sent(l.window, |rxBits|, accepted), Kept(l.window, |rxBits|, accepted), x);
    } else {
      var k := Accepted(accepted, |l.window|);
      CountSlices(l.window, k, x);
      DeliverKeepsBalance(l, l.window[..k], Suffix(l.window, k), x);
    }
  }

  lemma {:induction false} FetchKeepsBalance(l: Lane, burst: seq<Mbuf>, fetch: bool, x: Mbuf) returns (a: Lane)
    requires Balanced(l, x) && NewPackets(l, burst)
    ensures a == (if fetch then Receive(l, burst) else l) && Balanced(a, x)
    ensures a.window == l.window || a.window == burst
  {
    if fetch {
      ReceiveKeepsBalance(l, burst, x);
    }
    a := if fetch then Receive(l, burst) else l;
  }

  lemma {:induction false} Vm2VfTrafficKeepsBalance(c: Ctl, l: Lane, burst: seq<Mbuf>, room: nat, x: Mbuf)
    requires Balanced(l, x) && NewPackets(l, burst)
    ensures Balanced(Vm2VfTraffic(c, l, burst, room), x)
  {
    var a := FetchKeepsBalance(l, burst, c.vio == VioReady, x);
    if c.vf == VfReady {
      SendToVfKeepsBalance(a, room, x);
    } else {
      DropKeepsBalance(a, x);
    }
  }

  lemma {:induction false} Vf2VmTrafficKeepsBalance(c: Ctl, l: Lane, burst: seq<Mbuf>, rxBits: set<nat>, accepted: seq<nat>, x: Mbuf)
    requires Balanced(l, x) && NewPackets(l, burst)
    requires Multiqueue(rxBits) ==> QueuesBelow(burst, |rxBits|) && QueuesBelow(l.window, |rxBits|)
    ensures Balanced(Vf2VmTraffic(c, l, burst, rxBits, accepted), x)
  {
    var a := FetchKeepsBalance(l, burst, c.vf == VfReady, x);
    if c.vio == VioReady {
      SendToVmKeepsBalance(a, rxBits, accepted, x);
    } else {
      DropKeepsBalance(a, x);
    }
  }

  lemma {:induction false} Vm2VfKeepsBalance(c: Ctl, l: Lane, e: Event, x: Mbuf)
    requires Balanced(l, x) && (e.Vm2Vf? ==> NewPackets(l, e.burst))
    ensures Balanced(Vm2VfLane(c, l, e), x)
  {
    match e
    case Vm2Vf(burst, room) =>
      Vm2VfTrafficKeepsBalance(c, l, burst, room, x);
      DropKeepsBalance(Vm2VfTraffic(c, l, burst, room), x);
    case Vf2Vm(_, _, _) =>
      DropKeepsBalance(l, x);
    case _ =>
  }

  lemma {:induction false} Vf2VmKeepsBalance(c: Ctl, l: Lane, e: Event, x: Mbuf)
    requires Balanced(l, x) && (e.Vf2Vm? ==> NewPackets(l, e.burst))
    requires QueuesFit(l, e)
    ensures Balanced(Vf2VmLane(c, l, e), x)
  {
    match e
    case Vm2Vf(_, _) =>
      DropKeepsBalance(l, x);
    case Vf2Vm(burst, rxBits, accepted) =>
      Vf2VmTrafficKeepsBalance(c, l, burst, rxBits, accepted, x);
      DropKeepsBalance(Vf2VmTraffic(c, l, burst, rxBits, accepted), x);
    case _ =>
  }

  lemma {:induction false} RunKeepsBalance(s: Relay, es: seq<Event>, x: Mbuf)
    requires Balanced(s.vm2vf, x) && Balanced(s.vf2vm, x) && CanRun(s, es)
    ensures Balanced(After(s, es).vm2vf, x) && Balanced(After(s, es).vf2vm, x)
    decreases |es|
  {
    if es != [] {
      Vm2VfKeepsBalance(s.ctl, s.vm2vf, es[0], x);
      Vf2VmKeepsBalance(s.ctl, s.vf2vm, es[0], x);
      RunKeepsBalance(Apply(s, es[0]), es[1..], x);
    }
  }

  /** The counter equation of a direction; its buffer never overflows. */
  predicate CountersAgree(l: Lane) {
    l.rxCount == l.txCount + l.dropCount + |l.window| && |l.window| <= BURST_LEN
  }

  lemma {:induction false} RunKeepsCounters(s: Relay, es: seq<Event>, x: Mbuf)
    requires Balanced(s.vm2vf, x) && Balanced(s.vf2vm, x) && CanRun(s, es)
    ensures CountersAgree(After(s, es).vm2vf) && CountersAgree(After(s, es).vf2vm)
  {
    RunKeepsBalance(s, es, x);
  }

  lemma {:induction false} SendToVmKeepsCounters(l: Lane, rxBits: set<nat>, accepted: seq<nat>)
    requires CountersAgree(l) && (Multiqueue(rxBits) ==> QueuesBelow(l.window, |rxBits|))
    ensures CountersAgree(SendToVm(l, rxBits, accepted))
  {
    if Multiqueue(rxBits) {
      SentPlusKeptSize(l.window, |rxBits|, accepted);
      SizePartition(l.window, |l.window|, |rxBits|);
    }
  }

  lemma {:induction false} Vf2VmKeepsCounters(c: Ctl, l: Lane, e: Event)
    requires CountersAgree(l) && BurstFits(e) && QueuesFit(l, e)
    ensures CountersAgree(Vf2VmLane(c, l, e))
  {
    if e.Vf2Vm? && c.vio == VioReady {
      SendToVmKeepsCounters(if c.vf == VfReady then Receive(l, e.burst) else l, e.rxBits, e.accepted);
    }
  }

  /** Packet conservation: the counter equations of both directions, in every reachable state. */
  lemma {:induction false} PacketConservation(es: seq<Event>)
    requires CanRun(Initial(), es)
    ensures CountersAgree(After(Initial(), es).vm2vf) && CountersAgree(After(Initial(), es).vf2vm)
  {
    var x := Mbuf(|es|, |es|, |es|);
    RunKeepsCounters(Initial(), es, x);
  }

  lemma {:induction false} CountedOnce<T>(s: seq<T>, n: nat, x: T)
    requires AllDifferent(s) && n <= |s|
    ensures CountIn(s, n, x) == if x in s[..n] then 1 else 0
  {
    if n > 0 {
      CountedOnce(s, n - 1, x);
      assert s[..n] == s[..n - 1] + [s[n - 1]];
    }
  }

  /** Every packet that a direction received is in exactly one place, and no other packet is. */
  predicate OneOwner(l: Lane, m: Mbuf) {
    Count(l.delivered, m) + Count(l.dropped, m) + Count(l.window, m) == if m in l.received then 1 else 0
  }

  lemma {:induction false} BalancedMeansOneOwner(l: Lane, m: Mbuf)
    requires Balanced(l, m)
    ensures OneOwner(l, m)
  {
    CountedOnce(l.received, |l.received|, m);
    assert l.received[..|l.received|] == l.received;
  }

  /** No packet is sent twice, freed twice, sent and freed, or lost, in any run. */
  lemma {:induction false} ExactlyOneOwner(es: seq<Event>, m: Mbuf)
    requires CanRun(Initial(), es)
    ensures OneOwner(After(Initial(), es).vm2vf, m) && OneOwner(After(Initial(), es).vf2vm, m)
  {
    RunKeepsBalance(Initial(), es, m);
    BalancedMeansOneOwner(After(Initial(), es).vm2vf, m);
    BalancedMeansOneOwner(After(Initial(), es).vf2vm, m);
  }

  // ---------------------------------------------------------------- teardown

  /** An attached side has a CPU, and a started VF has a VM or one that is just leaving. */
  predicate Wired(c: Ctl) {
    && c.vioCpu >= NO_CPU && c.vfCpu >= NO_CPU
    && (c.vio == VioReady ==> c.vioCpu >= 0)
    && (c.vf != VfUninit ==> c.vfCpu >= 0)
    && (c.vf == VfReady ==> c.vio == VioReady || c.waiting == ForVirtio)
    && (c.waiting == ForVirtio ==> c.vio != VioReady)
    && (c.waiting == ForVf ==> c.vf != VfAdded && c.vf != VfReady)
  }

  lemma {:induction false} StepKeepsWired(c: Ctl, e: Event)
    requires Wired(c) && CtlEnabled(c, e)
    ensures Wired(CtlStep(c, e))
  {
  }

  /** Nothing is buffered on behalf of a side that is gone. */
  predicate Drained(s: Relay) {
    && (s.ctl.vio == VioUninit ==> |s.vm2vf.window| == 0 && |s.vf2vm.window| == 0)
    && (s.ctl.vf == VfUninit ==> |s.vf2vm.window| == 0)
  }

  lemma {:induction false} StaysEmpty(c: Ctl, l: Lane, burst: seq<Mbuf>, rxBits: set<nat>, accepted: seq<nat>)
    requires c.vf != VfReady && |l.window| == 0
    ensures |Vf2VmTraffic(c, l, burst, rxBits, accepted).window| == 0
  {
    NothingToTransmit(l.window, |rxBits|, accepted);
  }

  lemma {:induction false} Vf2VmStepDrains(c: Ctl, l: Lane, e: Event)
    requires Wired(c) && CtlEnabled(c, e)
    requires c.vio == VioUninit || c.vf == VfUninit ==> |l.window| == 0
    ensures CtlStep(c, e).vio == VioUninit || CtlStep(c, e).vf == VfUninit ==> |Vf2VmLane(c, l, e).window| == 0
  {
    if e.Vf2Vm? && c.vf != VfReady && |l.window| == 0 {
      StaysEmpty(c, l, e.burst, e.rxBits, e.accepted);
    }
  }

  lemma {:induction false} RunKeepsDrained(s: Relay, es: seq<Event>)
    requires Wired(s.ctl) && Drained(s) && CanRun(s, es)
    ensures Wired(After(s, es).ctl) && Drained(After(s, es))
    decreases |es|
  {
    if es != [] {
      StepKeepsWired(s.ctl, es[0]);
      Vf2VmStepDrains(s.ctl, s.vf2vm, es[0]);
      RunKeepsDrained(Apply(s, es[0]), es[1..]);
    }
  }

  /** Teardown leaves nothing behind, in every reachable state and whatever timed out. */
  lemma {:induction false} TeardownLeavesNothing(es: seq<Event>)
    requires CanRun(Initial(), es)
    ensures Drained(After(Initial(), es))
  {
    RunKeepsDrained(Initial(), es);
  }

  /** Whenever add_virtio or the bond attach may move the pool, the two assertions of
      migrate_mempool hold: the VF is not running and no received packet is buffered. */
  lemma {:induction false} MigrateAssertionsHold(es: seq<Event>)
    requires CanRun(Initial(), es) && After(Initial(), es).ctl.waiting == Idle
    requires After(Initial(), es).ctl.vio == VioUninit || After(Initial(), es).ctl.vf == VfUninit
    ensures After(Initial(), es).ctl.vf != VfReady && |After(Initial(), es).vf2vm.window| == 0
  {
    RunKeepsDrained(Initial(), es);
  }

  // ---------------------------------------------------------------- progress of removals

  predicate WorkerSteps(es: seq<Event>) {
    forall i :: 0 <= i < |es| ==> es[i].Vm2Vf? || es[i].Vf2Vm?
  }

  /** `es` has a step that satisfies `p`, or one that satisfies `p` and a later one that satisfies `q`. */
  predicate Occurs(es: seq<Event>, p: Event -> bool) {
    es != [] && (p(es[0]) || Occurs(es[1..], p))
  }

  predicate OccursThen(es: seq<Event>, p: Event -> bool, q: Event -> bool) {
    es != [] && ((p(es[0]) && Occurs(es[1..], q)) || OccursThen(es[1..], p, q))
  }

  const IsVm2Vf := (e: Event) => e.Vm2Vf?
  const IsVf2Vm := (e: Event) => e.Vf2Vm?

  /** What a schedule of worker steps must contain for the virtio removal to be over at its end. */
  predicate VirtioGone(c: Ctl, es: seq<Event>) {
    match c.vio
    case VioUninit => true
    case VioReady => false
    case VioRemoving1 => if c.vfCpu == NO_CPU then Occurs(es, IsVm2Vf) else OccursThen(es, IsVm2Vf, IsVf2Vm)
    case VioRemoving2 => Occurs(es, IsVf2Vm)
  }

  predicate VfGone(c: Ctl, es: seq<Event>) {
    match c.vf
    case VfUninit => true
    case VfAdded => false
    case VfReady => false
    case VfRemoving1 => if c.vioCpu == NO_CPU then Occurs(es, IsVf2Vm) else OccursThen(es, IsVf2Vm, IsVm2Vf)
    case VfRemoving2 => Occurs(es, IsVm2Vf)
  }

  lemma {:induction false} LaterOccurrence(es: seq<Event>, p: Event -> bool, q: Event -> bool)
    requires OccursThen(es, p, q)
    ensures Occurs(es, q)
  {
    if !(p(es[0]) && Occurs(es[1..], q)) {
      LaterOccurrence(es[1..], p, q);
    }
  }

  /** A virtio removal completes under a schedule of worker steps exactly when the schedule has a
      vm2vf step and, if there is a second thread, a vf2vm step after it. This holds whatever the VF
      side is doing meanwhile, including being removed itself. */
  lemma {:induction false} VirtioRemovalCompletesExactlyWhen(s: Relay, es: seq<Event>)
    requires WorkerSteps(es)
    ensures After(s, es).ctl.vio == VioUninit <==> VirtioGone(s.ctl, es)
    decreases |es|
  {
    if es != [] {
      VirtioRemovalCompletesExactlyWhen(Apply(s, es[0]), es[1..]);
      assert es[0].Vm2Vf? || es[0].Vf2Vm?;
      if OccursThen(es[1..], IsVm2Vf, IsVf2Vm) {
        LaterOccurrence(es[1..], IsVm2Vf, IsVf2Vm);
      }
    }
  }

  /** The mirror image for the VF side. */
  lemma {:induction false} VfRemovalCompletesExactlyWhen(s: Relay, es: seq<Event>)
    requires WorkerSteps(es)
    ensures After(s, es).ctl.vf == VfUninit <==> VfGone(s.ctl, es)
    decreases |es|
  {
    if es != [] {
      VfRemovalCompletesExactlyWhen(Apply(s, es[0]), es[1..]);
      assert es[0].Vm2Vf? || es[0].Vf2Vm?;
      if OccursThen(es[1..], IsVf2Vm, IsVm2Vf) {
        LaterOccurrence(es[1..], IsVf2Vm, IsVm2Vf);
      }
    }
  }

  function VioRank(v: VioState): nat {
    match v case VioReady => 0 case VioRemoving1 => 1 case VioRemoving2 => 2 case VioUninit => 3
  }

  function VfRank(v: VfState): nat {
    match v case VfAdded => 0 case VfReady => 0 case VfRemoving1 => 1 case VfRemoving2 => 2 case VfUninit => 3
  }

  /** Workers only ever move a side forward, and never start a removal themselves. */
  lemma {:induction false} WorkersOnlyMoveForward(s: Relay, es: seq<Event>)
    requires WorkerSteps(es)
    ensures VioRank(s.ctl.vio) <= VioRank(After(s, es).ctl.vio) && VfRank(s.ctl.vf) <= VfRank(After(s, es).ctl.vf)
    ensures s.ctl.vio == VioReady ==> After(s, es).ctl.vio == VioReady
    ensures s.ctl.vf == VfReady || s.ctl.vf == VfAdded ==> After(s, es).ctl.vf == s.ctl.vf
    decreases |es|
  {
    if es != [] {
      WorkersOnlyMoveForward(Apply(s, es[0]), es[1..]);
      assert es[0].Vm2Vf? || es[0].Vf2Vm?;
    }
  }

  // ---------------------------------------------------------------- a removal that timed out

  /** The virtio side was given up before the vm2vf worker made its first handshake step. */
  predicate Stranded(c: Ctl) {
    c.vio == VioRemoving1 && c.vioCpu == NO_CPU && c.waiting != ForVirtio
  }

  /** Such a relay never leaves REMOVING1, so it never accepts a VM again, whatever happens later. */
  lemma {:induction false} StrandedForever(s: Relay, es: seq<Event>)
    requires Stranded(s.ctl) && CanRun(s, es)
    ensures Stranded(After(s, es).ctl)
    decreases |es|
  {
    if es != [] {
      StrandedForever(Apply(s, es[0]), es[1..]);
    }
  }

  /** remove_virtio strands a relay exactly when no vm2vf step ran while it waited. */
  lemma {:induction false} StrandedExactlyWhen(s: Relay, es: seq<Event>)
    requires s.ctl.vio == VioReady && WorkerSteps(es)
    ensures Stranded(After(After(Apply(s, BeginRemoveVirtio), es), [EndRemoveVirtio]).ctl) <==> !Occurs(es, IsVm2Vf)
  {
    StillRemoving1(Apply(s, BeginRemoveVirtio), es);
    var e := After(Apply(s, BeginRemoveVirtio), es);
    assert After(e, [EndRemoveVirtio]) == Apply(e, EndRemoveVirtio);
  }

  lemma {:induction false} StillRemoving1(s: Relay, es: seq<Event>)
    requires WorkerSteps(es)
    ensures After(s, es).ctl.vio == VioRemoving1 <==> s.ctl.vio == VioRemoving1 && !Occurs(es, IsVm2Vf)
    decreases |es|
  {
    if es != [] {
      StillRemoving1(Apply(s, es[0]), es[1..]);
      assert es[0].Vm2Vf? || es[0].Vf2Vm?;
    }
  }

  // ---------------------------------------------------------------- pools

  /** Pools are created and freed at most once, the current one is live, and none leaks: all others
      have been freed. */
  predicate PoolsSound(p: Pools) {
    && p.created == |p.freed| + (if p.current.Some? then 1 else 0)
    && (p.current.Some? ==> p.current.value < p.created && p.current.value !in p.freed)
    && (forall i :: 0 <= i < |p.freed| ==> p.freed[i] < p.created)
    && (forall i, j :: 0 <= i < j < |p.freed| ==> p.freed[i] != p.freed[j])
  }

  /** A connected VM, a running VF, and a VM that is being removed have a pool. */
  predicate PoolInUse(c: Ctl, p: Pools) {
    c.vio == VioReady || c.vf == VfReady || c.waiting == ForVirtio ==> p.current.Some?
  }

  lemma {:induction false} StepKeepsSound(c: Ctl, p: Pools, e: Event)
    requires PoolsSound(p)
    ensures PoolsSound(PoolStep(c, p, e))
  {
  }

  lemma {:induction false} StepKeepsPools(s: Relay, e: Event)
    requires Wired(s.ctl) && PoolsSound(s.pools) && PoolInUse(s.ctl, s.pools) && CtlEnabled(s.ctl, e)
    ensures PoolsSound(Apply(s, e).pools) && PoolInUse(Apply(s, e).ctl, Apply(s, e).pools)
  {
    StepKeepsSound(s.ctl, s.pools, e);
  }

  /** A VF that was added but is not running has a pool, and no VM is there to start it. */
  predicate AddedVfHasPool(c: Ctl, p: Pools) {
    c.vf == VfAdded ==> p.current.Some? && c.vio != VioReady && c.waiting != ForVirtio
  }

  /** The device start inside add_virtio succeeds. */
  predicate Starts(c: Ctl, e: Event) {
    e.AddVirtio? && c.vio == VioUninit && c.vf == VfAdded ==> e.started
  }

  predicate StartsSucceed(s: Relay, es: seq<Event>)
    decreases |es|
  {
    es == [] || (Starts(s.ctl, es[0]) && StartsSucceed(Apply(s, es[0]), es[1..]))
  }

  lemma {:induction false} RunKeepsPools(s: Relay, es: seq<Event>)
    requires Wired(s.ctl) && PoolsSound(s.pools) && PoolInUse(s.ctl, s.pools) && CanRun(s, es)
    ensures Wired(After(s, es).ctl) && PoolsSound(After(s, es).pools) && PoolInUse(After(s, es).ctl, After(s, es).pools)
    ensures AddedVfHasPool(s.ctl, s.pools) && StartsSucceed(s, es) ==> AddedVfHasPool(After(s, es).ctl, After(s, es).pools)
    decreases |es|
  {
    if es != [] {
      StepKeepsWired(s.ctl, es[0]);
      StepKeepsPools(s, es[0]);
      RunKeepsPools(Apply(s, es[0]), es[1..]);
    }
  }

  /** Pool lifetime over whole runs with failing attaches and timeouts: no pool is freed twice or leaks, the
      current pool is live, every attached side has one, and a VF runs only with a VM connected. */
  lemma {:induction false} PoolLifetime(es: seq<Event>)
    requires CanRun(Initial(), es) && StartsSucceed(Initial(), es)
    ensures var s := After(Initial(), es);
      && PoolsSound(s.pools)
      && (s.ctl.vio == VioReady || s.ctl.vf == VfReady || s.ctl.vf == VfAdded ==> s.pools.current.Some?)
      && (s.ctl.waiting == Idle && s.ctl.vf == VfReady ==> s.ctl.vio == VioReady)
  {
    RunKeepsPools(Initial(), es);
  }

  // ---------------------------------------------------------------- a pool for whoever is attached

  /** At rest neither side is half removed and there is a pool exactly if a side is attached; while an
      operation waits, only the side it removes is in removal and there is a pool. */
  predicate Accounted(c: Ctl, p: Pools) {
    && (c.waiting != ForVirtio ==> c.vio == VioUninit || c.vio == VioReady)
    && (c.waiting != ForVf ==> c.vf == VfUninit || c.vf == VfAdded || c.vf == VfReady)
    && (p.current.Some? <==> c.waiting != Idle || c.vio != VioUninit || c.vf != VfUninit)
  }

  /** What a control operation must meet: an attach to an empty relay does not fail once there is a
      pool, a removal ends with its side released and, if it was the last, detached, and a VM does not
      leave a VF that never started. */
  predicate Orderly(c: Ctl, e: Event) {
    var empty := c.vio == VioUninit && c.vf == VfUninit;
    match e
    case AddVf(outcome) => empty ==> !outcome.FailedWithPool?
    case AddBond(newPool, outcome) => empty ==> outcome.Attached? || (outcome.Refused? && !newPool)
    case AddVirtioFails(needPool, _, _) => empty ==> !needPool
    case EndRemoveVf(detached) => c.vf == VfUninit && (c.vio == VioUninit ==> detached)
    case EndRemoveVirtio => c.vio == VioUninit && c.vf != VfAdded
    case _ => true
  }

  /** One step keeps the account exactly when it is orderly. */
  lemma {:induction false} StepKeepsAccountExactlyWhen(c: Ctl, p: Pools, e: Event)
    requires Wired(c) && Accounted(c, p) && CtlEnabled(c, e)
    ensures Accounted(CtlStep(c, e), PoolStep(c, p, e)) <==> Orderly(c, e)
  {
  }

  predicate AlwaysAccounted(s: Relay, es: seq<Event>)
    decreases |es|
  {
    Accounted(s.ctl, s.pools) && (es == [] || AlwaysAccounted(Apply(s, es[0]), es[1..]))
  }

  predicate AllOrderly(s: Relay, es: seq<Event>)
    decreases |es|
  {
    es == [] || (Orderly(s.ctl, es[0]) && AllOrderly(Apply(s, es[0]), es[1..]))
  }

  lemma {:induction false} RunKeepsAccountExactlyWhen(s: Relay, es: seq<Event>)
    requires Wired(s.ctl) && Accounted(s.ctl, s.pools) && CanRun(s, es)
    ensures AlwaysAccounted(s, es) <==> AllOrderly(s, es)
    ensures AllOrderly(s, es) ==> Accounted(After(s, es).ctl, After(s, es).pools)
    decreases |es|
  {
    if es != [] {
      StepKeepsWired(s.ctl, es[0]);
      StepKeepsAccountExactlyWhen(s.ctl, s.pools, es[0]);
      if Orderly(s.ctl, es[0]) {
        RunKeepsAccountExactlyWhen(Apply(s, es[0]), es[1..]);
      }
    }
  }

  /** The last detach frees the pool: over a whole run the relay has a pool at rest exactly if one of
      its sides is attached, and nothing is left half removed, if and only if every step is orderly. */
  lemma {:induction false} PoolIffAttachedExactlyWhen(es: seq<Event>)
    requires CanRun(Initial(), es)
    ensures AlwaysAccounted(Initial(), es) <==> AllOrderly(Initial(), es)
    ensures AllOrderly(Initial(), es) && After(Initial(), es).ctl.waiting == Idle ==>
      (After(Initial(), es).pools.current.Some? <==> After(Initial(), es).ctl.vio != VioUninit || After(Initial(), es).ctl.vf != VfUninit)
  {
    RunKeepsAccountExactlyWhen(Initial(), es);
  }

  // ---------------------------------------------------------------- everything that every step keeps

  /** The safety properties of a relay, whatever fails or times out. */
  predicate Safe(s: Relay) {
    && Wired(s.ctl) && Drained(s)
    && CountersAgree(s.vm2vf) && CountersAgree(s.vf2vm)
    && PoolsSound(s.pools) && PoolInUse(s.ctl, s.pools)
  }

  lemma {:induction false} StepKeepsSafe(s: Relay, e: Event)
    requires Safe(s) && CtlEnabled(s.ctl, e) && BurstFits(e) && QueuesFit(s.vf2vm, e)
    ensures Safe(Apply(s, e))
  {
    StepKeepsWired(s.ctl, e);
    Vf2VmStepDrains(s.ctl, s.vf2vm, e);
    Vf2VmKeepsCounters(s.ctl, s.vf2vm, e);
    StepKeepsPools(s, e);
  }

  // ---------------------------------------------------------------- a device start that fails

  /** Without the hypothesis on the device start: remove_virtio takes the pool away from a VF that
      stays attached exactly when it finds the VF added but not running. */
  lemma {:induction false} PoolTakenFromVfExactlyWhen(s: Relay)
    requires Wired(s.ctl) && PoolInUse(s.ctl, s.pools) && s.ctl.waiting == ForVirtio
    ensures var e := Apply(s, EndRemoveVirtio);
      e.ctl.vf == VfAdded && e.pools.current.None? <==> s.ctl.vf == VfAdded
  {
  }

  lemma {:induction false} FirstEvent(s: Relay, e: Event, es: seq<Event>)
    ensures CanRun(s, [e] + es) <==> Enabled(s, e) && CanRun(Apply(s, e), es)
    ensures After(s, [e] + es) == After(Apply(s, e), es)
    ensures StartsSucceed(s, [e] + es) <==> Starts(s.ctl, e) && StartsSucceed(Apply(s, e), es)
  {
    assert ([e] + es)[1..] == es;
  }

  /** It is always so when the start of an attached VF fails as the VM connects: once that VM has
      left, however the workers run meanwhile, the VF is still attached and has no pool. */
  lemma {:induction false} FailedStartCostsThePool(s: Relay, connect: Event, es: seq<Event>)
    requires s.ctl.vio == VioUninit && s.ctl.vf == VfAdded
    requires connect.AddVirtio? && !connect.started && WorkerSteps(es)
    ensures var gone := Apply(After(Apply(Apply(s, connect), BeginRemoveVirtio), es), EndRemoveVirtio);
      gone.ctl.vf == VfAdded && gone.pools.current.None?
  {
    WorkersOnlyMoveForward(Apply(Apply(s, connect), BeginRemoveVirtio), es);
  }

  /** A shortest run of that kind: the wait for the workers times out. */
  lemma {:induction false} FailedStartRun(cpu: nat) returns (es: seq<Event>)
    ensures CanRun(Initial(), es) && !StartsSucceed(Initial(), es)
    ensures After(Initial(), es).ctl.vf == VfAdded && After(Initial(), es).pools.current.None?
  {
    var add, connect := AddVf(Attached(cpu)), AddVirtio(false, cpu, cpu, false);
    var s0 := Initial();
    var s1 := Apply(s0, add);
    var s2 := Apply(s1, connect);
    var s3 := Apply(s2, BeginRemoveVirtio);
    var s4 := Apply(s3, EndRemoveVirtio);
    FirstEvent(s3, EndRemoveVirtio, []);
    var leave := [EndRemoveVirtio] + [];
    FirstEvent(s2, BeginRemoveVirtio, leave);
    var disconnect := [BeginRemoveVirtio] + leave;
    FirstEvent(s1, connect, disconnect);
    es := [connect] + disconnect;
    FirstEvent(s0, add, es);
    es := [add] + es;
  }
}
