/** The relay as the code keeps it: two 32-slot packet buffers with `avail` and `used` indices, states,
    CPUs, counters and the pool. Every operation is proved to do what the transition system does in one
    event and to keep the safety properties of the relay; `Run` carries out whole event sequences. */
module RelayEngine {
  import opened Common
  import opened Transmit
  import opened RelayModel
  import opened RelayProperties

  lemma {:induction false} NothingToDrop(l: Lane)
    requires |l.window| == 0
    ensures Drop(l) == l
  {
    assert l.dropped + Backwards(l.window, 0, 0) == l.dropped;
  }

  lemma {:induction false} NothingToSend(l: Lane, room: nat, rxBits: set<nat>, accepted: seq<nat>)
    requires |l.window| == 0
    ensures SendToVf(l, room) == l && SendToVm(l, rxBits, accepted) == l
  {
    NothingToTransmit(l.window, |rxBits|, accepted);
    assert l.delivered + [] == l.delivered;
    assert l.window == [];
  }

  /** One direction's buffer: the live packets are the slots [used, used + avail) and nothing else. */
  class PacketBuffer {
    const pkts: array<Mbuf>
    var avail: nat
    var used: nat
    var rxCount: nat
    var txCount: nat
    var dropCount: nat
    /** The direction with its history. */
    ghost var lane: Lane

    ghost predicate Valid()
      reads this, pkts
    {
      && pkts.Length == BURST_LEN
      && avail == |lane.window| && Holds(pkts, used, lane.window)
      && rxCount == lane.rxCount && txCount == lane.txCount && dropCount == lane.dropCount
    }

    constructor (filler: Mbuf)
      ensures Valid() && lane == EmptyLane() && fresh(pkts)
    {
      pkts := new Mbuf[BURST_LEN](_ => filler);
      avail, used, rxCount, txCount, dropCount := 0, 0, 0, 0, 0;
      lane := EmptyLane();
    }

    /** Stores a received burst in the empty buffer. */
    method Fill(burst: seq<Mbuf>)
      requires Valid() && avail == 0 && |burst| <= BURST_LEN
      modifies this, pkts
      ensures Valid() && lane == Receive(old(lane), burst)
    {
      for i := 0 to |burst|
        invariant pkts.Length == BURST_LEN && unchanged(this)
        invariant forall j :: 0 <= j < i ==> pkts[j] == burst[j]
      {
        pkts[i] := burst[i];
      }
      avail, used := |burst|, 0;
      rxCount := rxCount + |burst|;
      lane := Receive(lane, burst);
    }

    /** The first `sent` packets of the window have been transmitted. */
    method Advance(sent: nat)
      requires Valid() && sent <= avail
      modifies this
      ensures Valid() && lane == Deliver(old(lane), old(lane).window[..sent], Suffix(old(lane).window, sent))
    {
      avail := avail - sent;
      used := used + sent;
      txCount := txCount + sent;
      lane := Deliver(lane, lane.window[..sent], Suffix(lane.window, sent));
    }

    /** Sends the window over `queues` queues and keeps what they did not take. */
    method SendBatches(queues: nat, accepted: seq<nat>)
      requires Valid() && QueuesBelow(lane.window, queues)
      modifies this, pkts
      ensures Valid()
      ensures lane == Deliver(old(lane), Sent(old(lane).window, queues, accepted), Kept(old(lane).window, queues, accepted))
    {
      var out, k := VirtioTxMultiqueue(pkts, used, avail, lane.window, queues, accepted);
      txCount := txCount + |out|;
      avail := k;
      lane := Deliver(lane, out, Kept(lane.window, queues, accepted));
    }

    /** Frees every packet of the window, last one first. */
    method FreeAll()
      requires Valid()
      modifies this
      ensures Valid() && avail == 0 && lane == Drop(old(lane))
    {
      ghost var freed: seq<Mbuf> := [];
      var n := avail;
      while n > 0
        invariant 0 <= n <= avail && unchanged(this)
        invariant freed == Backwards(lane.window, avail, n)
      {
        n := n - 1;
        freed := freed + [pkts[used + n]];
      }
      dropCount := dropCount + avail;
      avail := 0;
      lane := lane.(window := [], dropped := lane.dropped + freed, dropCount := dropCount);
    }

    /** What the removals do: free whatever is there and reset the indices. */
    method Discard()
      requires Valid()
      modifies this
      ensures Valid() && avail == 0 && lane == Drop(old(lane))
    {
      if avail > 0 {
        FreeAll();
        used := 0;
      } else {
        NothingToDrop(lane);
      }
    }
  }

  class Relay {
    var vio: VioState
    var vf: VfState
    var vioCpu: int
    var vfCpu: int
    /** Packets from the VM, and packets from the VF. */
    const tx: PacketBuffer
    const rx: PacketBuffer
    var pools: Pools
    ghost var waiting: Waiting

    ghost predicate Shaped()
      reads this, tx, tx.pkts, rx, rx.pkts
    {
      tx != rx && tx.pkts != rx.pkts && tx.Valid() && rx.Valid()
    }

    ghost function Control(): Ctl
      reads this
    {
      Ctl(vio, vf, vioCpu, vfCpu, waiting)
    }

    ghost function View(): RelayModel.Relay
      reads this, tx, rx
    {
      RelayModel.Relay(Control(), tx.lane, rx.lane, pools)
    }

    /** The buffers are in order and the relay has its safety properties. */
    ghost predicate Valid()
      reads this, tx, tx.pkts, rx, rx.pkts
    {
      Shaped() && Safe(View())
    }

    /** What validity says about the fields: the counter equations, empty buffers of sides that are
        gone, a pool for a connected VM or a running VF. */
    lemma {:induction false} ValidMeans()
      requires Valid()
      ensures tx.rxCount == tx.txCount + tx.dropCount + tx.avail && rx.rxCount == rx.txCount + rx.dropCount + rx.avail
      ensures tx.used + tx.avail <= BURST_LEN && rx.used + rx.avail <= BURST_LEN
      ensures vio == VioUninit ==> tx.avail == 0 && rx.avail == 0
      ensures vf == VfUninit ==> rx.avail == 0
      ensures vio == VioReady || vf == VfReady ==> pools.current.Some?
    {
    }

    /** The event may happen now. */
    ghost predicate Ready(e: Event)
      reads this, rx
    {
      CtlEnabled(Control(), e) && BurstFits(e) && QueuesFit(rx.lane, e)
    }

    /** All four components changed as the event says. */
    ghost predicate Did(from: RelayModel.Relay, e: Event)
      reads this, tx, rx
    {
      && Control() == CtlStep(from.ctl, e)
      && tx.lane == Vm2VfLane(from.ctl, from.vm2vf, e)
      && rx.lane == Vf2VmLane(from.ctl, from.vf2vm, e)
      && pools == PoolStep(from.ctl, from.pools, e)
    }

    /** A step from a safe state ends in one. */
    lemma {:induction false} StaysSafe(from: RelayModel.Relay, e: Event)
      requires Did(from, e) && Safe(from) && CtlEnabled(from.ctl, e) && BurstFits(e) && QueuesFit(from.vf2vm, e)
      ensures View() == Apply(from, e) && Safe(View())
    {
      StepKeepsSafe(from, e);
    }

    constructor (filler: Mbuf)
      ensures Valid() && View() == Initial() && fresh(tx) && fresh(rx) && fresh(tx.pkts) && fresh(rx.pkts)
    {
      vio, vf, vioCpu, vfCpu := VioUninit, VfUninit, NO_CPU, NO_CPU;
      waiting := Idle;
      pools := Pools(None, 0, []);
      tx := new PacketBuffer(filler);
      rx := new PacketBuffer(filler);
    }

    // -------------------------------------------------------------- VM to VF

    /** virtio_rx: fetches a burst from the VM into the empty buffer. */
    method VirtioRx(burst: seq<Mbuf>)
      requires Shaped() && tx.avail == 0 && |burst| <= BURST_LEN
      modifies tx, tx.pkts
      ensures Shaped() && tx.lane == if vio == VioReady then Receive(old(tx.lane), burst) else old(tx.lane)
    {
      if vio == VioReady {
        tx.Fill(burst);
      }
    }

    /** dpdk_tx: hands a prefix of the window to the NIC, or returns -1 if the VF is not running. */
    method DpdkTx(room: nat) returns (sent: int)
      requires Shaped()
      modifies tx
      ensures Shaped() && sent >= -1 && (sent == -1 <==> vf != VfReady)
      ensures tx.lane == if vf == VfReady then SendToVf(old(tx.lane), room) else old(tx.lane)
    {
      if vf != VfReady {
        return -1;
      }
      sent := Min(room, tx.avail);
      tx.Advance(sent);
    }

    /** The traffic part of relay_vm2vf_traffic. */
    method Vm2VfPackets(burst: seq<Mbuf>, room: nat)
      requires Shaped() && |burst| <= BURST_LEN
      modifies tx, tx.pkts
      ensures Shaped() && tx.lane == Vm2VfTraffic(Control(), old(tx.lane), burst, room)
    {
      var sent := 0;
      if tx.avail == 0 {
        VirtioRx(burst);
      }
      assert tx.lane == if vio == VioReady then Receive(old(tx.lane), burst) else old(tx.lane);
      if tx.avail > 0 {
        sent := DpdkTx(room);
        if sent == -1 && tx.avail > 0 {
          tx.FreeAll();
        }
      } else {
        NothingToSend(tx.lane, room, {}, []);
        NothingToDrop(tx.lane);
      }
    }

    /** worker_remove_vf. */
    method WorkerRemoveVf()
      requires Shaped()
      modifies this`vf, tx, rx
      ensures Shaped() && vf == VfUninit && tx.lane == Drop(old(tx.lane)) && rx.lane == Drop(old(rx.lane))
    {
      rx.Discard();
      tx.Discard();
      vf := VfUninit;
    }

    /** The removal part of relay_vm2vf_traffic. */
    method Vm2VfHandshake()
      requires Shaped()
      modifies this`vio, this`vf, tx, rx
      ensures Shaped()
      ensures vio == if old(vio) != VioRemoving1 then old(vio) else if vfCpu == NO_CPU then VioUninit else VioRemoving2
      ensures vf == if old(vf) == VfRemoving2 then VfUninit else old(vf)
      ensures tx.lane == if old(vf) == VfRemoving2 then Drop(old(tx.lane)) else old(tx.lane)
      ensures rx.lane == if old(vf) == VfRemoving2 then Drop(old(rx.lane)) else old(rx.lane)
    {
      if vio == VioRemoving1 {
        vio := VioRemoving2;
        if vfCpu == NO_CPU {
          vio := VioUninit;
        }
      }
      if vf == VfRemoving2 {
        WorkerRemoveVf();
      }
    }

    /** relay_vm2vf_traffic; returns whether the worker counts the relay as busy. */
    method RelayVm2VfTraffic(burst: seq<Mbuf>, room: nat) returns (busy: bool)
      requires Valid() && Ready(Vm2Vf(burst, room))
      modifies this`vio, this`vf, tx, tx.pkts, rx
      ensures Valid() && Did(old(View()), Vm2Vf(burst, room))
      ensures busy <==> old(vio) == VioReady
    {
      ghost var from := View();
      Vm2VfPackets(burst, room);
      Vm2VfHandshake();
      busy := vio == VioReady;
      StaysSafe(from, Vm2Vf(burst, room));
    }

    // -------------------------------------------------------------- VF to VM

    /** dpdk_rx: fetches a burst from the NIC into the empty buffer. */
    method DpdkRx(burst: seq<Mbuf>)
      requires Shaped() && rx.avail == 0 && |burst| <= BURST_LEN
      modifies rx, rx.pkts
      ensures Shaped() && rx.lane == if vf == VfReady then Receive(old(rx.lane), burst) else old(rx.lane)
    {
      if vf == VfReady {
        rx.Fill(burst);
      }
    }

    /** virtio_tx: both branches; returns -1 if the VM is not connected. */
    method VirtioTx(rxBits: set<nat>, accepted: seq<nat>) returns (sent: int)
      requires Shaped() && (Multiqueue(rxBits) ==> QueuesBelow(rx.lane.window, |rxBits|))
      modifies rx, rx.pkts
      ensures Shaped() && (sent == -1 <==> vio != VioReady)
      ensures rx.lane == if vio == VioReady then SendToVm(old(rx.lane), rxBits, accepted) else old(rx.lane)
    {
      if vio != VioReady {
        return -1;
      }
      sent := 0;
      if Multiqueue(rxBits) {
        rx.SendBatches(|rxBits|, accepted);
      } else {
        var k := Accepted(accepted, rx.avail);
        rx.Advance(k);
      }
    }

    /** The traffic part of relay_vf2vm_traffic. */
    method Vf2VmPackets(burst: seq<Mbuf>, rxBits: set<nat>, accepted: seq<nat>)
      requires Shaped() && |burst| <= BURST_LEN
      requires Multiqueue(rxBits) ==> QueuesBelow(burst, |rxBits|) && QueuesBelow(rx.lane.window, |rxBits|)
      modifies rx, rx.pkts
      ensures Shaped() && rx.lane == Vf2VmTraffic(Control(), old(rx.lane), burst, rxBits, accepted)
    {
      var sent := 0;
      if rx.avail == 0 {
        DpdkRx(burst);
      }
      assert rx.lane == if vf == VfReady then Receive(old(rx.lane), burst) else old(rx.lane);
      if rx.avail > 0 {
        sent := VirtioTx(rxBits, accepted);
        if sent == -1 && rx.avail > 0 {
          rx.FreeAll();
        }
      } else {
        NothingToSend(rx.lane, 0, rxBits, accepted);
        NothingToDrop(rx.lane);
      }
    }

    /** worker_remove_virtio. */
    method WorkerRemoveVirtio()
      requires Shaped()
      modifies this`vio, tx, rx
      ensures Shaped() && vio == VioUninit && tx.lane == Drop(old(tx.lane)) && rx.lane == Drop(old(rx.lane))
    {
      rx.Discard();
      tx.Discard();
      vio := VioUninit;
    }

    /** The removal part of relay_vf2vm_traffic. */
    method Vf2VmHandshake()
      requires Shaped()
      modifies this`vio, this`vf, tx, rx
      ensures Shaped()
      ensures vio == if old(vio) == VioRemoving2 then VioUninit else old(vio)
      ensures vf == if old(vf) != VfRemoving1 then old(vf) else if vioCpu == NO_CPU then VfUninit else VfRemoving2
      ensures tx.lane == if old(vio) == VioRemoving2 then Drop(old(tx.lane)) else old(tx.lane)
      ensures rx.lane == if old(vio) == VioRemoving2 then Drop(old(rx.lane)) else old(rx.lane)
    {
      if vio == VioRemoving2 {
        WorkerRemoveVirtio();
      }
      if vf == VfRemoving1 {
        vf := VfRemoving2;
        if vioCpu == NO_CPU {
          vf := VfUninit;
        }
      }
    }

    /** relay_vf2vm_traffic; returns whether the worker counts the relay as busy. */
    method RelayVf2VmTraffic(burst: seq<Mbuf>, rxBits: set<nat>, accepted: seq<nat>) returns (busy: bool)
      requires Valid() && Ready(Vf2Vm(burst, rxBits, accepted))
      modifies this`vio, this`vf, tx, rx, rx.pkts
      ensures Valid() && Did(old(View()), Vf2Vm(burst, rxBits, accepted))
      ensures busy <==> old(vf) == VfReady
    {
      ghost var from := View();
      Vf2VmPackets(burst, rxBits, accepted);
      Vf2VmHandshake();
      busy := vf == VfReady;
      StaysSafe(from, Vf2Vm(burst, rxBits, accepted));
    }

    // -------------------------------------------------------------- control operations

    /** The tail of a VF or bond attach: configure_dev_with_virtio. */
    method FinishAttach(outcome: Attach)
      requires Shaped() && vf == VfUninit
      modifies this`pools, this`vfCpu, this`vf
      ensures Shaped() && Did(old(View()), Event.AddVf(outcome))
    {
      if outcome.Refused? {
        return;
      }
      pools := EnsurePool(pools);
      if outcome.Attached? {
        vfCpu := outcome.cpu;
        vf := if vio == VioReady then VfReady else VfAdded;
      }
    }

    /** virtio_forwarder_add_vf2. */
    method AddVf(outcome: Attach)
      requires Valid() && Ready(Event.AddVf(outcome))
      modifies this`pools, this`vfCpu, this`vf
      ensures Valid() && Did(old(View()), Event.AddVf(outcome))
    {
      ghost var from := View();
      if vf == VfUninit {
        FinishAttach(outcome);
      }
      StaysSafe(from, Event.AddVf(outcome));
    }

    /** virtio_forwarder_bond_add. */
    method AddBond(newPool: bool, outcome: Attach)
      requires Valid() && Ready(Event.AddBond(newPool, outcome))
      modifies this`pools, this`vfCpu, this`vf
      ensures Valid() && Did(old(View()), Event.AddBond(newPool, outcome))
    {
      ghost var from := View();
      if vf == VfUninit {
        if newPool {
          assert vf != VfReady && rx.avail == 0;
          pools := MigratePool(pools);
        }
        FinishAttach(outcome);
      }
      StaysSafe(from, Event.AddBond(newPool, outcome));
    }

    /** virtio_forwarder_remove_vf2 and detach_device up to the wait for the workers. */
    method BeginRemoveVf()
      requires Valid() && Ready(Event.BeginRemoveVf)
      modifies this`vf, this`waiting
      ensures Valid() && Did(old(View()), Event.BeginRemoveVf)
    {
      ghost var from := View();
      if vf == VfAdded || vf == VfReady {
        vf := VfRemoving1;
        waiting := ForVf;
      }
      StaysSafe(from, Event.BeginRemoveVf);
    }

    /** detach_device after the wait; an unreleased VF is the timeout. */
    method EndRemoveVf(detached: bool)
      requires Valid() && Ready(Event.EndRemoveVf(detached))
      modifies this`vfCpu, this`pools, this`waiting
      ensures Valid() && Did(old(View()), Event.EndRemoveVf(detached))
    {
      ghost var from := View();
      waiting := Idle;
      if vf == VfUninit {
        vfCpu := NO_CPU;
        if detached && vio == VioUninit {
          pools := FreePool(pools);
        }
      }
      StaysSafe(from, Event.EndRemoveVf(detached));
    }

    /** virtio_forwarder_add_virtio when it succeeds. */
    method AddVirtio(newPool: bool, cpu: nat, newVfCpu: nat, started: bool)
      requires Valid() && Ready(Event.AddVirtio(newPool, cpu, newVfCpu, started))
      modifies this`pools, this`vioCpu, this`vio, this`vfCpu, this`vf
      ensures Valid() && Did(old(View()), Event.AddVirtio(newPool, cpu, newVfCpu, started))
    {
      ghost var from := View();
      if vio == VioUninit {
        assert vf != VfReady && rx.avail == 0;
        pools := AlignPool(pools, newPool);
        vioCpu := cpu;
        vio := VioReady;
        if vf == VfAdded {
          vfCpu := newVfCpu;
          if started {
            vf := VfReady;
          }
        }
      }
      StaysSafe(from, Event.AddVirtio(newPool, cpu, newVfCpu, started));
    }

    /** virtio_forwarder_add_virtio when it returns an error. */
    method AddVirtioFails(needPool: bool, newPool: bool, strayCpu: Option<nat>)
      requires Valid() && Ready(Event.AddVirtioFails(needPool, newPool, strayCpu))
      modifies this`pools, this`vioCpu
      ensures Valid() && Did(old(View()), Event.AddVirtioFails(needPool, newPool, strayCpu))
    {
      ghost var from := View();
      if vio == VioUninit {
        if needPool {
          pools := AlignPool(pools, newPool);
        }
        if strayCpu.Some? {
          vioCpu := strayCpu.value;
        }
      }
      StaysSafe(from, Event.AddVirtioFails(needPool, newPool, strayCpu));
    }

    /** virtio_forwarder_remove_virtio up to the wait for the workers. */
    method BeginRemoveVirtio()
      requires Valid() && Ready(Event.BeginRemoveVirtio)
      modifies this`vio, this`waiting
      ensures Valid() && Did(old(View()), Event.BeginRemoveVirtio)
    {
      ghost var from := View();
      if vio == VioReady {
        vio := VioRemoving1;
        waiting := ForVirtio;
      }
      StaysSafe(from, Event.BeginRemoveVirtio);
    }

    /** virtio_forwarder_remove_virtio after the wait, whether or not it timed out. */
    method EndRemoveVirtio()
      requires Valid() && Ready(Event.EndRemoveVirtio)
      modifies this`vioCpu, this`vf, this`pools, this`waiting
      ensures Valid() && Did(old(View()), Event.EndRemoveVirtio)
    {
      ghost var from := View();
      vioCpu := NO_CPU;
      waiting := Idle;
      if vf == VfReady {
        vf := VfAdded;
      } else {
        pools := FreePool(pools);
      }
      StaysSafe(from, Event.EndRemoveVirtio);
    }

    /** migrate_relay_cpus; a target that is not initialised is None. */
    method MigrateCpus(vioTarget: Option<nat>, vfTarget: Option<nat>)
      requires Valid() && Ready(Event.MigrateCpus(vioTarget, vfTarget))
      modifies this`vioCpu, this`vfCpu
      ensures Valid() && Did(old(View()), Event.MigrateCpus(vioTarget, vfTarget))
    {
      ghost var from := View();
      if vioTarget.Some? && vio == VioReady && vioCpu != vioTarget.value {
        vioCpu := vioTarget.value;
      }
      if vfTarget.Some? && (vf == VfAdded || vf == VfReady) && vfCpu != vfTarget.value {
        vfCpu := vfTarget.value;
      }
      StaysSafe(from, Event.MigrateCpus(vioTarget, vfTarget));
    }

    // -------------------------------------------------------------- runs

    /** Any event, carried out by the operation that stands for it. */
    method Step(e: Event)
      requires Valid() && Ready(e)
      modifies this, tx, tx.pkts, rx, rx.pkts
      ensures Valid() && View() == Apply(old(View()), e)
    {
      ghost var from := View();
      match e {
        case Vm2Vf(burst, room) => var _ := RelayVm2VfTraffic(burst, room);
        case Vf2Vm(burst, rxBits, accepted) => var _ := RelayVf2VmTraffic(burst, rxBits, accepted);
        case AddVf(outcome) => AddVf(outcome);
        case AddBond(newPool, outcome) => AddBond(newPool, outcome);
        case BeginRemoveVf => BeginRemoveVf();
        case EndRemoveVf(detached) => EndRemoveVf(detached);
        case AddVirtio(newPool, cpu, newVfCpu, started) => AddVirtio(newPool, cpu, newVfCpu, started);
        case AddVirtioFails(needPool, newPool, strayCpu) => AddVirtioFails(needPool, newPool, strayCpu);
        case BeginRemoveVirtio => BeginRemoveVirtio();
        case EndRemoveVirtio => EndRemoveVirtio();
        case MigrateCpus(vioTarget, vfTarget) => MigrateCpus(vioTarget, vfTarget);
      }
      StaysSafe(from, e);
    }

    /** A whole run: the relay ends where the transition system does, and is safe all along. */
    method Run(es: seq<Event>)
      requires Valid() && CanRun(View(), es)
      modifies this, tx, tx.pkts, rx, rx.pkts
      ensures Valid() && View() == After(old(View()), es)
    {
      for i := 0 to |es|
        invariant Valid() && CanRun(View(), es[i..]) && After(View(), es[i..]) == After(old(View()), es)
      {
        assert es[i..][0] == es[i] && es[i..][1..] == es[i + 1..];
        Step(es[i]);
      }
    }
  }
}
