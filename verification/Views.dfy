/** One relay seen three ways: as the transition system of RelayModel, as two directions that are placed on
    CPUs, and as two sides whose single stores interleave with the workers. The views agree step by step and over
    whole runs, and each direction goes where it was asked to go. */
module Views {
  import opened Common
  import opened RelayModel
  import RelayProperties
  import Placement
  import WorkerCache
  import Operations

  // ---------------------------------------------------------------- where a direction goes

  /** A migration: the virtio direction of a connected VM goes to the virtio target and the VF direction of an
      attached VF to the VF target. A refused target, or one for a side that is not attached, changes nothing,
      and nothing else changes. */
  lemma {:induction false} MigrationGoesWhereAsked(s: Relay, vioTarget: Option<nat>, vfTarget: Option<nat>)
    ensures var t := Apply(s, MigrateCpus(vioTarget, vfTarget));
      && (forall c :: vioTarget == Some(c) && s.ctl.vio == VioReady ==> t.ctl.vioCpu == c)
      && (vioTarget == None || s.ctl.vio != VioReady ==> t.ctl.vioCpu == s.ctl.vioCpu)
      && (forall d :: vfTarget == Some(d) && s.ctl.vf in {VfAdded, VfReady} ==> t.ctl.vfCpu == d)
      && (vfTarget == None || s.ctl.vf !in {VfAdded, VfReady} ==> t.ctl.vfCpu == s.ctl.vfCpu)
      && t == s.(ctl := s.ctl.(vioCpu := t.ctl.vioCpu, vfCpu := t.ctl.vfCpu))
  {
  }

  predicate Traffic(es: seq<Event>) {
    forall i :: 0 <= i < |es| ==> es[i].Vm2Vf? || es[i].Vf2Vm? || es[i].BeginRemoveVf? || es[i].BeginRemoveVirtio?
  }

  lemma {:induction false} TrafficKeepsCpus(s: Relay, es: seq<Event>)
    requires CanRun(s, es) && Traffic(es)
    ensures After(s, es).ctl.vioCpu == s.ctl.vioCpu && After(s, es).ctl.vfCpu == s.ctl.vfCpu
    decreases |es|
  {
    if es != [] {
      TrafficKeepsCpus(Apply(s, es[0]), es[1..]);
    }
  }

  /** A migrated relay is served on its targets until a control operation ends. */
  lemma {:induction false} MigrationStands(s: Relay, c: nat, d: nat, es: seq<Event>)
    requires s.ctl.vio == VioReady && s.ctl.vf in {VfAdded, VfReady}
    requires Enabled(s, MigrateCpus(Some(c), Some(d))) && CanRun(Apply(s, MigrateCpus(Some(c), Some(d))), es) && Traffic(es)
    ensures var t := After(Apply(s, MigrateCpus(Some(c), Some(d))), es);
      t.ctl.vioCpu == c && t.ctl.vfCpu == d
  {
    TrafficKeepsCpus(Apply(s, MigrateCpus(Some(c), Some(d))), es);
  }

  /** A missing pool is created, a pool to be replaced is freed and followed by a new one, and any other stays. */
  predicate HasPool(before: Pools, after: Pools, replace: bool) {
    match before.current
    case None => after == Pools(Some(before.created), before.created + 1, before.freed)
    case Some(pool) =>
      if replace then after == Pools(Some(before.created), before.created + 1, before.freed + [pool]) else after == before
  }

  /** An attached VF is on the CPU found for it, and runs at once exactly if the VM is there; the virtio side and
      the packets are not touched. */
  lemma {:induction false} AttachGoesWhereAsked(s: Relay, e: Event, cpu: nat)
    requires s.ctl.vf == VfUninit && (e == AddVf(Attached(cpu)) || (e.AddBond? && e.outcome == Attached(cpu)))
    ensures var t := Apply(s, e);
      && t.ctl == Ctl(s.ctl.vio, if s.ctl.vio == VioReady then VfReady else VfAdded, s.ctl.vioCpu, cpu, s.ctl.waiting)
      && t.vm2vf == s.vm2vf && t.vf2vm == s.vf2vm
      && HasPool(s.pools, t.pools, e.AddBond? && e.newPool)
  {
  }

  /** A VM that connects is on the CPU found for it, a waiting VF is placed again and runs if its start succeeds,
      and any other VF stays as it is. */
  lemma {:induction false} ConnectGoesWhereAsked(s: Relay, newPool: bool, cpu: nat, vfCpu: nat, started: bool)
    requires s.ctl.vio == VioUninit
    ensures var t := Apply(s, AddVirtio(newPool, cpu, vfCpu, started));
      && t.ctl.vio == VioReady && t.ctl.vioCpu == cpu && t.ctl.waiting == s.ctl.waiting
      && (s.ctl.vf == VfAdded ==> t.ctl.vfCpu == vfCpu && t.ctl.vf == if started then VfReady else VfAdded)
      && (s.ctl.vf != VfAdded ==> t.ctl.vfCpu == s.ctl.vfCpu && t.ctl.vf == s.ctl.vf)
      && t.vm2vf == s.vm2vf && t.vf2vm == s.vf2vm
      && HasPool(s.pools, t.pools, newPool)
  {
  }

  // ---------------------------------------------------------------- as placed directions

  function VfPhase(c: Ctl): Placement.Phase {
    match c.vf
    case VfUninit => Placement.Out
    case VfAdded => Placement.In
    case VfReady => Placement.In
    case _ => Placement.Leaving
  }

  function VirtioPhase(c: Ctl): Placement.Phase {
    match c.vio
    case VioUninit => Placement.Out
    case VioReady => Placement.In
    case _ => Placement.Leaving
  }

  function DirectionsOf(c: Ctl): Placement.Directions {
    Placement.Directions(VfPhase(c), c.vfCpu, VirtioPhase(c), c.vioCpu)
  }

  /** The placement events of relay `r` that a step amounts to; `n` is the number of CPUs, which as a target is
      refused. */
  function Placements(c: Ctl, e: Event, r: nat, n: nat): seq<Placement.Event> {
    match e
    case Vm2Vf(_, _) =>
      (if c.vio == VioRemoving1 && c.vfCpu == NO_CPU then [Placement.VmReleased(r)] else [])
      + (if c.vf == VfRemoving2 then [Placement.VfReleased(r)] else [])
    case Vf2Vm(_, _, _) =>
      (if c.vio == VioRemoving2 then [Placement.VmReleased(r)] else [])
      + (if c.vf == VfRemoving1 && c.vioCpu == NO_CPU then [Placement.VfReleased(r)] else [])
    case AddVf(outcome) => if c.vf == VfUninit && outcome.Attached? then [Placement.AttachVf(r, -1, outcome.cpu)] else []
    case AddBond(_, outcome) => if c.vf == VfUninit && outcome.Attached? then [Placement.AttachVf(r, -1, outcome.cpu)] else []
    case BeginRemoveVf => if VfPhase(c) == Placement.In then [Placement.RemoveVf(r)] else []
    case EndRemoveVf(_) => if c.vf == VfUninit then [Placement.VfDetached(r)] else []
    case AddVirtio(_, cpu, vfCpu, _) => if c.vio == VioUninit then [Placement.ConnectVm(r, -1, cpu, vfCpu)] else []
    case AddVirtioFails(_, _, strayCpu) =>
      if c.vio == VioUninit && strayCpu.Some? then [Placement.RefuseVm(r, -1, strayCpu.value)] else []
    case BeginRemoveVirtio => if c.vio == VioReady then [Placement.RemoveVm(r)] else []
    case EndRemoveVirtio => [Placement.VmRemoved(r)]
    case MigrateCpus(vioTarget, vfTarget) =>
      [Placement.Migrate(r, if vioTarget.Some? then vioTarget.value else n, if vfTarget.Some? then vfTarget.value else n)]
  }

  function Placed(d: Placement.Directions, cpus: seq<Placement.Cpu>, es: seq<Placement.Event>): Placement.Directions
    decreases |es|
  {
    if es == [] then d else Placed(Placement.StepOne(d, cpus, es[0]), cpus, es[1..])
  }

  lemma {:induction false} PlacedTwice(d: Placement.Directions, cpus: seq<Placement.Cpu>, a: seq<Placement.Event>, b: seq<Placement.Event>)
    ensures Placed(d, cpus, a + b) == Placed(Placed(d, cpus, a), cpus, b)
    decreases |a|
  {
    if a == [] {
      assert a + b == b;
    } else {
      assert (a + b)[0] == a[0] && (a + b)[1..] == a[1..] + b;
      PlacedTwice(Placement.StepOne(d, cpus, a[0]), cpus, a[1..], b);
    }
  }

  lemma {:induction false} PlacedOnce(d: Placement.Directions, cpus: seq<Placement.Cpu>, e: Placement.Event)
    ensures Placed(d, cpus, [e]) == Placement.StepOne(d, cpus, e)
  {
    assert [e][1..] == [];
  }

  /** The targets of a migration are initialised workers. */
  predicate KnownTargets(e: Event, cpus: seq<Placement.Cpu>) {
    e.MigrateCpus? ==>
      && (e.vioTarget.Some? ==> Placement.Initialized(cpus, e.vioTarget.value))
      && (e.vfTarget.Some? ==> Placement.Initialized(cpus, e.vfTarget.value))
  }

  lemma {:induction false} StepIsPlaced(c: Ctl, e: Event, r: nat, cpus: seq<Placement.Cpu>)
    requires RelayProperties.Wired(c) && CtlEnabled(c, e) && KnownTargets(e, cpus)
    ensures Placed(DirectionsOf(c), cpus, Placements(c, e, r, |cpus|)) == DirectionsOf(CtlStep(c, e))
  {
    var d := DirectionsOf(c);
    var all := Placements(c, e, r, |cpus|);
    if |all| == 2 {
      assert all == [all[0]] + [all[1]];
      PlacedTwice(d, cpus, [all[0]], [all[1]]);
      PlacedOnce(d, cpus, all[0]);
      PlacedOnce(Placement.StepOne(d, cpus, all[0]), cpus, all[1]);
    } else if |all| == 1 {
      assert all == [all[0]];
      PlacedOnce(d, cpus, all[0]);
    }
  }

  function RunPlacements(s: Relay, es: seq<Event>, r: nat, n: nat): seq<Placement.Event>
    decreases |es|
  {
    if es == [] then [] else Placements(s.ctl, es[0], r, n) + RunPlacements(Apply(s, es[0]), es[1..], r, n)
  }

  lemma {:induction false} RunIsPlacedFrom(s: Relay, es: seq<Event>, r: nat, cpus: seq<Placement.Cpu>)
    requires RelayProperties.Wired(s.ctl) && CanRun(s, es) && forall i :: 0 <= i < |es| ==> KnownTargets(es[i], cpus)
    ensures Placed(DirectionsOf(s.ctl), cpus, RunPlacements(s, es, r, |cpus|)) == DirectionsOf(After(s, es).ctl)
    decreases |es|
  {
    if es != [] {
      var s' := Apply(s, es[0]);
      RelayProperties.StepKeepsWired(s.ctl, es[0]);
      StepIsPlaced(s.ctl, es[0], r, cpus);
      RunIsPlacedFrom(s', es[1..], r, cpus);
      PlacedTwice(DirectionsOf(s.ctl), cpus, Placements(s.ctl, es[0], r, |cpus|), RunPlacements(s', es[1..], r, |cpus|));
    }
  }

  /** Every run of a relay is a run of its placement: its phases and CPUs are those that the placement events come
      to, so that what is proved of placements holds of relays. */
  lemma {:induction false} RunIsPlaced(es: seq<Event>, r: nat, cpus: seq<Placement.Cpu>)
    requires CanRun(Initial(), es) && forall i :: 0 <= i < |es| ==> KnownTargets(es[i], cpus)
    ensures Placed(Placement.Directions(Placement.Out, NO_CPU, Placement.Out, NO_CPU), cpus, RunPlacements(Initial(), es, r, |cpus|))
            == DirectionsOf(After(Initial(), es).ctl)
  {
    RunIsPlacedFrom(Initial(), es, r, cpus);
  }

  // ---------------------------------------------------------------- as interleaved stores

  function VfSide(c: Ctl): WorkerCache.Side {
    WorkerCache.Side(c.vf != VfUninit, c.vf in {VfRemoving1, VfRemoving2}, c.vfCpu)
  }

  function VirtioSide(c: Ctl): WorkerCache.Side {
    WorkerCache.Side(c.vio != VioUninit, c.vio in {VioRemoving1, VioRemoving2}, c.vioCpu)
  }

  /** The two entries of relay `w` in the table are what the relay's state says. */
  predicate Shows(s: WorkerCache.State, w: nat, c: Ctl) {
    2 * w + 1 < |s.sides| && s.sides[2 * w] == VfSide(c) && s.sides[2 * w + 1] == VirtioSide(c)
  }

  /** The operation that carries out an event; a direction that is already on its target is not moved. */
  function OperationOf(c: Ctl, e: Event): Option<WorkerCache.Op> {
    match e
    case AddVf(outcome) => if c.vf == VfUninit && outcome.Attached? then Some(WorkerCache.AddVf(outcome.cpu)) else None
    case AddBond(_, outcome) => if c.vf == VfUninit && outcome.Attached? then Some(WorkerCache.AddVf(outcome.cpu)) else None
    case AddVirtio(_, cpu, vfCpu, started) =>
      if c.vio == VioUninit then Some(WorkerCache.AddVirtio(cpu, vfCpu, started)) else None
    case MigrateCpus(vioTarget, vfTarget) =>
      var moveVirtio := vioTarget.Some? && c.vio == VioReady && c.vioCpu != vioTarget.value;
      var moveVf := vfTarget.Some? && c.vf in {VfAdded, VfReady} && c.vfCpu != vfTarget.value;
      Some(WorkerCache.Migrate(moveVirtio, if moveVirtio then vioTarget.value else 0, moveVf, if moveVf then vfTarget.value else 0))
    case _ => None
  }

  predicate NotBeingRemoved(c: Ctl) {
    c.vio in {VioUninit, VioReady} && c.vf in {VfUninit, VfAdded, VfReady}
  }

  lemma {:induction false} OutcomeIsStep(s: WorkerCache.State, w: nat, c: Ctl, e: Event)
    requires Shows(s, w, c) && RelayProperties.Wired(c) && c.waiting == Idle && NotBeingRemoved(c) && OperationOf(c, e).Some?
    ensures Operations.Outcome(s, w, OperationOf(c, e).value, 2 * w) == VfSide(CtlStep(c, e))
    ensures Operations.Outcome(s, w, OperationOf(c, e).value, 2 * w + 1) == VirtioSide(CtlStep(c, e))
  {
    var op := OperationOf(c, e).value;
    match op
    case AddVf(cpu) =>
      Operations.AddVfPuts(s, w, cpu, 2 * w);
      Operations.AddVfPuts(s, w, cpu, 2 * w + 1);
    case AddVirtio(cpu, vfCpu, started) =>
      Operations.AddVirtioPuts(s, w, cpu, vfCpu, started, 2 * w);
      Operations.AddVirtioPuts(s, w, cpu, vfCpu, started, 2 * w + 1);
    case Migrate(_, _, _, _) =>
      Operations.MigratePuts(s, w, op, 2 * w);
      Operations.MigratePuts(s, w, op, 2 * w + 1);
    case _ =>
  }

  /** The CPUs of an attach or a connect are the pins of the relay, where it has any. */
  predicate PinsKept(s: WorkerCache.State, w: nat, e: Event) {
    match e
    case AddVf(outcome) => outcome.Attached? ==> WorkerCache.PinAllows(s, 2 * w, outcome.cpu)
    case AddBond(_, outcome) => outcome.Attached? ==> WorkerCache.PinAllows(s, 2 * w, outcome.cpu)
    case AddVirtio(_, cpu, vfCpu, _) => WorkerCache.PinAllows(s, 2 * w + 1, cpu) && WorkerCache.PinAllows(s, 2 * w, vfCpu)
    case _ => true
  }

  /** Whenever the relay can take the step, the operation can begin, and so can the removal of an attached side. */
  lemma {:induction false} OperationCanBegin(s: WorkerCache.State, w: nat, c: Ctl, e: Event)
    requires w < |s.pending| && s.pending[w] == [] && Shows(s, w, c) && PinsKept(s, w, e)
    ensures OperationOf(c, e).Some? ==> WorkerCache.Enabled(s, WorkerCache.Begin(w, OperationOf(c, e).value))
    ensures WorkerCache.Enabled(s, WorkerCache.Begin(w, WorkerCache.RemoveVf)) <==> c.vf in {VfAdded, VfReady}
    ensures forall stop :: WorkerCache.Enabled(s, WorkerCache.Begin(w, WorkerCache.RemoveVirtio(stop))) <==> c.vio == VioReady
  {
  }

  /** An operation that attaches, connects or migrates comes to the same as the atomic step of the relay, for every
      interleaving of its stores with the workers and with operations on other relays. */
  lemma {:induction false} InterleavingIsStep(s0: WorkerCache.State, before: seq<WorkerCache.Step>, w: nat, c: Ctl, e: Event, during: seq<WorkerCache.Step>)
    requires WorkerCache.Initial(s0) && WorkerCache.CanRun(s0, before)
    requires RelayProperties.Wired(c) && CtlEnabled(c, e) && NotBeingRemoved(c) && OperationOf(c, e).Some?
    requires var s, begin := WorkerCache.After(s0, before), WorkerCache.Begin(w, OperationOf(c, e).value);
      && w < |s.pending| && s.pending[w] == [] && Shows(s, w, c) && PinsKept(s, w, e)
      && (WorkerCache.Enabled(s, begin) ==> WorkerCache.CanRun(WorkerCache.Apply(s, begin), during))
      && Operations.NoneBegins(during, w)
    ensures var s, begin := WorkerCache.After(s0, before), WorkerCache.Begin(w, OperationOf(c, e).value);
      && WorkerCache.Enabled(s, begin) && WorkerCache.CanRun(WorkerCache.Apply(s, begin), during)
      && var t := WorkerCache.After(WorkerCache.Apply(s, begin), during);
         w < |t.pending| && (t.pending[w] == [] ==> Shows(t, w, CtlStep(c, e)))
  {
    var s, op := WorkerCache.After(s0, before), OperationOf(c, e).value;
    OperationCanBegin(s, w, c, e);
    Operations.RunKeepsOrderly(s0, before);
    OutcomeIsStep(s, w, c, e);
    Operations.OutcomeIsReached(s, w, op, during, 2 * w);
    Operations.OutcomeIsReached(s, w, op, during, 2 * w + 1);
  }
}
