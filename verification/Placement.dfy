/** Where a relay direction runs: the least loaded worker, when every assigned CPU is a worker, and how
    even the loads stay. */
module Placement {
  import opened Common

  const MAX_CPUS: nat := 64
  const VF_WEIGHT := 12
  const VIRTIO_WEIGHT := 10
  /** The guest's NUMA node is not known. */
  const ANY_NODE := -1

  /** A side that is detached, attached, or being removed. */
  datatype Phase = Out | In | Leaving

  /** The two directions of a relay: the phase of the side that feeds it, and its CPU. */
  datatype Directions = Directions(vf: Phase, vfCpu: int, virtio: Phase, virtioCpu: int)

  /** What a CPU is used for, and the NUMA node it is on. */
  datatype Cpu = Cpu(inBitmap: bool, initialized: bool, node: int)

  // ---------------------------------------------------------------- weighted loads

  function Weight(d: Directions, cpu: int): nat {
    (if d.vf == In && d.vfCpu == cpu then VF_WEIGHT else 0) + (if d.virtio == In && d.virtioCpu == cpu then VIRTIO_WEIGHT else 0)
  }

  /** Weighted load that the first `n` relays put on a CPU. */
  function Load(relays: seq<Directions>, n: nat, cpu: int): nat
    requires n <= |relays|
  {
    if n == 0 then 0 else Load(relays, n - 1, cpu) + Weight(relays[n - 1], cpu)
  }

  /** The relays whose VF, or whose VM, is attached and served by a CPU. */
  function VfsOn(relays: seq<Directions>, n: nat, cpu: int): set<nat>
    requires n <= |relays|
  {
    set i: nat | i < n && relays[i].vf == In && relays[i].vfCpu == cpu
  }

  function VmsOn(relays: seq<Directions>, n: nat, cpu: int): set<nat>
    requires n <= |relays|
  {
    set i: nat | i < n && relays[i].virtio == In && relays[i].virtioCpu == cpu
  }

  lemma {:induction false} OneMoreVf(relays: seq<Directions>, n: nat, cpu: int)
    requires n < |relays|
    ensures |VfsOn(relays, n + 1, cpu)| == |VfsOn(relays, n, cpu)| + (if relays[n].vf == In && relays[n].vfCpu == cpu then 1 else 0)
  {
    var before := VfsOn(relays, n, cpu);
    assert n !in before;
    assert VfsOn(relays, n + 1, cpu) == if relays[n].vf == In && relays[n].vfCpu == cpu then before + {n} else before;
  }

  lemma {:induction false} OneMoreVm(relays: seq<Directions>, n: nat, cpu: int)
    requires n < |relays|
    ensures |VmsOn(relays, n + 1, cpu)| == |VmsOn(relays, n, cpu)| + (if relays[n].virtio == In && relays[n].virtioCpu == cpu then 1 else 0)
  {
    var before := VmsOn(relays, n, cpu);
    assert n !in before;
    assert VmsOn(relays, n + 1, cpu) == if relays[n].virtio == In && relays[n].virtioCpu == cpu then before + {n} else before;
  }

  /** The load of a CPU is 12 for every VF and 10 for every VM that it serves. */
  lemma {:induction false} LoadCounts(relays: seq<Directions>, n: nat, cpu: int)
    requires n <= |relays|
    ensures Load(relays, n, cpu) == 12 * |VfsOn(relays, n, cpu)| + 10 * |VmsOn(relays, n, cpu)|
  {
    if n > 0 {
      LoadCounts(relays, n - 1, cpu);
      OneMoreVf(relays, n - 1, cpu);
      OneMoreVm(relays, n - 1, cpu);
    } else {
      assert VfsOn(relays, 0, cpu) == {} && VmsOn(relays, 0, cpu) == {};
    }
  }

  predicate OnNode(cpus: seq<Cpu>, node: int) {
    exists i :: 0 <= i < |cpus| && cpus[i].node == node && cpus[i].inBitmap
  }

  /** A node without workers is ignored, like a node that is not known. */
  predicate Eligible(cpus: seq<Cpu>, node: int, cpu: nat) {
    && cpu < |cpus| && cpus[cpu].inBitmap && cpus[cpu].initialized
    && (node != ANY_NODE && OnNode(cpus, node) ==> cpus[cpu].node == node)
  }

  predicate KnownCpus(relays: seq<Directions>) {
    forall i :: 0 <= i < |relays| ==> relays[i].vfCpu < MAX_CPUS && relays[i].virtioCpu < MAX_CPUS
  }

  /** The workers that may be chosen. */
  ghost function Workers(cpus: seq<Cpu>, node: int): set<int> {
    set c: int | 0 <= c < |cpus| && Eligible(cpus, node, c)
  }

  /** If all workers are on one node, all of them may be chosen, wherever the guest is. */
  lemma {:induction false} OneNodeForAll(cpus: seq<Cpu>, home: int, node: int)
    requires forall c :: 0 <= c < |cpus| && cpus[c].inBitmap ==> cpus[c].node == home
    ensures Workers(cpus, node) == Workers(cpus, ANY_NODE)
  {
    if node != ANY_NODE && OnNode(cpus, node) {
      var i :| 0 <= i < |cpus| && cpus[i].node == node && cpus[i].inBitmap;
      assert node == home;
    }
  }

  ghost predicate NoneEligible(cpus: seq<Cpu>, node: int) {
    forall c :: 0 <= c < |cpus| ==> !Eligible(cpus, node, c)
  }

  /** Eligible, no busier than any eligible CPU, and less busy than those before it. */
  ghost predicate FirstIdlest(relays: seq<Directions>, cpus: seq<Cpu>, node: int, least: int) {
    && 0 <= least < |cpus| && Eligible(cpus, node, least)
    && forall c :: 0 <= c < |cpus| && Eligible(cpus, node, c) ==>
         if c < least then Load(relays, |relays|, least) < Load(relays, |relays|, c)
         else Load(relays, |relays|, least) <= Load(relays, |relays|, c)
  }

  /** The guest's node is preferred: with a worker CPU there, only CPUs of that node are chosen; without one,
      or if the node is not known, any worker may be. */
  lemma {:induction false} NodeIsPreferred(cpus: seq<Cpu>, node: int, c: nat)
    ensures Eligible(cpus, node, c)
            <==> && c < |cpus| && cpus[c].inBitmap && cpus[c].initialized
                 && (cpus[c].node == node || node == -1 || forall i :: 0 <= i < |cpus| && cpus[i].inBitmap ==> cpus[i].node != node)
  {
  }

  method HaveWorkerOnNode(cpus: seq<Cpu>, node: int) returns (r: bool)
    ensures r == OnNode(cpus, node)
  {
    for i := 0 to |cpus|
      invariant forall j :: 0 <= j < i ==> !(cpus[j].node == node && cpus[j].inBitmap)
    {
      if cpus[i].node == node && cpus[i].inBitmap {
        return true;
      }
    }
    r := false;
  }

  /** The counting loop of naive_get_idlest_worker. */
  method CountLoads(relays: seq<Directions>) returns (loads: seq<nat>)
    requires KnownCpus(relays)
    ensures |loads| == MAX_CPUS && forall c :: 0 <= c < MAX_CPUS ==> loads[c] == Load(relays, |relays|, c)
  {
    loads := seq(MAX_CPUS, _ => 0);
    for w := 0 to |relays|
      invariant |loads| == MAX_CPUS && forall c :: 0 <= c < MAX_CPUS ==> loads[c] == Load(relays, w, c)
    {
      var d := relays[w];
      if d.vf == In && d.vfCpu >= 0 {
        loads := loads[d.vfCpu := loads[d.vfCpu] + VF_WEIGHT];
      }
      if d.virtio == In && d.virtioCpu >= 0 {
        loads := loads[d.virtioCpu := loads[d.virtioCpu] + VIRTIO_WEIGHT];
      }
    }
  }

  /** naive_get_idlest_worker: the first eligible worker of least load, or -1 if none is eligible. */
  method NaiveGetIdlestWorker(relays: seq<Directions>, cpus: seq<Cpu>, node: int) returns (least: int)
    requires KnownCpus(relays) && |cpus| == MAX_CPUS
    ensures least == -1 ==> NoneEligible(cpus, node)
    ensures least != -1 ==> FirstIdlest(relays, cpus, node, least)
  {
    var loads := CountLoads(relays);
    var workerOnNode := HaveWorkerOnNode(cpus, node);
    least := -1;
    var min := 0;
    for cpu := 0 to MAX_CPUS
      invariant -1 <= least < cpu
      invariant least == -1 ==> forall c :: 0 <= c < cpu ==> !Eligible(cpus, node, c)
      invariant least != -1 ==> Eligible(cpus, node, least) && min == loads[least]
      invariant least != -1 ==> forall c :: 0 <= c < cpu && Eligible(cpus, node, c) ==>
        if c < least then min < loads[c] else min <= loads[c]
    {
      if node != ANY_NODE && workerOnNode && cpus[cpu].node != node {
        continue;
      }
      if !cpus[cpu].inBitmap {
        continue;
      }
      if cpus[cpu].initialized {
        if least == -1 || loads[cpu] < min {
          least, min := cpu, loads[cpu];
        }
      }
    }
  }

  // ---------------------------------------------------------------- runs

  /** A worker of least load. */
  ghost predicate Idlest(relays: seq<Directions>, workers: set<int>, cpu: int) {
    cpu in workers && forall c :: c in workers ==> Load(relays, |relays|, cpu) <= Load(relays, |relays|, c)
  }

  /** The search yields an idlest worker of its node. */
  lemma {:induction false} FirstIdlestIsIdlest(relays: seq<Directions>, cpus: seq<Cpu>, node: int, least: int)
    requires FirstIdlest(relays, cpus, node, least)
    ensures Idlest(relays, Workers(cpus, node), least) && !NoneEligible(cpus, node)
  {
  }

  /** CPUs that a relay is pinned to on the command line, or NO_CPU. */
  datatype Pin = Pin(vf: int, virtio: int)

  datatype Config = Config(cpus: seq<Cpu>, pins: seq<Pin>)

  /** `node` is the NUMA node looked for. A VM that is refused has been given its CPU already. The two
      ends of a removal, release by the workers and clean-up, may come apart after a timeout. */
  datatype Event =
    | AttachVf(relay: nat, node: int, cpu: int)
    | ConnectVm(relay: nat, node: int, cpu: int, newVfCpu: int)
    | RefuseVm(relay: nat, node: int, cpu: int)
    | RemoveVf(relay: nat)
    | VfReleased(relay: nat)
    | VfDetached(relay: nat)
    | RemoveVm(relay: nat)
    | VmReleased(relay: nat)
    | VmRemoved(relay: nat)
    | Migrate(relay: nat, virtioTarget: nat, vfTarget: nat)

  function WithVirtio(d: Directions, cpu: int): Directions {
    d.(virtio := In, virtioCpu := cpu)
  }

  /** The direction from the VF is taken off its CPU while a new one is looked for. */
  function Unplaced(d: Directions): Directions {
    d.(vfCpu := NO_CPU)
  }

  function WithVf(d: Directions, cpu: int): Directions {
    d.(vf := In, vfCpu := cpu)
  }

  predicate Initialized(cpus: seq<Cpu>, c: nat) {
    c < |cpus| && cpus[c].initialized
  }

  function StepOne(d: Directions, cpus: seq<Cpu>, e: Event): Directions {
    match e
    case AttachVf(_, _, cpu) => WithVf(d, cpu)
    case ConnectVm(_, _, cpu, newVfCpu) =>
      if d.vf == In then WithVf(WithVirtio(d, cpu), newVfCpu) else WithVirtio(d, cpu)
    case RefuseVm(_, _, cpu) => d.(virtioCpu := cpu)
    case RemoveVf(_) => d.(vf := Leaving)
    case VfReleased(_) => d.(vf := Out)
    case VfDetached(_) => d.(vfCpu := NO_CPU)
    case RemoveVm(_) => d.(virtio := Leaving)
    case VmReleased(_) => d.(virtio := Out)
    case VmRemoved(_) => d.(virtioCpu := NO_CPU)
    case Migrate(_, virtioTarget, vfTarget) =>
      d.(virtioCpu := if Initialized(cpus, virtioTarget) && d.virtio == In then virtioTarget else d.virtioCpu,
         vfCpu := if Initialized(cpus, vfTarget) && d.vf == In then vfTarget else d.vfCpu)
  }

  function Apply(relays: seq<Directions>, cpus: seq<Cpu>, e: Event): seq<Directions> {
    if e.relay < |relays| then relays[e.relay := StepOne(relays[e.relay], cpus, e)] else relays
  }

  /** A pin decides, or else the search. */
  ghost predicate Chosen(relays: seq<Directions>, cpus: seq<Cpu>, pin: int, node: int, cpu: int) {
    if pin != NO_CPU then cpu == pin else FirstIdlest(relays, cpus, node, cpu)
  }

  predicate InBitmap(cpus: seq<Cpu>, c: int) {
    0 <= c < |cpus| && cpus[c].inBitmap
  }

  ghost predicate Enabled(relays: seq<Directions>, cfg: Config, e: Event) {
    && e.relay < |relays| && e.relay < |cfg.pins|
    && var d, pin := relays[e.relay], cfg.pins[e.relay];
       match e
       case AttachVf(_, node, cpu) => d.vf == Out && Chosen(relays, cfg.cpus, pin.vf, node, cpu)
       case ConnectVm(r, node, cpu, newVfCpu) =>
         && d.virtio == Out && Chosen(relays, cfg.cpus, pin.virtio, node, cpu) && InBitmap(cfg.cpus, cpu)
         && (d.vf == In ==> Chosen(relays[r := Unplaced(WithVirtio(d, cpu))], cfg.cpus, pin.vf, node, newVfCpu))
       case RefuseVm(_, node, cpu) =>
         d.virtio == Out && Chosen(relays, cfg.cpus, pin.virtio, node, cpu) && !InBitmap(cfg.cpus, cpu)
       case RemoveVf(_) => d.vf == In
       case VfReleased(_) => d.vf == Leaving
       case VfDetached(_) => d.vf == Out
       case RemoveVm(_) => d.virtio == In
       case VmReleased(_) => d.virtio == Leaving
       case VmRemoved(_) => d.virtio != In
       case Migrate(_, _, _) => true
  }

  ghost predicate CanRun(relays: seq<Directions>, cfg: Config, es: seq<Event>)
    decreases |es|
  {
    es == [] || (Enabled(relays, cfg, es[0]) && CanRun(Apply(relays, cfg.cpus, es[0]), cfg, es[1..]))
  }

  function After(relays: seq<Directions>, cpus: seq<Cpu>, es: seq<Event>): seq<Directions>
    decreases |es|
  {
    if es == [] then relays else After(Apply(relays, cpus, es[0]), cpus, es[1..])
  }

  function Idle(n: nat): (r: seq<Directions>)
    ensures |r| == n && forall i :: 0 <= i < n ==> r[i] == Directions(Out, NO_CPU, Out, NO_CPU)
  {
    seq(n, _ => Directions(Out, NO_CPU, Out, NO_CPU))
  }

  // ---------------------------------------------------------------- every assigned CPU is a worker

  predicate IsWorker(cpus: seq<Cpu>, c: int) {
    InBitmap(cpus, c) && cpus[c].initialized
  }

  predicate ValidCpu(cpus: seq<Cpu>, c: int) {
    c == NO_CPU || IsWorker(cpus, c)
  }

  ghost predicate AllValid(relays: seq<Directions>, cpus: seq<Cpu>) {
    forall i :: 0 <= i < |relays| ==> ValidCpu(cpus, relays[i].vfCpu) && ValidCpu(cpus, relays[i].virtioCpu)
  }

  ghost predicate PinsAreWorkers(cfg: Config) {
    forall i :: 0 <= i < |cfg.pins| ==> ValidCpu(cfg.cpus, cfg.pins[i].vf) && ValidCpu(cfg.cpus, cfg.pins[i].virtio)
  }

  /** What migrate_relay_cpus accepts, namely what is initialised, is a worker. */
  ghost predicate TargetsAreWorkers(cfg: Config) {
    forall c :: 0 <= c < |cfg.cpus| && cfg.cpus[c].initialized ==> cfg.cpus[c].inBitmap
  }

  /** There are relays, and a worker to run them. */
  ghost predicate Operable(cfg: Config) {
    |cfg.pins| > 0 && exists c :: IsWorker(cfg.cpus, c)
  }

  ghost predicate SoundConfig(cfg: Config) {
    PinsAreWorkers(cfg) && (Operable(cfg) ==> TargetsAreWorkers(cfg))
  }

  /** In no run is a direction assigned to anything but a worker. */
  ghost predicate AlwaysValid(cfg: Config) {
    forall es :: CanRun(Idle(|cfg.pins|), cfg, es) ==> AllValid(After(Idle(|cfg.pins|), cfg.cpus, es), cfg.cpus)
  }

  /** A CPU that is chosen under valid pins is a worker. */
  lemma {:induction false} ChosenIsWorker(relays: seq<Directions>, cfg: Config, pin: int, node: int, cpu: int)
    requires Chosen(relays, cfg.cpus, pin, node, cpu) && ValidCpu(cfg.cpus, pin)
    ensures IsWorker(cfg.cpus, cpu)
  {
  }

  /** A direction that has a side attached is on a worker, so there is one. */
  ghost predicate InMeansWorker(relays: seq<Directions>, cfg: Config) {
    forall i :: 0 <= i < |relays| && (relays[i].vf == In || relays[i].virtio == In) ==> Operable(cfg)
  }

  lemma {:induction false} StepKeepsValid(relays: seq<Directions>, cfg: Config, e: Event)
    requires SoundConfig(cfg) && AllValid(relays, cfg.cpus) && InMeansWorker(relays, cfg) && Enabled(relays, cfg, e)
    ensures AllValid(Apply(relays, cfg.cpus, e), cfg.cpus) && InMeansWorker(Apply(relays, cfg.cpus, e), cfg)
  {
    var pin, d := cfg.pins[e.relay], relays[e.relay];
    match e
    case AttachVf(_, node, cpu) =>
      ChosenIsWorker(relays, cfg, pin.vf, node, cpu);
    case ConnectVm(r, node, cpu, newVfCpu) =>
      ChosenIsWorker(relays, cfg, pin.virtio, node, cpu);
      if d.vf == In {
        ChosenIsWorker(relays[r := Unplaced(WithVirtio(d, cpu))], cfg, pin.vf, node, newVfCpu);
      }
    case RefuseVm(_, node, cpu) =>
      ChosenIsWorker(relays, cfg, pin.virtio, node, cpu);
    case _ =>
  }

  lemma {:induction false} RunKeepsValid(relays: seq<Directions>, cfg: Config, es: seq<Event>)
    requires SoundConfig(cfg) && AllValid(relays, cfg.cpus) && InMeansWorker(relays, cfg) && CanRun(relays, cfg, es)
    ensures AllValid(After(relays, cfg.cpus, es), cfg.cpus)
    decreases |es|
  {
    if es != [] {
      StepKeepsValid(relays, cfg, es[0]);
      RunKeepsValid(Apply(relays, cfg.cpus, es[0]), cfg, es[1..]);
    }
  }

  lemma {:induction false} OneEvent(relays: seq<Directions>, cfg: Config, e: Event)
    requires Enabled(relays, cfg, e)
    ensures CanRun(relays, cfg, [e]) && After(relays, cfg.cpus, [e]) == Apply(relays, cfg.cpus, e)
  {
    assert [e][1..] == [];
  }

  lemma {:induction false} TwoEvents(relays: seq<Directions>, cfg: Config, e: Event, f: Event)
    requires Enabled(relays, cfg, e) && Enabled(Apply(relays, cfg.cpus, e), cfg, f)
    ensures CanRun(relays, cfg, [e, f]) && After(relays, cfg.cpus, [e, f]) == Apply(Apply(relays, cfg.cpus, e), cfg.cpus, f)
  {
    assert [e, f][1..] == [f];
    OneEvent(Apply(relays, cfg.cpus, e), cfg, f);
  }

  /** Among the first `n` CPUs there is a first idlest one, if any is eligible. */
  lemma {:induction false} SearchSucceeds(relays: seq<Directions>, cpus: seq<Cpu>, node: int, n: nat) returns (least: int)
    requires n <= |cpus|
    ensures least == -1 ==> forall c :: 0 <= c < n ==> !Eligible(cpus, node, c)
    ensures least != -1 ==> 0 <= least < n && Eligible(cpus, node, least)
    ensures least != -1 ==> forall c :: 0 <= c < n && Eligible(cpus, node, c) ==>
      if c < least then Load(relays, |relays|, least) < Load(relays, |relays|, c)
      else Load(relays, |relays|, least) <= Load(relays, |relays|, c)
  {
    least := -1;
    if n > 0 {
      least := SearchSucceeds(relays, cpus, node, n - 1);
      if Eligible(cpus, node, n - 1) && (least == -1 || Load(relays, |relays|, n - 1) < Load(relays, |relays|, least)) {
        least := n - 1;
      }
    }
  }

  /** A VF pin that is not a worker is taken as it is. */
  lemma {:induction false} BadVfPin(cfg: Config, i: nat)
    requires i < |cfg.pins| && !ValidCpu(cfg.cpus, cfg.pins[i].vf)
    ensures !AlwaysValid(cfg)
  {
    var s, e := Idle(|cfg.pins|), AttachVf(i, ANY_NODE, cfg.pins[i].vf);
    OneEvent(s, cfg, e);
    assert After(s, cfg.cpus, [e])[i].vfCpu == cfg.pins[i].vf;
  }

  /** So is a virtio pin, even if the VM is then refused. */
  lemma {:induction false} BadVirtioPin(cfg: Config, i: nat)
    requires i < |cfg.pins| && !ValidCpu(cfg.cpus, cfg.pins[i].virtio)
    ensures !AlwaysValid(cfg)
  {
    var s, pin := Idle(|cfg.pins|), cfg.pins[i].virtio;
    var e := if InBitmap(cfg.cpus, pin) then ConnectVm(i, ANY_NODE, pin, NO_CPU) else RefuseVm(i, ANY_NODE, pin);
    OneEvent(s, cfg, e);
    assert After(s, cfg.cpus, [e])[i].virtioCpu == pin;
  }

  /** A CPU that is initialised but not in the bitmap is accepted by a migration. */
  lemma {:induction false} BadTarget(cfg: Config, c: nat)
    requires PinsAreWorkers(cfg) && Operable(cfg) && c < |cfg.cpus| && cfg.cpus[c].initialized && !cfg.cpus[c].inBitmap
    ensures !AlwaysValid(cfg)
  {
    var s := Idle(|cfg.pins|);
    var cpu := cfg.pins[0].vf;
    if cpu == NO_CPU {
      var w :| IsWorker(cfg.cpus, w);
      assert Eligible(cfg.cpus, ANY_NODE, w);
      cpu := SearchSucceeds(s, cfg.cpus, ANY_NODE, |cfg.cpus|);
    }
    var e, f := AttachVf(0, ANY_NODE, cpu), Migrate(0, c, c);
    TwoEvents(s, cfg, e, f);
    assert After(s, cfg.cpus, [e, f])[0].vfCpu == c;
  }

  /** Over all runs with pins, migrations, refusals and removals, every assigned CPU is NO_CPU or an
      initialised worker in the bitmap if and only if the pins are such workers and, once something can
      be attached, every initialised CPU is in the bitmap. */
  lemma {:induction false} AssignedCpusValidExactlyWhen(cfg: Config)
    ensures AlwaysValid(cfg) <==> SoundConfig(cfg)
  {
    if SoundConfig(cfg) {
      forall es | CanRun(Idle(|cfg.pins|), cfg, es) ensures AllValid(After(Idle(|cfg.pins|), cfg.cpus, es), cfg.cpus) {
        RunKeepsValid(Idle(|cfg.pins|), cfg, es);
      }
    } else if i :| 0 <= i < |cfg.pins| && !ValidCpu(cfg.cpus, cfg.pins[i].vf) {
      BadVfPin(cfg, i);
    } else if i :| 0 <= i < |cfg.pins| && !ValidCpu(cfg.cpus, cfg.pins[i].virtio) {
      BadVirtioPin(cfg, i);
    } else {
      var c :| 0 <= c < |cfg.cpus| && cfg.cpus[c].initialized && !cfg.cpus[c].inBitmap;
      BadTarget(cfg, c);
    }
  }

  /** What start-up checks: a relay with a VF pin has both pins in the bitmap. */
  ghost predicate PinsPass(cfg: Config) {
    forall i :: 0 <= i < |cfg.pins| && cfg.pins[i].vf != NO_CPU ==>
      InBitmap(cfg.cpus, cfg.pins[i].vf) && InBitmap(cfg.cpus, cfg.pins[i].virtio)
  }

  /** The loop over the pins at start-up. */
  method CheckPins(cfg: Config) returns (ok: bool)
    ensures ok <==> PinsPass(cfg)
  {
    for i := 0 to |cfg.pins|
      invariant forall j :: 0 <= j < i && cfg.pins[j].vf != NO_CPU ==>
        InBitmap(cfg.cpus, cfg.pins[j].vf) && InBitmap(cfg.cpus, cfg.pins[j].virtio)
    {
      var cpu := cfg.pins[i].vf;
      if cpu == NO_CPU {
        continue;
      }
      if !InBitmap(cfg.cpus, cpu) {
        return false;
      }
      cpu := cfg.pins[i].virtio;
      if !InBitmap(cfg.cpus, cpu) {
        return false;
      }
    }
    ok := true;
  }

  /** If exactly the CPUs of the bitmap are initialised, the check makes the configuration sound exactly
      when it also holds of the relays that it skips: those with a virtio pin only. */
  lemma {:induction false} CheckSufficesExactlyWhen(cfg: Config)
    requires PinsPass(cfg) && forall c :: 0 <= c < |cfg.cpus| ==> cfg.cpus[c].initialized == cfg.cpus[c].inBitmap
    ensures SoundConfig(cfg)
            <==> forall i :: 0 <= i < |cfg.pins| && cfg.pins[i].vf == NO_CPU && cfg.pins[i].virtio != NO_CPU ==>
                   InBitmap(cfg.cpus, cfg.pins[i].virtio)
  {
  }

  // ---------------------------------------------------------------- even loads

  /** No worker carries more than the weight of one VF direction above another. */
  ghost predicate Even(relays: seq<Directions>, workers: set<int>) {
    forall c, d :: c in workers && d in workers ==> Load(relays, |relays|, c) <= Load(relays, |relays|, d) + VF_WEIGHT
  }

  /** Attached sides have workers, and nothing is being removed. */
  predicate PlacedOn(d: Directions, workers: set<int>) {
    && d.vf != Leaving && d.virtio != Leaving
    && (d.vf == In ==> d.vfCpu in workers) && (d.virtio == In ==> d.virtioCpu in workers)
  }

  ghost predicate AllPlaced(relays: seq<Directions>, workers: set<int>) {
    forall i :: 0 <= i < |relays| ==> PlacedOn(relays[i], workers)
  }

  /** Replacing one relay changes a load by the difference of its weights. */
  lemma {:induction false} LoadAfterUpdate(relays: seq<Directions>, r: nat, d: Directions, n: nat, cpu: int)
    requires r < |relays| && n <= |relays|
    ensures Load(relays[r := d], n, cpu) == Load(relays, n, cpu) + (if r < n then Weight(d, cpu) - Weight(relays[r], cpu) else 0)
  {
    if n > 0 {
      LoadAfterUpdate(relays, r, d, n - 1, cpu);
    }
  }

  /** Adding a weight of at most 12 to an idlest worker keeps the loads even. */
  lemma {:induction false} RaisingIdlestKeepsEven(relays: seq<Directions>, workers: set<int>, after: seq<Directions>, cpu: int, w: nat)
    requires Even(relays, workers) && Idlest(relays, workers, cpu) && w <= VF_WEIGHT
    requires forall c :: c in workers ==>
      Load(after, |after|, c) == Load(relays, |relays|, c) + (if c == cpu then w else 0)
    ensures Even(after, workers)
  {
  }

  lemma {:induction false} AttachVfKeepsEven(relays: seq<Directions>, workers: set<int>, r: nat, cpu: int)
    requires r < |relays| && relays[r].vf == Out && Even(relays, workers) && Idlest(relays, workers, cpu)
    ensures Even(relays[r := WithVf(relays[r], cpu)], workers)
  {
    var after := relays[r := WithVf(relays[r], cpu)];
    forall c | c in workers ensures Load(after, |after|, c) == Load(relays, |relays|, c) + (if c == cpu then VF_WEIGHT else 0) {
      LoadAfterUpdate(relays, r, WithVf(relays[r], cpu), |relays|, c);
    }
    RaisingIdlestKeepsEven(relays, workers, after, cpu, VF_WEIGHT);
  }

  lemma {:induction false} ConnectKeepsEven(relays: seq<Directions>, workers: set<int>, r: nat, cpu: int)
    requires r < |relays| && relays[r].virtio == Out && Even(relays, workers) && Idlest(relays, workers, cpu)
    ensures Even(relays[r := WithVirtio(relays[r], cpu)], workers)
  {
    var after := relays[r := WithVirtio(relays[r], cpu)];
    forall c | c in workers ensures Load(after, |after|, c) == Load(relays, |relays|, c) + (if c == cpu then VIRTIO_WEIGHT else 0) {
      LoadAfterUpdate(relays, r, WithVirtio(relays[r], cpu), |relays|, c);
    }
    RaisingIdlestKeepsEven(relays, workers, after, cpu, VIRTIO_WEIGHT);
  }

  /** Moving a waiting VF: the CPU it leaves is among the idlest once it has left, so the loads are
      the same up to an exchange. */
  lemma {:induction false} MovingVfKeepsEven(relays: seq<Directions>, workers: set<int>, r: nat, cpu: int)
    requires r < |relays| && relays[r].vf == In && relays[r].vfCpu in workers && NO_CPU !in workers
    requires Even(relays, workers) && Idlest(relays[r := Unplaced(relays[r])], workers, cpu)
    ensures Even(relays[r := WithVf(relays[r], cpu)], workers)
  {
    var off, from := relays[r := Unplaced(relays[r])], relays[r].vfCpu;
    var after := relays[r := WithVf(relays[r], cpu)];
    forall c | c in workers
      ensures Load(off, |off|, c) == Load(relays, |relays|, c) - (if c == from then VF_WEIGHT else 0)
      ensures Load(after, |after|, c) == Load(off, |off|, c) + (if c == cpu then VF_WEIGHT else 0)
    {
      LoadAfterUpdate(relays, r, Unplaced(relays[r]), |relays|, c);
      LoadAfterUpdate(relays, r, WithVf(relays[r], cpu), |relays|, c);
    }
    assert Load(off, |off|, cpu) == Load(off, |off|, from);
  }

  predicate Unpinned(cfg: Config) {
    forall i :: 0 <= i < |cfg.pins| ==> cfg.pins[i] == Pin(NO_CPU, NO_CPU)
  }

  /** All workers are on node `home`. */
  predicate OneNode(cpus: seq<Cpu>, home: int) {
    forall c :: 0 <= c < |cpus| && cpus[c].inBitmap ==> cpus[c].node == home
  }

  predicate AttachesOnly(es: seq<Event>) {
    forall i :: 0 <= i < |es| ==> es[i].AttachVf? || es[i].ConnectVm?
  }

  /** On one node the search yields an idlest one of all workers. */
  lemma {:induction false} ChosenIsIdlest(relays: seq<Directions>, cpus: seq<Cpu>, home: int, node: int, cpu: int)
    requires OneNode(cpus, home) && Chosen(relays, cpus, NO_CPU, node, cpu)
    ensures Idlest(relays, Workers(cpus, ANY_NODE), cpu)
  {
    FirstIdlestIsIdlest(relays, cpus, node, cpu);
    OneNodeForAll(cpus, home, node);
  }

  lemma {:induction false} StepKeepsEven(relays: seq<Directions>, cfg: Config, home: int, e: Event)
    requires Unpinned(cfg) && OneNode(cfg.cpus, home) && Enabled(relays, cfg, e) && (e.AttachVf? || e.ConnectVm?)
    requires var workers := Workers(cfg.cpus, ANY_NODE); Even(relays, workers) && AllPlaced(relays, workers)
    ensures var workers := Workers(cfg.cpus, ANY_NODE);
      Even(Apply(relays, cfg.cpus, e), workers) && AllPlaced(Apply(relays, cfg.cpus, e), workers)
  {
    var workers, r, d := Workers(cfg.cpus, ANY_NODE), e.relay, relays[e.relay];
    assert PlacedOn(d, workers) && cfg.pins[r] == Pin(NO_CPU, NO_CPU);
    ChosenIsIdlest(relays, cfg.cpus, home, e.node, e.cpu);
    if e.AttachVf? {
      AttachVfKeepsEven(relays, workers, r, e.cpu);
    } else {
      ConnectKeepsEven(relays, workers, r, e.cpu);
      var connected := relays[r := WithVirtio(d, e.cpu)];
      if d.vf == In {
        assert connected[r := Unplaced(WithVirtio(d, e.cpu))] == relays[r := Unplaced(WithVirtio(d, e.cpu))];
        ChosenIsIdlest(relays[r := Unplaced(WithVirtio(d, e.cpu))], cfg.cpus, home, e.node, e.newVfCpu);
        MovingVfKeepsEven(connected, workers, r, e.newVfCpu);
        assert connected[r := WithVf(WithVirtio(d, e.cpu), e.newVfCpu)] == relays[r := WithVf(WithVirtio(d, e.cpu), e.newVfCpu)];
      }
    }
  }

  lemma {:induction false} RunKeepsEven(relays: seq<Directions>, cfg: Config, home: int, es: seq<Event>)
    requires Unpinned(cfg) && OneNode(cfg.cpus, home) && CanRun(relays, cfg, es) && AttachesOnly(es)
    requires Even(relays, Workers(cfg.cpus, ANY_NODE)) && AllPlaced(relays, Workers(cfg.cpus, ANY_NODE))
    ensures Even(After(relays, cfg.cpus, es), Workers(cfg.cpus, ANY_NODE))
    decreases |es|
  {
    if es != [] {
      StepKeepsEven(relays, cfg, home, es[0]);
      RunKeepsEven(Apply(relays, cfg.cpus, es[0]), cfg, home, es[1..]);
    }
  }

  lemma {:induction false} IdleLoad(n: nat, k: nat, cpu: int)
    requires k <= n
    ensures Load(Idle(n), k, cpu) == 0
  {
    if k > 0 {
      IdleLoad(n, k - 1, cpu);
    }
  }

  /** On one NUMA node, without pins, migrations and removals: after any run of attaches, each placed by
      the search, the loads of the workers differ by at most 12. */
  lemma {:induction false} AttachesStayEven(cfg: Config, home: int, es: seq<Event>)
    requires Unpinned(cfg) && OneNode(cfg.cpus, home) && CanRun(Idle(|cfg.pins|), cfg, es) && AttachesOnly(es)
    ensures Even(After(Idle(|cfg.pins|), cfg.cpus, es), Workers(cfg.cpus, ANY_NODE))
  {
    var n := |cfg.pins|;
    forall c ensures Load(Idle(n), |Idle(n)|, c) == 0 {
      IdleLoad(n, n, c);
    }
    RunKeepsEven(Idle(n), cfg, home, es);
  }
}
