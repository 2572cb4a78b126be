/** The workers' cache of the relay table, and the dirty flag that invalidates it.

    Control threads write the CPU and state fields of a relay and afterwards set `need_update` of
    the worker concerned. A worker that finds its flag set clears it, reads the relay table entry by
    entry, and publishes the bitmap of relays it has to serve. Each single write, flag, read and
    publication is a step of its own here, and all interleavings are allowed; control operations on
    one relay are serialised, those on different relays are not.

    A relay has two sides. Position 2w of `sides` is the VF side of relay w and position 2w+1 its
    virtio side, the order in which a scan reads them. A bitmap is the set of its bits: a worker that
    has the bit of a relay serves those sides of it that are on its CPU. */
module WorkerCache {
  import opened Common

  /** `live` means that the state of the side is not UNINIT, `removing` that it is REMOVING1 or
      REMOVING2. */
  datatype Side = Side(live: bool, removing: bool, cpu: int)

  datatype Pc =
    | Top
    | Loaded(work: set<nat>)
    | Scanning(work: set<nat>, next: nat, seen: set<nat>)
    | Serving(work: set<nat>)

  datatype Worker = Worker(needUpdate: bool, active: set<nat>, pc: Pc)

  /** One store of a control operation. GiveUpIfLive is the end of the wait for the VF to be released: if
      it is still live, the operation ends there. */
  datatype Store =
    | SetCpu(pos: nat, cpu: int)
    | SetLive(pos: nat)
    | SetRemoving(pos: nat)
    | GiveUpIfLive(pos: nat)
    | Flag(worker: int)

  /** `pending[w]` holds the stores that the control operation on relay w has yet to make; `pins` the
      CPUs that the sides are pinned to on the command line. */
  datatype State = State(sides: seq<Side>, workers: seq<Worker>, pending: seq<seq<Store>>, pins: seq<int>)

  /** The control operations; `c` and `d` are the CPUs chosen for the virtio and the VF side. add_virtio
      places a waiting VF again and starts it. */
  datatype Op =
    | AddVf(d: int)
    | AddVirtio(c: int, d: int, started: bool)
    | RemoveVf
    | RemoveVirtio(stopVf: bool)
    | Migrate(moveVirtio: bool, c: int, moveVf: bool, d: int)

  /** Released: a worker has finished the removal of a side. */
  datatype Step =
    | Begin(relay: nat, op: Op)
    | Control(relay: nat)
    | Work(worker: nat)
    | Released(pos: nat)

  function VfPos(w: nat): nat { 2 * w }
  function VirtioPos(w: nat): nat { 2 * w + 1 }
  function RelayOf(pos: nat): nat { pos / 2 }

  // ---------------------------------------------------------------- control operations

  /** Stores of find_vf2virtio_cpu and find_virtio2vf_cpu, which only differ in the side. */
  function FindCpu(pos: nat, from: int, cpu: int, pinned: bool): seq<Store> {
    (if !pinned && from != NO_CPU then [Flag(from), SetCpu(pos, NO_CPU)] else []) + [SetCpu(pos, cpu)]
  }

  predicate Pinned(s: State, pos: nat) {
    pos < |s.pins| && s.pins[pos] != NO_CPU
  }

  /** A VF that waits for its VM. */
  predicate Attached(side: Side) {
    side.live && !side.removing
  }

  /** Stores of an operation on relay `w`, in program order. The virtio removal goes on after its wait
      whether or not the side was released. */
  function Stores(s: State, w: nat, op: Op): seq<Store>
    requires VirtioPos(w) < |s.sides|
  {
    var vf, vio := s.sides[VfPos(w)].cpu, s.sides[VirtioPos(w)].cpu;
    match op
    case AddVf(d) =>
      FindCpu(VfPos(w), vf, d, Pinned(s, VfPos(w))) + [SetLive(VfPos(w)), Flag(d)]
    case AddVirtio(c, d, started) =>
      FindCpu(VirtioPos(w), vio, c, Pinned(s, VirtioPos(w))) + [SetLive(VirtioPos(w)), Flag(c)]
      + (if Attached(s.sides[VfPos(w)])
         then FindCpu(VfPos(w), vf, d, Pinned(s, VfPos(w))) + (if started then [Flag(d)] else [])
         else [])
    case RemoveVf =>
      [SetRemoving(VfPos(w)), GiveUpIfLive(VfPos(w)), SetCpu(VfPos(w), NO_CPU), Flag(vf)]
    case RemoveVirtio(stopVf) =>
      [SetRemoving(VirtioPos(w)), SetCpu(VirtioPos(w), NO_CPU), Flag(vio)] + (if stopVf then [Flag(vf)] else [])
    case Migrate(moveVirtio, c, moveVf, d) =>
      (if moveVirtio then [SetCpu(VirtioPos(w), c), Flag(vio), Flag(c)] else [])
      + (if moveVf then [SetCpu(VfPos(w), d), Flag(vf), Flag(d)] else [])
  }

  function UpdateSide(s: State, pos: nat, side: Side): State {
    if pos < |s.sides| then s.(sides := s.sides[pos := side]) else s
  }

  function ApplyStore(s: State, store: Store): State {
    match store
    case SetCpu(pos, cpu) => if pos < |s.sides| then UpdateSide(s, pos, s.sides[pos].(cpu := cpu)) else s
    case SetLive(pos) => if pos < |s.sides| then UpdateSide(s, pos, Side(true, false, s.sides[pos].cpu)) else s
    case SetRemoving(pos) => if pos < |s.sides| then UpdateSide(s, pos, s.sides[pos].(removing := true)) else s
    case GiveUpIfLive(_) => s
    case Flag(c) =>
      if 0 <= c < |s.workers| then s.(workers := s.workers[c := s.workers[c].(needUpdate := true)]) else s
  }

  /** What is left to do after the first store. */
  function Remaining(s: State, stores: seq<Store>): seq<Store>
    requires stores != []
  {
    if stores[0].GiveUpIfLive? && stores[0].pos < |s.sides| && s.sides[stores[0].pos].live then [] else stores[1..]
  }

  // ---------------------------------------------------------------- the worker loop

  predicate AssignedTo(s: State, pos: nat, c: int) {
    pos < |s.sides| && s.sides[pos].live && s.sides[pos].cpu == c
  }

  /** Next step of worker `c`: take the work list, test the flag, read one entry, publish, serve. */
  function WorkerStep(s: State, c: nat): Worker
    requires c < |s.workers|
  {
    var t := s.workers[c];
    match t.pc
    case Top => t.(pc := Loaded(t.active))
    case Loaded(work) =>
      if t.needUpdate then t.(needUpdate := false, pc := Scanning(work, 0, {})) else t.(pc := Serving(work))
    case Scanning(work, next, seen) =>
      if next < |s.sides| then
        t.(pc := Scanning(work, next + 1, if AssignedTo(s, next, c) then seen + {RelayOf(next)} else seen))
      else t.(active := seen, pc := Serving(work))
    case Serving(_) => t.(pc := Top)
  }

  // ---------------------------------------------------------------- steps and runs

  predicate Shaped(s: State) {
    |s.sides| == 2 * |s.pending| && |s.pins| == |s.sides|
  }

  /** A pinned side goes where it is pinned to. */
  predicate PinAllows(s: State, pos: nat, cpu: int) {
    Pinned(s, pos) ==> cpu == s.pins[pos]
  }

  /** What each operation demands of the states of the two sides. */
  predicate OpEnabled(s: State, w: nat, op: Op)
    requires VirtioPos(w) < |s.sides|
  {
    var vf, vio := s.sides[VfPos(w)], s.sides[VirtioPos(w)];
    match op
    case AddVf(d) => !vf.live && PinAllows(s, VfPos(w), d)
    case AddVirtio(c, d, _) => !vio.live && PinAllows(s, VirtioPos(w), c) && PinAllows(s, VfPos(w), d)
    case RemoveVf => Attached(vf)
    case RemoveVirtio(_) => Attached(vio)
    case Migrate(moveVirtio, _, moveVf, _) => (moveVirtio ==> Attached(vio)) && (moveVf ==> Attached(vf))
  }

  /** Workers release a side only during its removal, or after the wait for them was given up. */
  predicate Enabled(s: State, step: Step) {
    match step
    case Begin(w, op) => w < |s.pending| && s.pending[w] == [] && VirtioPos(w) < |s.sides| && OpEnabled(s, w, op)
    case Control(w) => w < |s.pending| && s.pending[w] != []
    case Work(c) => c < |s.workers|
    case Released(pos) => pos < |s.sides| && s.sides[pos].live && s.sides[pos].removing
  }

  function Apply(s: State, step: Step): State
    requires Enabled(s, step)
  {
    match step
    case Begin(w, op) => s.(pending := s.pending[w := Stores(s, w, op)])
    case Control(w) =>
      ApplyStore(s, s.pending[w][0]).(pending := s.pending[w := Remaining(s, s.pending[w])])
    case Work(c) => s.(workers := s.workers[c := WorkerStep(s, c)])
    case Released(pos) => UpdateSide(s, pos, Side(false, false, s.sides[pos].cpu))
  }

  /** A failed device start inside add_virtio leaves the VF side moved but not announced. That is
      harmless if it went to the worker that the virtio side was announced to, since the bit in the
      cache stands for both sides, or if it is pinned to the CPU it already had. */
  predicate StartIsSafe(s: State, step: Step)
    requires Enabled(s, step)
  {
    step.Begin? && step.op.AddVirtio? && Attached(s.sides[VfPos(step.relay)]) && !step.op.started ==>
      step.op.d == step.op.c || (Pinned(s, VfPos(step.relay)) && step.op.d == s.sides[VfPos(step.relay)].cpu)
  }

  /** Freshly initialised: nothing attached, empty caches, all flags clear. */
  ghost predicate Initial(s: State) {
    && Shaped(s)
    && (forall p :: 0 <= p < |s.sides| ==> s.sides[p] == Side(false, false, NO_CPU))
    && (forall c :: 0 <= c < |s.workers| ==> s.workers[c] == Worker(false, {}, Top))
    && (forall w :: 0 <= w < |s.pending| ==> s.pending[w] == [])
  }

  predicate CanRun(s: State, steps: seq<Step>)
    decreases |steps|
  {
    steps == [] || (Enabled(s, steps[0]) && CanRun(Apply(s, steps[0]), steps[1..]))
  }

  function After(s: State, steps: seq<Step>): State
    requires CanRun(s, steps)
    decreases |steps|
  {
    if steps == [] then s else After(Apply(s, steps[0]), steps[1..])
  }

  /** No device start fails in a harmful way along the run. */
  predicate StartsAreSafe(s: State, steps: seq<Step>)
    requires CanRun(s, steps)
    decreases |steps|
  {
    steps == [] || (StartIsSafe(s, steps[0]) && StartsAreSafe(Apply(s, steps[0]), steps[1..]))
  }

  // ---------------------------------------------------------------- coherence

  /** Worker `c` serves relay `w`, or will without being told again: the relay is in its cache, or the scan
      in progress has found it or has yet to read a side of it. */
  predicate WillServeRelay(s: State, c: nat, w: nat)
    requires c < |s.workers|
  {
    var t := s.workers[c];
    if t.pc.Scanning? then
      w in t.pc.seen || t.pc.next <= VfPos(w) || (t.pc.next <= VirtioPos(w) && AssignedTo(s, VirtioPos(w), c))
    else w in t.active
  }

  predicate KnownTo(s: State, c: int, w: nat) {
    0 <= c < |s.workers| ==> s.workers[c].needUpdate || WillServeRelay(s, c, w)
  }

  /** The operation is bound to set the flag of worker `c`. */
  predicate Flags(stores: seq<Store>, c: int)
    decreases |stores|
  {
    stores != [] && !stores[0].GiveUpIfLive? && (stores[0] == Flag(c) || Flags(stores[1..], c))
  }

  /** The assignment of this side is known to its worker, or about to be announced. */
  predicate Coherent(s: State, pos: nat) {
    pos < |s.sides| && RelayOf(pos) < |s.pending| &&
    (s.sides[pos].live ==> KnownTo(s, s.sides[pos].cpu, RelayOf(pos)) || Flags(s.pending[RelayOf(pos)], s.sides[pos].cpu))
  }

  /** While the virtio side is being removed, the flag of its worker is still to come. */
  predicate LeavingIsAnnounced(stores: seq<Store>, vio: Side) {
    vio.live && vio.removing && vio.cpu != NO_CPU ==> Flags(stores, vio.cpu)
  }

  /** Every store that may complete a new assignment is followed by the flag of that worker, or puts the
      VF side with a virtio side that stays; a virtio side that leaves is followed by the flag of the
      worker it leaves. */
  predicate Announced(stores: seq<Store>, w: nat, vfCpu: int, vio: Side)
    decreases |stores|
  {
    LeavingIsAnnounced(stores, vio) &&
    (stores == [] ||
     var rest := stores[1..];
     match stores[0]
     case Flag(_) => Announced(rest, w, vfCpu, vio)
     case GiveUpIfLive(_) => LeavingIsAnnounced([], vio) && Announced(rest, w, vfCpu, vio)
     case SetCpu(pos, cpu) =>
       if pos == VfPos(w) then
         && (cpu == NO_CPU || cpu == vfCpu || Flags(rest, cpu) || (Attached(vio) && vio.cpu == cpu))
         && Announced(rest, w, cpu, vio)
       else
         && pos == VirtioPos(w)
         && (cpu == NO_CPU || cpu == vio.cpu || Flags(rest, cpu))
         && (vio.live && vio.cpu != NO_CPU && vio.cpu != cpu ==> Flags(rest, vio.cpu))
         && Announced(rest, w, vfCpu, vio.(cpu := cpu))
     case SetLive(pos) =>
       && (pos == VfPos(w) || pos == VirtioPos(w))
       && Flags(rest, if pos == VfPos(w) then vfCpu else vio.cpu)
       && Announced(rest, w, vfCpu, if pos == VfPos(w) then vio else Side(true, false, vio.cpu))
     case SetRemoving(pos) =>
       && (pos == VfPos(w) || pos == VirtioPos(w))
       && Announced(rest, w, vfCpu, if pos == VfPos(w) then vio else vio.(removing := true)))
  }

  predicate WillAnnounce(s: State, w: nat) {
    w < |s.pending| && VirtioPos(w) < |s.sides| && Announced(s.pending[w], w, s.sides[VfPos(w)].cpu, s.sides[VirtioPos(w)])
  }

  ghost predicate Inv(s: State) {
    && Shaped(s)
    && (forall pos {:trigger Coherent(s, pos)} :: 0 <= pos < |s.sides| ==> Coherent(s, pos))
    && (forall w {:trigger WillAnnounce(s, w)} :: 0 <= w < |s.pending| ==> WillAnnounce(s, w))
  }

  lemma {:induction false} InitialInv(s: State)
    requires Initial(s)
    ensures Inv(s)
  {
  }

  // ---------------------------------------------------------------- operations announce

  /** Only flags, and nothing is being removed from a worker. */
  lemma {:induction false} FlagsOnly(stores: seq<Store>, w: nat, vfCpu: int, vio: Side)
    requires forall i :: 0 <= i < |stores| ==> stores[i].Flag?
    requires vio.live && vio.removing ==> vio.cpu == NO_CPU
    ensures Announced(stores, w, vfCpu, vio)
    decreases |stores|
  {
    if stores != [] {
      FlagsOnly(stores[1..], w, vfCpu, vio);
    }
  }

  /** Placing the VF side: [SetCpu(d)] + tail, possibly after taking it off its CPU. */
  lemma {:induction false} PlaceVfAnnounces(w: nat, from: int, d: int, pinned: bool, tail: seq<Store>, vfCpu: int, vio: Side)
    requires vio.live && vio.removing ==> vio.cpu == NO_CPU
    requires Announced(tail, w, d, vio)
    requires Flags(tail, d) || (Attached(vio) && vio.cpu == d) || (pinned && d == vfCpu)
    ensures Announced(FindCpu(VfPos(w), from, d, pinned) + tail, w, vfCpu, vio)
  {
    var last := [SetCpu(VfPos(w), d)] + tail;
    assert last[1..] == tail;
    var stores := FindCpu(VfPos(w), from, d, pinned) + tail;
    if !pinned && from != NO_CPU {
      assert stores[1..] == [SetCpu(VfPos(w), NO_CPU)] + last && stores[1..][1..] == last;
      assert Announced(last, w, NO_CPU, vio);
    } else {
      assert stores == last;
    }
  }

  /** Placing a virtio side that is not live. */
  lemma {:induction false} PlaceVirtioAnnounces(w: nat, from: int, c: int, pinned: bool, tail: seq<Store>, vfCpu: int, vio: Side)
    requires !vio.live && Announced(tail, w, vfCpu, vio.(cpu := c)) && Flags(tail, c)
    ensures Announced(FindCpu(VirtioPos(w), from, c, pinned) + tail, w, vfCpu, vio)
  {
    var last := [SetCpu(VirtioPos(w), c)] + tail;
    assert last[1..] == tail;
    var stores := FindCpu(VirtioPos(w), from, c, pinned) + tail;
    if !pinned && from != NO_CPU {
      assert stores[1..] == [SetCpu(VirtioPos(w), NO_CPU)] + last && stores[1..][1..] == last;
      assert Announced(last, w, vfCpu, vio.(cpu := NO_CPU));
    } else {
      assert stores == last;
    }
  }

  /** Making a side live and flagging its worker, then the rest. */
  lemma {:induction false} LiveThenFlag(w: nat, pos: nat, cpu: int, rest: seq<Store>, vfCpu: int, vio: Side)
    requires pos == VfPos(w) || pos == VirtioPos(w)
    requires cpu == if pos == VfPos(w) then vfCpu else vio.cpu
    requires pos == VfPos(w) ==> (vio.live && vio.removing ==> vio.cpu == NO_CPU)
    requires pos == VirtioPos(w) ==> !vio.live
    requires Announced(rest, w, vfCpu, if pos == VfPos(w) then vio else Side(true, false, vio.cpu))
    ensures Announced([SetLive(pos), Flag(cpu)] + rest, w, vfCpu, vio) && Flags([SetLive(pos), Flag(cpu)] + rest, cpu)
  {
    var stores := [SetLive(pos), Flag(cpu)] + rest;
    assert stores[1..] == [Flag(cpu)] + rest && stores[1..][1..] == rest;
    assert Flags(stores[1..], cpu);
  }

  lemma {:induction false} MoveAnnounces(w: nat, pos: nat, from: int, cpu: int, rest: seq<Store>, vfCpu: int, vio: Side)
    requires pos == VfPos(w) || pos == VirtioPos(w)
    requires from == if pos == VfPos(w) then vfCpu else vio.cpu
    requires !vio.removing || !vio.live || vio.cpu == NO_CPU
    requires pos == VirtioPos(w) ==> Attached(vio)
    requires Announced(rest, w, if pos == VfPos(w) then cpu else vfCpu, if pos == VfPos(w) then vio else vio.(cpu := cpu))
    ensures Announced([SetCpu(pos, cpu), Flag(from), Flag(cpu)] + rest, w, vfCpu, vio)
  {
    var stores := [SetCpu(pos, cpu), Flag(from), Flag(cpu)] + rest;
    assert stores[1..] == [Flag(from), Flag(cpu)] + rest;
    assert stores[1..][1..] == [Flag(cpu)] + rest;
    assert stores[1..][1..][1..] == rest;
    assert Flags(stores[1..][1..], cpu);
    assert Flags(stores[1..], cpu) && Flags(stores[1..], from);
  }

  /** All operations announce their assignments, except an add_virtio with a harmful failed start. */
  lemma {:induction false} OperationsAnnounce(s: State, w: nat, op: Op)
    requires Enabled(s, Begin(w, op)) && StartIsSafe(s, Begin(w, op))
    requires var vio := s.sides[VirtioPos(w)]; vio.live && vio.removing ==> vio.cpu == NO_CPU
    ensures Announced(Stores(s, w, op), w, s.sides[VfPos(w)].cpu, s.sides[VirtioPos(w)])
  {
    var vf, vio := s.sides[VfPos(w)].cpu, s.sides[VirtioPos(w)];
    match op
    case AddVf(d) =>
      var tail := [SetLive(VfPos(w)), Flag(d)];
      assert tail + [] == tail;
      LiveThenFlag(w, VfPos(w), d, [], d, vio);
      PlaceVfAnnounces(w, vf, d, Pinned(s, VfPos(w)), tail, vf, vio);
    case AddVirtio(c, d, started) =>
      AddVirtioAnnounces(s, w, c, d, started);
    case RemoveVf =>
      var stores := Stores(s, w, op);
      assert stores[1..] == [GiveUpIfLive(VfPos(w)), SetCpu(VfPos(w), NO_CPU), Flag(vf)];
      assert stores[1..][1..] == [SetCpu(VfPos(w), NO_CPU), Flag(vf)];
      assert stores[1..][1..][1..] == [Flag(vf)];
      FlagsOnly([Flag(vf)], w, NO_CPU, vio);
    case RemoveVirtio(stopVf) =>
      RemoveVirtioAnnounces(s, w, stopVf);
    case Migrate(moveVirtio, c, moveVf, d) =>
      var second := if moveVf then [SetCpu(VfPos(w), d), Flag(vf), Flag(d)] else [];
      var vio' := if moveVirtio then vio.(cpu := c) else vio;
      if moveVf {
        assert second + [] == second;
        MoveAnnounces(w, VfPos(w), vf, d, [], vf, vio');
      }
      if moveVirtio {
        MoveAnnounces(w, VirtioPos(w), vio.cpu, c, second, vf, vio);
      } else {
        assert Stores(s, w, op) == second;
      }
  }

  lemma {:induction false} AddVirtioAnnounces(s: State, w: nat, c: int, d: int, started: bool)
    requires Enabled(s, Begin(w, AddVirtio(c, d, started))) && StartIsSafe(s, Begin(w, AddVirtio(c, d, started)))
    ensures Announced(Stores(s, w, AddVirtio(c, d, started)), w, s.sides[VfPos(w)].cpu, s.sides[VirtioPos(w)])
  {
    var vf, vio := s.sides[VfPos(w)].cpu, s.sides[VirtioPos(w)];
    var up := Side(true, false, c);
    var tail := if started then [Flag(d)] else [];
    var second := if Attached(s.sides[VfPos(w)]) then FindCpu(VfPos(w), vf, d, Pinned(s, VfPos(w))) + tail else [];
    if Attached(s.sides[VfPos(w)]) {
      FlagsOnly(tail, w, d, up);
      PlaceVfAnnounces(w, vf, d, Pinned(s, VfPos(w)), tail, vf, up);
    }
    var rest := [SetLive(VirtioPos(w)), Flag(c)] + second;
    LiveThenFlag(w, VirtioPos(w), c, second, vf, vio.(cpu := c));
    PlaceVirtioAnnounces(w, vio.cpu, c, Pinned(s, VirtioPos(w)), rest, vf, vio);
    assert Stores(s, w, AddVirtio(c, d, started)) == FindCpu(VirtioPos(w), vio.cpu, c, Pinned(s, VirtioPos(w))) + rest;
  }

  lemma {:induction false} RemoveVirtioAnnounces(s: State, w: nat, stopVf: bool)
    requires Enabled(s, Begin(w, RemoveVirtio(stopVf)))
    ensures Announced(Stores(s, w, RemoveVirtio(stopVf)), w, s.sides[VfPos(w)].cpu, s.sides[VirtioPos(w)])
  {
    var vf, vio := s.sides[VfPos(w)].cpu, s.sides[VirtioPos(w)];
    var stores, tail := Stores(s, w, RemoveVirtio(stopVf)), [Flag(vio.cpu)] + (if stopVf then [Flag(vf)] else []);
    var gone := vio.(removing := true, cpu := NO_CPU);
    assert stores[1..] == [SetCpu(VirtioPos(w), NO_CPU)] + tail && stores[1..][1..] == tail;
    FlagsOnly(tail, w, vf, gone);
    assert Flags(tail, vio.cpu);
    assert Announced(stores[1..], w, vf, vio.(removing := true));
  }

  // ---------------------------------------------------------------- preservation

  lemma {:induction false} BeginKeepsInv(s: State, w: nat, op: Op)
    requires Inv(s) && Enabled(s, Begin(w, op)) && StartIsSafe(s, Begin(w, op))
    ensures Inv(Apply(s, Begin(w, op)))
  {
    var s' := Apply(s, Begin(w, op));
    assert WillAnnounce(s, w);
    OperationsAnnounce(s, w, op);
    forall pos | 0 <= pos < |s'.sides| ensures Coherent(s', pos) {
      assert Coherent(s, pos);
    }
    forall v | 0 <= v < |s'.pending| ensures WillAnnounce(s', v) {
      assert WillAnnounce(s, v);
    }
  }

  /** A scan does not lose a relay that has a side on the worker. */
  lemma {:induction false} WorkKeepsKnown(s: State, c: nat, pos: nat)
    requires Enabled(s, Work(c)) && pos < |s.sides| && |s.sides| % 2 == 0
    requires AssignedTo(s, pos, c) && KnownTo(s, c, RelayOf(pos))
    ensures KnownTo(Apply(s, Work(c)), c, RelayOf(pos))
  {
    var w := RelayOf(pos);
    assert pos == VfPos(w) || pos == VirtioPos(w);
    assert VirtioPos(w) < |s.sides|;
  }

  lemma {:induction false} WorkKeepsInv(s: State, c: nat)
    requires Inv(s) && Enabled(s, Work(c))
    ensures Inv(Apply(s, Work(c)))
  {
    var s' := Apply(s, Work(c));
    forall pos | 0 <= pos < |s'.sides| ensures Coherent(s', pos) {
      assert Coherent(s, pos);
      if AssignedTo(s, pos, c) && KnownTo(s, c, RelayOf(pos)) {
        WorkKeepsKnown(s, c, pos);
      }
    }
    forall v | 0 <= v < |s'.pending| ensures WillAnnounce(s', v) {
      assert WillAnnounce(s, v);
    }
  }

  /** The release of a virtio side that is being removed does not matter to what is announced. */
  lemma {:induction false} ReleaseKeepsAnnounced(stores: seq<Store>, w: nat, vfCpu: int, vio: Side, vio': Side)
    requires Announced(stores, w, vfCpu, vio) && vio'.cpu == vio.cpu
    requires vio' == vio || (!vio'.live && vio.removing)
    ensures Announced(stores, w, vfCpu, vio')
    decreases |stores|
  {
    if stores != [] {
      var rest := stores[1..];
      match stores[0]
      case Flag(_) => ReleaseKeepsAnnounced(rest, w, vfCpu, vio, vio');
      case GiveUpIfLive(_) => ReleaseKeepsAnnounced(rest, w, vfCpu, vio, vio');
      case SetCpu(pos, cpu) =>
        if pos == VfPos(w) {
          ReleaseKeepsAnnounced(rest, w, cpu, vio, vio');
        } else {
          ReleaseKeepsAnnounced(rest, w, vfCpu, vio.(cpu := cpu), vio'.(cpu := cpu));
        }
      case SetLive(pos) =>
        if pos == VfPos(w) {
          ReleaseKeepsAnnounced(rest, w, vfCpu, vio, vio');
        }
      case SetRemoving(pos) =>
        if pos == VfPos(w) {
          ReleaseKeepsAnnounced(rest, w, vfCpu, vio, vio');
        } else {
          ReleaseKeepsAnnounced(rest, w, vfCpu, vio.(removing := true), vio'.(removing := true));
        }
    }
  }

  lemma {:induction false} ReleaseKeepsInv(s: State, p: nat)
    requires Inv(s) && Enabled(s, Released(p))
    ensures Inv(Apply(s, Released(p)))
  {
    var s' := Apply(s, Released(p));
    var r := RelayOf(p);
    assert p == VfPos(r) || p == VirtioPos(r);
    assert WillAnnounce(s, r);
    forall pos | 0 <= pos < |s'.sides| ensures Coherent(s', pos) {
      assert Coherent(s, pos);
      assert pos == VfPos(RelayOf(pos)) || pos == VirtioPos(RelayOf(pos));
    }
    forall v | 0 <= v < |s'.pending| ensures WillAnnounce(s', v) {
      assert WillAnnounce(s, v);
      ReleaseKeepsAnnounced(s.pending[v], v, s.sides[VfPos(v)].cpu, s.sides[VirtioPos(v)], s'.sides[VirtioPos(v)]);
    }
  }

  /** A store of another relay. */
  lemma {:induction false} StoreElsewhere(s: State, w: nat, pos: nat)
    requires Inv(s) && Enabled(s, Control(w)) && pos < |s.sides| && RelayOf(pos) != w
    ensures Coherent(Apply(s, Control(w)), pos)
  {
    assert WillAnnounce(s, w) && Coherent(s, pos);
  }

  /** A store of the virtio side. */
  lemma {:induction false} VirtioStore(s: State, w: nat, pos: nat)
    requires Inv(s) && Enabled(s, Control(w)) && (pos == VfPos(w) || pos == VirtioPos(w)) && pos < |s.sides|
    requires s.pending[w][0].SetCpu? && s.pending[w][0].pos == VirtioPos(w)
    ensures Coherent(Apply(s, Control(w)), pos)
  {
    assert WillAnnounce(s, w) && Coherent(s, VfPos(w)) && Coherent(s, VirtioPos(w));
  }

  /** A store of the VF side. */
  lemma {:induction false} VfStore(s: State, w: nat, pos: nat)
    requires Inv(s) && Enabled(s, Control(w)) && (pos == VfPos(w) || pos == VirtioPos(w)) && pos < |s.sides|
    requires s.pending[w][0].SetCpu? && s.pending[w][0].pos == VfPos(w)
    ensures Coherent(Apply(s, Control(w)), pos)
  {
    assert WillAnnounce(s, w) && Coherent(s, VfPos(w)) && Coherent(s, VirtioPos(w));
  }

  /** What one store does to the coherence of a side. */
  lemma {:induction false} StoreKeepsCoherent(s: State, w: nat, pos: nat)
    requires Inv(s) && Enabled(s, Control(w)) && pos < |s.sides|
    ensures Coherent(Apply(s, Control(w)), pos)
  {
    assert WillAnnounce(s, w);
    if RelayOf(pos) != w {
      StoreElsewhere(s, w, pos);
    } else {
      assert Coherent(s, VfPos(w)) && Coherent(s, VirtioPos(w));
      match s.pending[w][0]
      case SetCpu(p, _) =>
        if p == VfPos(w) {
          VfStore(s, w, pos);
        } else {
          VirtioStore(s, w, pos);
        }
      case SetLive(_) =>
      case SetRemoving(_) =>
      case GiveUpIfLive(_) =>
      case Flag(_) =>
    }
  }

  lemma {:induction false} ControlKeepsInv(s: State, w: nat)
    requires Inv(s) && Enabled(s, Control(w))
    ensures Inv(Apply(s, Control(w)))
  {
    var s' := Apply(s, Control(w));
    assert WillAnnounce(s, w);
    forall pos | 0 <= pos < |s'.sides| ensures Coherent(s', pos) {
      StoreKeepsCoherent(s, w, pos);
    }
    forall v | 0 <= v < |s'.pending| ensures WillAnnounce(s', v) {
      assert WillAnnounce(s, v);
    }
  }

  lemma {:induction false} StepKeepsInv(s: State, step: Step)
    requires Inv(s) && Enabled(s, step) && StartIsSafe(s, step)
    ensures Inv(Apply(s, step))
  {
    match step
    case Begin(w, op) => BeginKeepsInv(s, w, op);
    case Control(w) => ControlKeepsInv(s, w);
    case Work(c) => WorkKeepsInv(s, c);
    case Released(pos) => ReleaseKeepsInv(s, pos);
  }

  lemma {:induction false} RunKeepsInv(s: State, steps: seq<Step>)
    requires Inv(s) && CanRun(s, steps) && StartsAreSafe(s, steps)
    ensures Inv(After(s, steps))
    decreases |steps|
  {
    if steps != [] {
      StepKeepsInv(s, steps[0]);
      RunKeepsInv(Apply(s, steps[0]), steps[1..]);
    }
  }

  /** Dirty-flag coherence over whole runs. */
  lemma {:induction false} NoAssignmentIsLost(s: State, steps: seq<Step>, pos: nat)
    requires Initial(s) && CanRun(s, steps) && StartsAreSafe(s, steps)
    requires pos < |After(s, steps).sides|
    ensures Coherent(After(s, steps), pos)
  {
    InitialInv(s);
    RunKeepsInv(s, steps);
  }

  /** Read at rest: with no store pending on the relay, the flag clear and no scan in progress, the
      relay is in the cache of the worker it is assigned to. */
  lemma {:induction false} CachedAtRest(s: State, steps: seq<Step>, pos: nat, c: nat)
    requires Initial(s) && CanRun(s, steps) && StartsAreSafe(s, steps)
    requires AssignedTo(After(s, steps), pos, c) && c < |After(s, steps).workers|
    requires !After(s, steps).workers[c].needUpdate && !After(s, steps).workers[c].pc.Scanning?
    ensures RelayOf(pos) < |After(s, steps).pending|
    ensures After(s, steps).pending[RelayOf(pos)] == [] ==> RelayOf(pos) in After(s, steps).workers[c].active
  {
    NoAssignmentIsLost(s, steps, pos);
  }

  // ---------------------------------------------------------------- service

  predicate StaysAssigned(s: State, steps: seq<Step>, pos: nat, c: int)
    requires CanRun(s, steps)
    decreases |steps|
  {
    AssignedTo(s, pos, c) && (steps == [] || StaysAssigned(Apply(s, steps[0]), steps[1..], pos, c))
  }

  /** The relay is in the cache, or the scan in progress has found it or has yet to read this side. */
  predicate WillServe(t: Worker, pos: nat) {
    if t.pc.Scanning? then t.pc.next <= pos || RelayOf(pos) in t.pc.seen
    else RelayOf(pos) in t.active
  }

  /** The flag counts only while the worker is about to test it. */
  predicate Committed(t: Worker, pos: nat) {
    WillServe(t, pos) || (t.pc.Loaded? && t.needUpdate)
  }

  lemma {:induction false} StepKeepsCommitted(s: State, step: Step, pos: nat, c: nat)
    requires c < |s.workers| && Enabled(s, step) && AssignedTo(s, pos, c) && Committed(s.workers[c], pos)
    ensures c < |Apply(s, step).workers| && Committed(Apply(s, step).workers[c], pos)
  {
    if step.Control? {
      assert s.pending[step.relay][0].Flag? || ApplyStore(s, s.pending[step.relay][0]).workers == s.workers;
    }
  }

  lemma {:induction false} RunKeepsCommitted(s: State, steps: seq<Step>, pos: nat, c: nat)
    requires c < |s.workers| && CanRun(s, steps) && StaysAssigned(s, steps, pos, c)
    requires Committed(s.workers[c], pos)
    ensures c < |After(s, steps).workers| && Committed(After(s, steps).workers[c], pos)
    decreases |steps|
  {
    if steps != [] {
      StepKeepsCommitted(s, steps[0], pos, c);
      RunKeepsCommitted(Apply(s, steps[0]), steps[1..], pos, c);
    }
  }

  /** One full turn of the worker loop is enough: if the worker is at the top of its loop and no
      announcement of the relay is outstanding, then the next time it is back at the top, after any
      steps of anybody, the work list it takes contains the relay, as long as the assignment stands. */
  lemma {:induction false} ServedAfterOneTurn(s0: State, before: seq<Step>, turn: seq<Step>, pos: nat, c: nat)
    requires Initial(s0) && CanRun(s0, before) && StartsAreSafe(s0, before)
    requires var s := After(s0, before);
      && c < |s.workers| && s.workers[c].pc == Top
      && AssignedTo(s, pos, c)
      && RelayOf(pos) < |s.pending| && s.pending[RelayOf(pos)] == []
      && CanRun(Apply(s, Work(c)), turn)
      && StaysAssigned(Apply(s, Work(c)), turn, pos, c)
      && var e := After(Apply(s, Work(c)), turn);
         c < |e.workers| && e.workers[c].pc == Top
    ensures var e := After(Apply(After(s0, before), Work(c)), turn);
      RelayOf(pos) in WorkerStep(e, c).pc.work
  {
    NoAssignmentIsLost(s0, before, pos);
    RunKeepsCommitted(Apply(After(s0, before), Work(c)), turn, pos, c);
  }

  // ---------------------------------------------------------------- an undisturbed update

  function RelaysBelow(s: State, c: int, n: nat): set<nat>
    requires n <= |s.sides|
  {
    set p: nat | p < n && AssignedTo(s, p, c) :: RelayOf(p)
  }

  function Turns(c: nat, n: nat): (steps: seq<Step>)
    ensures |steps| == n
  {
    if n == 0 then [] else [Work(c)] + Turns(c, n - 1)
  }

  /** A scan that nobody disturbs publishes exactly the relays assigned to the worker. */
  lemma {:induction false} ScanReadsTheTable(s: State, c: nat, next: nat)
    requires c < |s.workers| && next <= |s.sides|
    requires s.workers[c].pc.Scanning? && s.workers[c].pc.next == next && s.workers[c].pc.seen == RelaysBelow(s, c, next)
    ensures var n := |s.sides| - next + 1;
      && CanRun(s, Turns(c, n))
      && After(s, Turns(c, n)) == s.(workers := s.workers[c :=
           s.workers[c].(active := RelaysBelow(s, c, |s.sides|), pc := Serving(s.workers[c].pc.work))])
    decreases |s.sides| - next
  {
    var n := |s.sides| - next + 1;
    var s' := Apply(s, Work(c));
    assert Turns(c, n)[0] == Work(c) && Turns(c, n)[1..] == Turns(c, n - 1);
    if next < |s.sides| {
      assert RelaysBelow(s', c, next + 1) == s'.workers[c].pc.seen by {
        assert forall p: nat | p < |s.sides| :: AssignedTo(s', p, c) == AssignedTo(s, p, c);
      }
      assert RelaysBelow(s', c, |s.sides|) == RelaysBelow(s, c, |s.sides|);
      ScanReadsTheTable(s', c, next + 1);
    } else {
      assert Turns(c, n - 1) == [];
    }
  }

  lemma {:induction false} OneMoreRelay(s: State, c: int, w: nat)
    requires VirtioPos(w) < |s.sides|
    ensures RelaysBelow(s, c, 2 * (w + 1))
            == RelaysBelow(s, c, 2 * w) + (if AssignedTo(s, VfPos(w), c) || AssignedTo(s, VirtioPos(w), c) then {w} else {})
  {
    assert RelayOf(VfPos(w)) == w && RelayOf(VirtioPos(w)) == w;
    forall r ensures r in RelaysBelow(s, c, 2 * (w + 1))
                     <==> r in RelaysBelow(s, c, 2 * w) || (r == w && (AssignedTo(s, VfPos(w), c) || AssignedTo(s, VirtioPos(w), c)))
    {
    }
  }

  /** The loop of update_thread when nobody disturbs it. */
  method UpdateThread(s: State, c: int) returns (active: set<nat>)
    requires Shaped(s)
    ensures active == RelaysBelow(s, c, |s.sides|)
  {
    active := {};
    for w := 0 to |s.pending|
      invariant active == RelaysBelow(s, c, 2 * w)
    {
      if AssignedTo(s, VfPos(w), c) || AssignedTo(s, VirtioPos(w), c) {
        active := active + {w};
      }
      OneMoreRelay(s, c, w);
    }
  }
}
