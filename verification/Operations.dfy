/** What a control operation has achieved once its stores are made, whatever the workers and the operations
    on other relays do in between: where the sides of the relay are, that the workers they went to
    serve them, and that the workers they left do not. */
module Operations {
  import opened Common
  import opened WorkerCache

  // ---------------------------------------------------------------- stores stay with their relay

  predicate Own(store: Store, w: nat) {
    store.Flag? || RelayOf(store.pos) == w
  }

  predicate AllOwn(stores: seq<Store>, w: nat) {
    forall i :: 0 <= i < |stores| ==> Own(stores[i], w)
  }

  ghost predicate Orderly(s: State) {
    Shaped(s) && forall w :: 0 <= w < |s.pending| ==> AllOwn(s.pending[w], w)
  }

  lemma {:induction false} StoresAreOwn(s: State, w: nat, op: Op)
    requires VirtioPos(w) < |s.sides|
    ensures AllOwn(Stores(s, w, op), w)
  {
    assert RelayOf(VfPos(w)) == w && RelayOf(VirtioPos(w)) == w;
  }

  lemma {:induction false} StepKeepsOrderly(s: State, step: Step)
    requires Orderly(s) && Enabled(s, step)
    ensures Orderly(Apply(s, step))
  {
    match step
    case Begin(w, op) => StoresAreOwn(s, w, op);
    case Control(w) =>
      var rest := Remaining(s, s.pending[w]);
      assert AllOwn(rest, w) by {
        assert AllOwn(s.pending[w], w);
      }
    case _ =>
  }

  lemma {:induction false} RunKeepsOrderly(s: State, steps: seq<Step>)
    requires Orderly(s) && CanRun(s, steps)
    ensures Orderly(After(s, steps))
    decreases |steps|
  {
    if steps != [] {
      StepKeepsOrderly(s, steps[0]);
      RunKeepsOrderly(Apply(s, steps[0]), steps[1..]);
    }
  }

  /** No other operation on relay `w` starts. */
  predicate NoneBegins(steps: seq<Step>, w: nat) {
    forall i :: 0 <= i < |steps| ==> !(steps[i].Begin? && steps[i].relay == w)
  }

  /** Stores of other relays do not touch the sides of this one. */
  lemma {:induction false} OthersLeaveItAlone(s: State, v: nat, pos: nat)
    requires Orderly(s) && Enabled(s, Control(v)) && pos < |s.sides| && RelayOf(pos) != v
    ensures Apply(s, Control(v)).sides[pos] == s.sides[pos]
  {
    assert Own(s.pending[v][0], v);
  }

  // ---------------------------------------------------------------- the effect of a sequence of stores

  function Effect(store: Store, pos: nat, side: Side): Side {
    match store
    case SetCpu(p, cpu) => if p == pos then side.(cpu := cpu) else side
    case SetLive(p) => if p == pos then Side(true, false, side.cpu) else side
    case SetRemoving(p) => if p == pos then side.(removing := true) else side
    case _ => side
  }

  function EffectOf(stores: seq<Store>, pos: nat, side: Side): Side
    decreases |stores|
  {
    if stores == [] then side else EffectOf(stores[1..], pos, Effect(stores[0], pos, side))
  }

  /** Nothing among the stores lets a worker release the side, or ends the operation early. */
  predicate Calm(stores: seq<Store>, pos: nat) {
    forall i :: 0 <= i < |stores| ==> !stores[i].GiveUpIfLive? && stores[i] != SetRemoving(pos)
  }

  lemma {:induction false} EffectOfTwo(a: seq<Store>, b: seq<Store>, pos: nat, side: Side)
    ensures EffectOf(a + b, pos, side) == EffectOf(b, pos, EffectOf(a, pos, side))
    decreases |a|
  {
    if a == [] {
      assert a + b == b;
    } else {
      assert (a + b)[0] == a[0] && (a + b)[1..] == a[1..] + b;
      EffectOfTwo(a[1..], b, pos, Effect(a[0], pos, side));
    }
  }

  lemma {:induction false} EffectOfOne(a: Store, pos: nat, side: Side)
    ensures EffectOf([a], pos, side) == Effect(a, pos, side)
  {
    assert [a][1..] == [];
  }

  lemma {:induction false} EffectOfFlags(stores: seq<Store>, pos: nat, side: Side)
    requires forall i :: 0 <= i < |stores| ==> stores[i].Flag?
    ensures EffectOf(stores, pos, side) == side
    decreases |stores|
  {
    if stores != [] {
      EffectOfFlags(stores[1..], pos, side);
    }
  }

  /** A search for a CPU puts its side there and leaves the other. */
  lemma {:induction false} EffectOfFind(p: nat, from: int, cpu: int, pinned: bool, pos: nat, side: Side)
    ensures EffectOf(FindCpu(p, from, cpu, pinned), pos, side) == if p == pos then side.(cpu := cpu) else side
  {
    var off: seq<Store> := if !pinned && from != NO_CPU then [Flag(from), SetCpu(p, NO_CPU)] else [];
    if off != [] {
      assert off[1..] == [SetCpu(p, NO_CPU)];
      EffectOfOne(SetCpu(p, NO_CPU), pos, side);
    }
    EffectOfTwo(off, [SetCpu(p, cpu)], pos, side);
    EffectOfOne(SetCpu(p, cpu), pos, EffectOf(off, pos, side));
  }

  /** One store, then flags. */
  lemma {:induction false} EffectThenFlags(a: Store, flags: seq<Store>, pos: nat, side: Side)
    requires forall i :: 0 <= i < |flags| ==> flags[i].Flag?
    ensures EffectOf([a] + flags, pos, side) == Effect(a, pos, side)
  {
    EffectOfTwo([a], flags, pos, side);
    EffectOfOne(a, pos, side);
    EffectOfFlags(flags, pos, Effect(a, pos, side));
  }

  // ---------------------------------------------------------------- where each operation puts a side

  /** The operation puts the side at `pos` of relay `w` on a CPU: the VF side on the CPU chosen for the VF, and
      the virtio side on the one chosen for the VM. A VM that connects takes a waiting VF along. */
  predicate Puts(s: State, w: nat, op: Op, pos: nat, cpu: int)
    requires VirtioPos(w) < |s.sides|
  {
    match op
    case AddVf(d) => pos == 2 * w && cpu == d
    case AddVirtio(c, d, _) => (pos == 2 * w + 1 && cpu == c) || (pos == 2 * w && Attached(s.sides[2 * w]) && cpu == d)
    case Migrate(moveVirtio, c, moveVf, d) => (moveVirtio && pos == 2 * w + 1 && cpu == c) || (moveVf && pos == 2 * w && cpu == d)
    case _ => false
  }

  lemma {:induction false} AddVfPuts(s: State, w: nat, d: int, pos: nat)
    requires VirtioPos(w) < |s.sides| && (pos == VfPos(w) || pos == VirtioPos(w))
    ensures EffectOf(Stores(s, w, AddVf(d)), pos, s.sides[pos]) == if pos == VfPos(w) then Side(true, false, d) else s.sides[pos]
  {
    var vf, side := VfPos(w), s.sides[pos];
    var from := s.sides[vf].cpu;
    var find, tail := FindCpu(vf, from, d, Pinned(s, vf)), [SetLive(vf), Flag(d)];
    EffectOfTwo(find, tail, pos, side);
    EffectOfFind(vf, from, d, Pinned(s, vf), pos, side);
    assert tail == [SetLive(vf)] + [Flag(d)];
    EffectThenFlags(SetLive(vf), [Flag(d)], pos, if vf == pos then side.(cpu := d) else side);
  }

  lemma {:induction false} AddVirtioPuts(s: State, w: nat, c: int, d: int, started: bool, pos: nat)
    requires VirtioPos(w) < |s.sides| && (pos == VfPos(w) || pos == VirtioPos(w))
    ensures var vf := s.sides[VfPos(w)];
      EffectOf(Stores(s, w, AddVirtio(c, d, started)), pos, s.sides[pos])
      == if pos == VirtioPos(w) then Side(true, false, c) else if Attached(vf) then vf.(cpu := d) else vf
  {
    var vf, vio, side := s.sides[VfPos(w)], s.sides[VirtioPos(w)], s.sides[pos];
    var find, live := FindCpu(VirtioPos(w), vio.cpu, c, Pinned(s, VirtioPos(w))), [SetLive(VirtioPos(w)), Flag(c)];
    var find', flags := FindCpu(VfPos(w), vf.cpu, d, Pinned(s, VfPos(w))), if started then [Flag(d)] else [];
    var second := if Attached(vf) then find' + flags else [];
    EffectOfTwo(find + live, second, pos, side);
    EffectOfTwo(find, live, pos, side);
    EffectOfFind(VirtioPos(w), vio.cpu, c, Pinned(s, VirtioPos(w)), pos, side);
    assert live == [SetLive(VirtioPos(w))] + [Flag(c)];
    var placed := if pos == VirtioPos(w) then side.(cpu := c) else side;
    EffectThenFlags(SetLive(VirtioPos(w)), [Flag(c)], pos, placed);
    var up := EffectOf(find + live, pos, side);
    EffectOfTwo(find', flags, pos, up);
    EffectOfFind(VfPos(w), vf.cpu, d, Pinned(s, VfPos(w)), pos, up);
    EffectOfFlags(flags, pos, EffectOf(find', pos, up));
  }

  lemma {:induction false} MigratePuts(s: State, w: nat, op: Op, pos: nat)
    requires VirtioPos(w) < |s.sides| && (pos == VfPos(w) || pos == VirtioPos(w)) && op.Migrate?
    ensures EffectOf(Stores(s, w, op), pos, s.sides[pos])
            == if pos == VirtioPos(w) && op.moveVirtio then s.sides[pos].(cpu := op.c)
               else if pos == VfPos(w) && op.moveVf then s.sides[pos].(cpu := op.d)
               else s.sides[pos]
  {
    var vf, vio, side := s.sides[VfPos(w)].cpu, s.sides[VirtioPos(w)].cpu, s.sides[pos];
    var first := if op.moveVirtio then [SetCpu(VirtioPos(w), op.c), Flag(vio), Flag(op.c)] else [];
    var second := if op.moveVf then [SetCpu(VfPos(w), op.d), Flag(vf), Flag(op.d)] else [];
    EffectOfTwo(first, second, pos, side);
    assert first == if op.moveVirtio then [SetCpu(VirtioPos(w), op.c)] + [Flag(vio), Flag(op.c)] else [];
    assert second == if op.moveVf then [SetCpu(VfPos(w), op.d)] + [Flag(vf), Flag(op.d)] else [];
    EffectThenFlags(SetCpu(VirtioPos(w), op.c), [Flag(vio), Flag(op.c)], pos, side);
    EffectThenFlags(SetCpu(VfPos(w), op.d), [Flag(vf), Flag(op.d)], pos, EffectOf(first, pos, side));
  }

  /** What the stores of an operation other than a removal make of a side. */
  function Outcome(s: State, w: nat, op: Op, pos: nat): Side
    requires VirtioPos(w) < |s.sides| && (pos == VfPos(w) || pos == VirtioPos(w))
  {
    EffectOf(Stores(s, w, op), pos, s.sides[pos])
  }

  lemma {:induction false} OutcomeIs(s: State, w: nat, op: Op, pos: nat, cpu: int)
    requires Enabled(s, Begin(w, op)) && Puts(s, w, op, pos, cpu)
    ensures Outcome(s, w, op, pos) == Side(true, false, cpu)
  {
    match op
    case AddVf(d) => AddVfPuts(s, w, d, pos);
    case AddVirtio(c, d, started) => AddVirtioPuts(s, w, c, d, started, pos);
    case Migrate(_, _, _, _) => MigratePuts(s, w, op, pos);
  }

  // ---------------------------------------------------------------- through any interleaving

  /** The stores still to be made take the side to `goal`, and no worker can release it. */
  ghost predicate OnTheWay(s: State, w: nat, pos: nat, goal: Side) {
    && pos < |s.sides| && RelayOf(pos) == w < |s.pending|
    && Calm(s.pending[w], pos)
    && (s.sides[pos].live ==> !s.sides[pos].removing)
    && EffectOf(s.pending[w], pos, s.sides[pos]) == goal
  }

  lemma {:induction false} StepStaysOnTheWay(s: State, step: Step, w: nat, pos: nat, goal: Side)
    requires Orderly(s) && Enabled(s, step) && !(step.Begin? && step.relay == w)
    requires OnTheWay(s, w, pos, goal)
    ensures OnTheWay(Apply(s, step), w, pos, goal)
  {
    if step.Control? {
      if step.relay == w {
        assert !s.pending[w][0].GiveUpIfLive? && s.pending[w][0] != SetRemoving(pos);
        assert Apply(s, step).sides[pos] == Effect(s.pending[w][0], pos, s.sides[pos]);
      } else {
        OthersLeaveItAlone(s, step.relay, pos);
      }
    }
  }

  lemma {:induction false} RunStaysOnTheWay(s: State, steps: seq<Step>, w: nat, pos: nat, goal: Side)
    requires Orderly(s) && CanRun(s, steps) && NoneBegins(steps, w) && OnTheWay(s, w, pos, goal)
    ensures OnTheWay(After(s, steps), w, pos, goal)
    decreases |steps|
  {
    if steps != [] {
      StepKeepsOrderly(s, steps[0]);
      StepStaysOnTheWay(s, steps[0], w, pos, goal);
      RunStaysOnTheWay(Apply(s, steps[0]), steps[1..], w, pos, goal);
    }
  }

  lemma {:induction false} StoresAreCalm(s: State, w: nat, op: Op, pos: nat)
    requires VirtioPos(w) < |s.sides| && !op.RemoveVf? && !op.RemoveVirtio?
    ensures Calm(Stores(s, w, op), pos)
  {
  }

  /** An operation that is not a removal, on a side that is not being removed, has its outcome when its stores
      are made. */
  lemma {:induction false} OutcomeIsReached(s: State, w: nat, op: Op, during: seq<Step>, pos: nat)
    requires Orderly(s) && Enabled(s, Begin(w, op)) && !op.RemoveVf? && !op.RemoveVirtio?
    requires pos == VfPos(w) || pos == VirtioPos(w)
    requires s.sides[pos].live ==> !s.sides[pos].removing
    requires CanRun(Apply(s, Begin(w, op)), during) && NoneBegins(during, w)
    ensures OnTheWay(After(Apply(s, Begin(w, op)), during), w, pos, Outcome(s, w, op, pos))
  {
    var t := Apply(s, Begin(w, op));
    StepKeepsOrderly(s, Begin(w, op));
    assert RelayOf(pos) == w && t.sides == s.sides && t.pending[w] == Stores(s, w, op);
    StoresAreCalm(s, w, op, pos);
    RunStaysOnTheWay(t, during, w, pos, Outcome(s, w, op, pos));
  }

  /** When the stores of an operation are made, after any steps of the workers and of other relays, the sides it
      places are attached and on the CPUs chosen for them. */
  lemma {:induction false} OperationTakesEffect(s0: State, before: seq<Step>, w: nat, op: Op, during: seq<Step>, pos: nat, cpu: int)
    requires Initial(s0) && CanRun(s0, before)
    requires var s := After(s0, before);
      && Enabled(s, Begin(w, op)) && Puts(s, w, op, pos, cpu)
      && CanRun(Apply(s, Begin(w, op)), during) && NoneBegins(during, w)
    ensures var t := After(Apply(After(s0, before), Begin(w, op)), during);
      && w < |t.pending| && pos < |t.sides|
      && (t.pending[w] == [] ==> t.sides[pos] == Side(true, false, cpu))
  {
    RunKeepsOrderly(s0, before);
    var s := After(s0, before);
    OutcomeIs(s, w, op, pos, cpu);
    OutcomeIsReached(s, w, op, during, pos);
  }

  // ---------------------------------------------------------------- the worker it went to

  lemma {:induction false} SettledStays(s: State, steps: seq<Step>, pos: nat, cpu: int)
    requires Orderly(s) && CanRun(s, steps) && pos < |s.sides| && NoneBegins(steps, RelayOf(pos))
    requires s.pending[RelayOf(pos)] == [] && s.sides[pos] == Side(true, false, cpu)
    ensures StaysAssigned(s, steps, pos, cpu) && pos < |After(s, steps).sides| && After(s, steps).sides[pos] == Side(true, false, cpu)
    decreases |steps|
  {
    if steps != [] {
      StepKeepsOrderly(s, steps[0]);
      StepStaysOnTheWay(s, steps[0], RelayOf(pos), pos, Side(true, false, cpu));
      var s' := Apply(s, steps[0]);
      assert s'.pending[RelayOf(pos)] == [];
      SettledStays(s', steps[1..], pos, cpu);
    }
  }

  /** Once the stores are made and the worker has been through one turn of its loop, the work list that it takes
      contains the relay, and the side is still on that worker. */
  lemma {:induction false} PlacedSideIsServed(s0: State, before: seq<Step>, w: nat, op: Op, during: seq<Step>, turn: seq<Step>, pos: nat, cpu: nat)
    requires Initial(s0) && CanRun(s0, before) && StartsAreSafe(s0, before)
    requires var s := After(s0, before);
      && Enabled(s, Begin(w, op)) && StartIsSafe(s, Begin(w, op)) && Puts(s, w, op, pos, cpu)
      && CanRun(Apply(s, Begin(w, op)), during) && StartsAreSafe(Apply(s, Begin(w, op)), during) && NoneBegins(during + turn, w)
      && var t := After(Apply(s, Begin(w, op)), during);
         && w < |t.pending| && t.pending[w] == []
         && cpu < |t.workers| && t.workers[cpu].pc == Top
         && CanRun(Apply(t, Work(cpu)), turn)
         && var e := After(Apply(t, Work(cpu)), turn);
            cpu < |e.workers| && e.workers[cpu].pc == Top
    ensures var e := After(Apply(After(Apply(After(s0, before), Begin(w, op)), during), Work(cpu)), turn);
      && pos < |e.sides| && e.sides[pos] == Side(true, false, cpu)
      && w in WorkerStep(e, cpu).pc.work
  {
    var s := After(s0, before);
    var t := After(Apply(s, Begin(w, op)), during);
    forall i | 0 <= i < |during| ensures !(during[i].Begin? && during[i].relay == w) {
      assert (during + turn)[i] == during[i];
    }
    forall i | 0 <= i < |turn| ensures !(turn[i].Begin? && turn[i].relay == w) {
      assert (during + turn)[|during| + i] == turn[i];
    }
    OperationTakesEffect(s0, before, w, op, during, pos, cpu);
    InitialInv(s0);
    RunKeepsInv(s0, before);
    StepKeepsInv(s, Begin(w, op));
    RunKeepsInv(Apply(s, Begin(w, op)), during);
    RunKeepsOrderly(s0, before);
    StepKeepsOrderly(s, Begin(w, op));
    RunKeepsOrderly(Apply(s, Begin(w, op)), during);
    StepKeepsOrderly(t, Work(cpu));
    assert RelayOf(pos) == w && Coherent(t, pos);
    SettledStays(Apply(t, Work(cpu)), turn, pos, cpu);
    RunKeepsCommitted(Apply(t, Work(cpu)), turn, pos, cpu);
  }

  // ---------------------------------------------------------------- removals

  /** What holds of the side that is being removed when `done` of the stores are made. */
  predicate PartlyRemoved(side: Side, op: Op, done: nat, from: int) {
    && (done == 0 ==> Attached(side))
    && (side.live && done > 0 ==> side.removing)
    && (op.RemoveVirtio? ==> side.cpu == if done < 2 then from else NO_CPU)
    && (op.RemoveVf? && done == 2 ==> !side.live)
    && (op.RemoveVf? && done < 3 ==> side.cpu == from)
    && (op.RemoveVf? && done >= 3 ==> !side.live && side.cpu == NO_CPU)
  }

  /** What holds when no store is left: the wait for the VF was given up, or the removal went through. */
  predicate Removed(side: Side, op: Op, from: int) {
    && (side.live ==> side.removing)
    && (op.RemoveVirtio? ==> side.cpu == NO_CPU)
    && (op.RemoveVf? ==> side.cpu == from || (!side.live && side.cpu == NO_CPU))
  }

  predicate RemovalOf(s: State, w: nat, op: Op, pos: nat, full: seq<Store>)
    requires VirtioPos(w) < |s.sides|
  {
    ((op.RemoveVf? && pos == VfPos(w)) || (op.RemoveVirtio? && pos == VirtioPos(w))) && full == Stores(s, w, op)
  }

  /** The removal has made `done` of its stores, or is over. */
  predicate UnderRemoval(s: State, w: nat, op: Op, pos: nat, full: seq<Store>, from: int, done: nat) {
    && pos < |s.sides| && RelayOf(pos) == w < |s.pending| && done <= |full|
    && if done == |full| then s.pending[w] == [] && Removed(s.sides[pos], op, from)
       else s.pending[w] == full[done..] && PartlyRemoved(s.sides[pos], op, done, from)
  }

  lemma {:induction false} StoreOfRemoval(s: State, w: nat, op: Op, pos: nat, full: seq<Store>, from: int, done: nat, s0: State)
    returns (now: nat)
    requires VirtioPos(w) < |s0.sides| && RemovalOf(s0, w, op, pos, full)
    requires Enabled(s, Control(w)) && UnderRemoval(s, w, op, pos, full, from, done)
    ensures UnderRemoval(Apply(s, Control(w)), w, op, pos, full, from, now)
  {
    assert s.pending[w][0] == full[done] && s.pending[w][1..] == full[done + 1..];
    if op.RemoveVf? {
      assert full[0] == SetRemoving(pos) && full[1] == GiveUpIfLive(pos) && full[2] == SetCpu(pos, NO_CPU) && full[3].Flag?;
    } else {
      assert full[0] == SetRemoving(pos) && full[1] == SetCpu(pos, NO_CPU);
      assert done >= 2 ==> full[done].Flag?;
    }
    now := if Apply(s, Control(w)).pending[w] == [] then |full| else done + 1;
  }

  lemma {:induction false} ReleaseDuringRemoval(s: State, p: nat, w: nat, op: Op, pos: nat, full: seq<Store>, from: int, done: nat)
    requires UnderRemoval(s, w, op, pos, full, from, done) && Enabled(s, Released(p))
    ensures UnderRemoval(Apply(s, Released(p)), w, op, pos, full, from, done)
  {
  }

  lemma {:induction false} StepKeepsRemoval(s: State, step: Step, w: nat, op: Op, pos: nat, full: seq<Store>, from: int, done: nat, s0: State)
    returns (now: nat)
    requires VirtioPos(w) < |s0.sides| && RemovalOf(s0, w, op, pos, full)
    requires Orderly(s) && Enabled(s, step) && !(step.Begin? && step.relay == w)
    requires UnderRemoval(s, w, op, pos, full, from, done)
    ensures UnderRemoval(Apply(s, step), w, op, pos, full, from, now)
  {
    now := done;
    match step
    case Begin(_, _) =>
    case Work(_) =>
    case Released(p) => ReleaseDuringRemoval(s, p, w, op, pos, full, from, done);
    case Control(v) =>
      if v == w {
        now := StoreOfRemoval(s, w, op, pos, full, from, done, s0);
      } else {
        OthersLeaveItAlone(s, v, pos);
      }
  }

  lemma {:induction false} RunKeepsRemoval(s: State, steps: seq<Step>, w: nat, op: Op, pos: nat, full: seq<Store>, from: int, done: nat, s0: State)
    returns (now: nat)
    requires VirtioPos(w) < |s0.sides| && RemovalOf(s0, w, op, pos, full)
    requires Orderly(s) && CanRun(s, steps) && NoneBegins(steps, w)
    requires UnderRemoval(s, w, op, pos, full, from, done)
    ensures UnderRemoval(After(s, steps), w, op, pos, full, from, now)
    decreases |steps|
  {
    now := done;
    if steps != [] {
      StepKeepsOrderly(s, steps[0]);
      now := StepKeepsRemoval(s, steps[0], w, op, pos, full, from, done, s0);
      now := RunKeepsRemoval(Apply(s, steps[0]), steps[1..], w, op, pos, full, from, now, s0);
    }
  }

  /** When the stores of a removal are made, its side is detached or still being removed. The virtio side has no
      CPU then, released or not; a VF that is not released has kept its CPU. */
  lemma {:induction false} RemovalTakesEffect(s0: State, before: seq<Step>, w: nat, op: Op, during: seq<Step>)
    requires Initial(s0) && CanRun(s0, before) && (op.RemoveVf? || op.RemoveVirtio?)
    requires var s := After(s0, before);
      Enabled(s, Begin(w, op)) && CanRun(Apply(s, Begin(w, op)), during) && NoneBegins(during, w)
    ensures var s := After(s0, before);
      var t := After(Apply(s, Begin(w, op)), during);
      && w < |t.pending| && 2 * w + 1 < |t.sides|
      && (t.pending[w] == [] && op.RemoveVirtio? ==>
            var vio := t.sides[2 * w + 1]; !Attached(vio) && vio.cpu == NO_CPU)
      && (t.pending[w] == [] && op.RemoveVf? ==>
            var vf := t.sides[2 * w]; !Attached(vf) && (vf.cpu == s.sides[2 * w].cpu || (!vf.live && vf.cpu == NO_CPU)))
  {
    var s := After(s0, before);
    var b, full := Apply(s, Begin(w, op)), Stores(s, w, op);
    var pos := if op.RemoveVf? then VfPos(w) else VirtioPos(w);
    var from := s.sides[pos].cpu;
    RunKeepsOrderly(s0, before);
    StepKeepsOrderly(s, Begin(w, op));
    assert b.pending[w] == full == full[0..] && RelayOf(pos) == w && b.sides == s.sides;
    var now := RunKeepsRemoval(b, during, w, op, pos, full, from, 0, s);
    assert now < |full| ==> |full[now..]| > 0;
    RunKeepsOrderly(b, during);
  }

  // ---------------------------------------------------------------- the worker it left

  /** CPU of a side after a store. */
  function CpuAfter(store: Store, pos: nat, cpu: int): int {
    if store.SetCpu? && store.pos == pos then store.cpu else cpu
  }

  /** At every point of the stores, worker `c` is still to be told or has neither side. */
  predicate Leaves(stores: seq<Store>, w: nat, c: int, vf: int, vio: int)
    decreases |stores|
  {
    && (Flags(stores, c) || (vf != c && vio != c))
    && (stores != [] ==> Leaves(stores[1..], w, c, CpuAfter(stores[0], VfPos(w), vf), CpuAfter(stores[0], VirtioPos(w), vio)))
  }

  /** The relay is not in the cache and not found by the scan in progress, or the flag is set. */
  predicate LetsGo(t: Worker, w: nat) {
    t.needUpdate || (if t.pc.Scanning? then w !in t.pc.seen else w !in t.active)
  }

  ghost predicate Departing(s: State, w: nat, c: nat) {
    && w < |s.pending| && VirtioPos(w) < |s.sides| && c < |s.workers|
    && Leaves(s.pending[w], w, c, s.sides[VfPos(w)].cpu, s.sides[VirtioPos(w)].cpu)
    && (Flags(s.pending[w], c) || LetsGo(s.workers[c], w))
  }

  /** None of the stores ends the operation early. */
  predicate Unconditional(stores: seq<Store>) {
    forall i :: 0 <= i < |stores| ==> !stores[i].GiveUpIfLive?
  }

  lemma {:induction false} WorkKeepsDeparting(s: State, v: nat, w: nat, c: nat)
    requires Enabled(s, Work(v)) && Departing(s, w, c)
    ensures Departing(Apply(s, Work(v)), w, c)
  {
    if v == c && !Flags(s.pending[w], c) {
      var t := s.workers[c];
      if t.pc.Scanning? && AssignedTo(s, t.pc.next, c) {
        assert t.pc.next != VfPos(w) && t.pc.next != VirtioPos(w);
        assert RelayOf(t.pc.next) != w;
      }
    }
  }

  lemma {:induction false} ControlKeepsDeparting(s: State, w: nat, c: nat)
    requires Enabled(s, Control(w)) && Departing(s, w, c) && Unconditional(s.pending[w])
    ensures Departing(Apply(s, Control(w)), w, c)
  {
    var store := s.pending[w][0];
    var t := Apply(s, Control(w));
    assert !store.GiveUpIfLive?;
    assert t.sides[VfPos(w)].cpu == CpuAfter(store, VfPos(w), s.sides[VfPos(w)].cpu);
    assert t.sides[VirtioPos(w)].cpu == CpuAfter(store, VirtioPos(w), s.sides[VirtioPos(w)].cpu);
    if store == Flag(c) {
      assert t.workers[c].needUpdate;
    } else if !Flags(s.pending[w], c) {
      assert t.workers[c].pc == s.workers[c].pc && t.workers[c].active == s.workers[c].active;
    }
  }

  lemma {:induction false} StepKeepsDeparting(s: State, step: Step, w: nat, c: nat)
    requires Orderly(s) && Enabled(s, step) && !(step.Begin? && step.relay == w)
    requires Departing(s, w, c) && Unconditional(s.pending[w])
    ensures Departing(Apply(s, step), w, c) && Unconditional(Apply(s, step).pending[w])
  {
    match step
    case Begin(_, _) =>
    case Work(v) => WorkKeepsDeparting(s, v, w, c);
    case Released(_) =>
    case Control(v) =>
      if v == w {
        ControlKeepsDeparting(s, w, c);
      } else {
        OthersLeaveItAlone(s, v, VfPos(w));
        OthersLeaveItAlone(s, v, VirtioPos(w));
      }
  }

  lemma {:induction false} RunKeepsDeparting(s: State, steps: seq<Step>, w: nat, c: nat)
    requires Orderly(s) && CanRun(s, steps) && NoneBegins(steps, w)
    requires Departing(s, w, c) && Unconditional(s.pending[w])
    ensures Departing(After(s, steps), w, c)
    decreases |steps|
  {
    if steps != [] {
      StepKeepsOrderly(s, steps[0]);
      StepKeepsDeparting(s, steps[0], w, c);
      RunKeepsDeparting(Apply(s, steps[0]), steps[1..], w, c);
    }
  }

  /** The operation takes all that worker `c` has of the relay away from it. */
  predicate TakesFrom(s: State, w: nat, op: Op, c: int)
    requires VirtioPos(w) < |s.sides|
  {
    var vf, vio := s.sides[2 * w].cpu, s.sides[2 * w + 1].cpu;
    && (vf == c || vio == c) && c != NO_CPU
    && match op
       case Migrate(moveVirtio, c', moveVf, d') => (if moveVirtio then c' else vio) != c && (if moveVf then d' else vf) != c
       case RemoveVirtio(_) => vf != c
       case _ => false
  }

  lemma {:induction false} FlagsLeave(stores: seq<Store>, w: nat, c: int, vf: int, vio: int)
    requires forall i :: 0 <= i < |stores| ==> stores[i].Flag?
    requires vf != c && vio != c
    ensures Leaves(stores, w, c, vf, vio)
    decreases |stores|
  {
    if stores != [] {
      FlagsLeave(stores[1..], w, c, vf, vio);
    }
  }

  /** Moving one side away from a CPU, which is told. */
  lemma {:induction false} MoveLeaves(w: nat, pos: nat, from: int, cpu: int, rest: seq<Store>, c: int, vf: int, vio: int)
    requires pos == VfPos(w) || pos == VirtioPos(w)
    requires from == if pos == VfPos(w) then vf else vio
    requires Leaves(rest, w, c, if pos == VfPos(w) then cpu else vf, if pos == VfPos(w) then vio else cpu)
    requires from == c || Flags(rest, c) || (vf != c && vio != c && cpu != c)
    ensures var stores := [SetCpu(pos, cpu), Flag(from), Flag(cpu)] + rest;
      Leaves(stores, w, c, vf, vio) && (from == c || Flags(rest, c) ==> Flags(stores, c))
  {
    var stores := [SetCpu(pos, cpu), Flag(from), Flag(cpu)] + rest;
    var told, last := stores[1..], stores[1..][1..];
    assert told == [Flag(from), Flag(cpu)] + rest && last == [Flag(cpu)] + rest && last[1..] == rest;
    var vf', vio' := if pos == VfPos(w) then cpu else vf, if pos == VfPos(w) then vio else cpu;
    assert Leaves(last, w, c, vf', vio');
    assert Leaves(told, w, c, vf', vio');
  }

  lemma {:induction false} MigrateLeaves(s: State, w: nat, op: Op, c: int)
    requires VirtioPos(w) < |s.sides| && op.Migrate? && TakesFrom(s, w, op, c)
    ensures Leaves(Stores(s, w, op), w, c, s.sides[VfPos(w)].cpu, s.sides[VirtioPos(w)].cpu) && Flags(Stores(s, w, op), c)
  {
    var vf, vio := s.sides[VfPos(w)].cpu, s.sides[VirtioPos(w)].cpu;
    var vio' := if op.moveVirtio then op.c else vio;
    var second := if op.moveVf then [SetCpu(VfPos(w), op.d), Flag(vf), Flag(op.d)] else [];
    if op.moveVf {
      assert second + [] == second;
      MoveLeaves(w, VfPos(w), vf, op.d, [], c, vf, vio');
    }
    if op.moveVirtio {
      MoveLeaves(w, VirtioPos(w), vio, op.c, second, c, vf, vio);
    } else {
      assert Stores(s, w, op) == second;
    }
  }

  lemma {:induction false} RemoveVirtioLeaves(s: State, w: nat, op: Op, c: int)
    requires VirtioPos(w) < |s.sides| && op.RemoveVirtio? && TakesFrom(s, w, op, c)
    ensures Leaves(Stores(s, w, op), w, c, s.sides[VfPos(w)].cpu, s.sides[VirtioPos(w)].cpu) && Flags(Stores(s, w, op), c)
  {
    var vf, vio := s.sides[VfPos(w)].cpu, s.sides[VirtioPos(w)].cpu;
    var stores, tail := Stores(s, w, op), [Flag(vio)] + (if op.stopVf then [Flag(vf)] else []);
    assert stores[1..] == [SetCpu(VirtioPos(w), NO_CPU)] + tail && stores[1..][1..] == tail;
    FlagsLeave(tail, w, c, vf, NO_CPU);
    assert Flags(tail, c);
    assert Flags(stores[1..], c);
    assert Leaves(stores[1..], w, c, vf, vio);
  }

  /** The relay is gone for good unless it comes back: not in the cache and not found by a scan, or the flag is
      about to be tested. */
  predicate GoneFrom(t: Worker, w: nat) {
    (if t.pc.Scanning? then w !in t.pc.seen else w !in t.active) || (t.pc.Loaded? && t.needUpdate)
  }

  lemma {:induction false} RunKeepsGone(s: State, steps: seq<Step>, w: nat, c: nat)
    requires Orderly(s) && CanRun(s, steps) && NoneBegins(steps, w)
    requires Departing(s, w, c) && s.pending[w] == [] && GoneFrom(s.workers[c], w)
    ensures c < |After(s, steps).workers| && GoneFrom(After(s, steps).workers[c], w)
    decreases |steps|
  {
    if steps != [] {
      StepKeepsOrderly(s, steps[0]);
      StepKeepsDeparting(s, steps[0], w, c);
      StepKeepsGone(s, steps[0], w, c);
      RunKeepsGone(Apply(s, steps[0]), steps[1..], w, c);
    }
  }

  lemma {:induction false} StepKeepsGone(s: State, step: Step, w: nat, c: nat)
    requires Enabled(s, step) && !(step.Begin? && step.relay == w)
    requires Departing(s, w, c) && s.pending[w] == [] && GoneFrom(s.workers[c], w)
    ensures Apply(s, step).pending[w] == [] && GoneFrom(Apply(s, step).workers[c], w)
  {
    match step
    case Begin(_, _) =>
    case Released(_) =>
    case Control(v) =>
      assert s.pending[v][0].Flag? || ApplyStore(s, s.pending[v][0]).workers == s.workers;
    case Work(v) =>
      var t := s.workers[c];
      if v == c && t.pc.Scanning? && AssignedTo(s, t.pc.next, c) {
        assert t.pc.next != VfPos(w) && t.pc.next != VirtioPos(w);
        assert RelayOf(t.pc.next) != w;
      }
  }

  /** A worker that a migration, or the removal of the VM, leaves with no side of the relay has it no longer on
      its work list once the stores are made and the worker has been through one turn of its loop. */
  lemma {:induction false} LeftWorkerLetsGo(s0: State, before: seq<Step>, w: nat, op: Op, during: seq<Step>, turn: seq<Step>, c: nat)
    requires Initial(s0) && CanRun(s0, before)
    requires var s := After(s0, before);
      && Enabled(s, Begin(w, op)) && TakesFrom(s, w, op, c)
      && CanRun(Apply(s, Begin(w, op)), during) && NoneBegins(during, w) && NoneBegins(turn, w)
      && var t := After(Apply(s, Begin(w, op)), during);
         && w < |t.pending| && t.pending[w] == []
         && c < |t.workers| && t.workers[c].pc == Top
         && CanRun(Apply(t, Work(c)), turn)
         && var e := After(Apply(t, Work(c)), turn);
            c < |e.workers| && e.workers[c].pc == Top
    ensures var e := After(Apply(After(Apply(After(s0, before), Begin(w, op)), during), Work(c)), turn);
      w !in WorkerStep(e, c).pc.work
  {
    var s := After(s0, before);
    var b := Apply(s, Begin(w, op));
    RunKeepsOrderly(s0, before);
    StepKeepsOrderly(s, Begin(w, op));
    if op.Migrate? {
      MigrateLeaves(s, w, op, c);
    } else {
      RemoveVirtioLeaves(s, w, op, c);
    }
    SameWorkers(b, during);
    RunKeepsDeparting(b, during, w, c);
    RunKeepsOrderly(b, during);
    var t := After(b, during);
    StepKeepsOrderly(t, Work(c));
    WorkKeepsDeparting(t, c, w, c);
    RunKeepsGone(Apply(t, Work(c)), turn, w, c);
  }

  lemma {:induction false} SameWorkers(s: State, steps: seq<Step>)
    requires CanRun(s, steps)
    ensures |After(s, steps).workers| == |s.workers|
    decreases |steps|
  {
    if steps != [] {
      SameWorkers(Apply(s, steps[0]), steps[1..]);
    }
  }

  // ---------------------------------------------------------------- the workers that are told

  /** The workers that an operation concerns: those that a side goes to, those that a side leaves unless it is
      pinned, and the worker of a VF that is stopped. A VF that could not be started is not announced. */
  function Concerned(s: State, w: nat, op: Op): set<int>
    requires VirtioPos(w) < |s.sides|
  {
    var vf, vio := s.sides[2 * w], s.sides[2 * w + 1];
    var vfLeft := if vf.cpu != NO_CPU && !Pinned(s, 2 * w) then {vf.cpu} else {};
    var vioLeft := if vio.cpu != NO_CPU && !Pinned(s, 2 * w + 1) then {vio.cpu} else {};
    match op
    case AddVf(d) => {d} + vfLeft
    case AddVirtio(c, d, started) =>
      {c} + vioLeft + (if Attached(vf) then vfLeft + (if started then {d} else {}) else {})
    case RemoveVf => {vf.cpu}
    case RemoveVirtio(stopVf) => {vio.cpu} + (if stopVf then {vf.cpu} else {})
    case Migrate(moveVirtio, c, moveVf, d) =>
      (if moveVirtio then {vio.cpu, c} else {}) + (if moveVf then {vf.cpu, d} else {})
  }

  lemma {:induction false} FindFlags(pos: nat, from: int, cpu: int, pinned: bool, c: int)
    ensures Flag(c) in FindCpu(pos, from, cpu, pinned) <==> !pinned && from != NO_CPU && c == from
  {
    var stores := FindCpu(pos, from, cpu, pinned);
    if !pinned && from != NO_CPU {
      assert stores == [Flag(from), SetCpu(pos, NO_CPU), SetCpu(pos, cpu)] && stores[0] == Flag(from);
    } else {
      assert stores == [SetCpu(pos, cpu)];
    }
  }

  /** The stores flag exactly these workers. */
  lemma {:induction false} ConcernedAreFlagged(s: State, w: nat, op: Op, c: int)
    requires VirtioPos(w) < |s.sides|
    ensures Flag(c) in Stores(s, w, op) <==> c in Concerned(s, w, op)
  {
    var vf, vio := s.sides[2 * w].cpu, s.sides[2 * w + 1].cpu;
    match op
    case AddVf(d) =>
      FindFlags(VfPos(w), vf, d, Pinned(s, 2 * w), c);
    case AddVirtio(c', d, _) =>
      FindFlags(VfPos(w), vf, d, Pinned(s, 2 * w), c);
      FindFlags(VirtioPos(w), vio, c', Pinned(s, 2 * w + 1), c);
    case _ =>
  }

  predicate Rests(steps: seq<Step>, c: nat) {
    forall i :: 0 <= i < |steps| ==> steps[i] != Work(c)
  }

  /** The flag is set or still to come. */
  predicate ToldSoon(s: State, w: nat, c: nat) {
    w < |s.pending| && c < |s.workers| && (Flag(c) in s.pending[w] || s.workers[c].needUpdate)
  }

  lemma {:induction false} StoresAreUnconditional(s: State, w: nat, op: Op)
    requires VirtioPos(w) < |s.sides| && !op.RemoveVf?
    ensures Unconditional(Stores(s, w, op))
  {
  }

  lemma {:induction false} FlagStays(s: State, step: Step, c: nat)
    requires Enabled(s, step) && step != Work(c) && c < |s.workers| && s.workers[c].needUpdate
    ensures Apply(s, step).workers[c].needUpdate
  {
    if step.Control? {
      assert s.pending[step.relay][0].Flag? || ApplyStore(s, s.pending[step.relay][0]).workers == s.workers;
    }
  }

  lemma {:induction false} StepStillTells(s: State, step: Step, w: nat, c: nat)
    requires Enabled(s, step) && step != Work(c) && !(step.Begin? && step.relay == w)
    requires ToldSoon(s, w, c) && Unconditional(s.pending[w])
    ensures ToldSoon(Apply(s, step), w, c) && Unconditional(Apply(s, step).pending[w])
  {
    if s.workers[c].needUpdate {
      FlagStays(s, step, c);
    } else if step == Control(w) {
      var stores := s.pending[w];
      var i :| 0 <= i < |stores| && stores[i] == Flag(c);
      if i > 0 {
        assert stores[1..][i - 1] == Flag(c);
      }
    }
  }

  lemma {:induction false} RunStillTells(s: State, steps: seq<Step>, w: nat, c: nat)
    requires CanRun(s, steps) && NoneBegins(steps, w) && Rests(steps, c)
    requires ToldSoon(s, w, c) && Unconditional(s.pending[w])
    ensures ToldSoon(After(s, steps), w, c)
    decreases |steps|
  {
    if steps != [] {
      StepStillTells(s, steps[0], w, c);
      RunStillTells(Apply(s, steps[0]), steps[1..], w, c);
    }
  }

  /** A VF removal that goes through flags the worker with its last store. */
  lemma {:induction false} RunTellsOfVfRemoval(s: State, steps: seq<Step>, w: nat, full: seq<Store>, c: nat, done: nat, s0: State)
    requires VirtioPos(w) < |s0.sides| && RemovalOf(s0, w, RemoveVf, VfPos(w), full) && s0.sides[VfPos(w)].cpu == c
    requires Orderly(s) && CanRun(s, steps) && NoneBegins(steps, w) && Rests(steps, c) && c < |s.workers|
    requires UnderRemoval(s, w, RemoveVf, VfPos(w), full, c, done)
    requires done == |full| ==> s.workers[c].needUpdate || s.sides[VfPos(w)].cpu == c
    ensures var t := After(s, steps);
      && w < |t.pending| && VfPos(w) < |t.sides| && c < |t.workers|
      && (t.pending[w] == [] ==> t.workers[c].needUpdate || t.sides[VfPos(w)].cpu == c)
    decreases |steps|
  {
    if steps != [] {
      var s', pos := Apply(s, steps[0]), VfPos(w);
      StepKeepsOrderly(s, steps[0]);
      var now := StepKeepsRemoval(s, steps[0], w, RemoveVf, pos, full, c, done, s0);
      if now == |full| {
        VfRemovalStep(s, steps[0], w, full, c, done, s0);
      }
      RunTellsOfVfRemoval(s', steps[1..], w, full, c, now, s0);
    } else if done < |full| {
      assert |full[done..]| > 0;
    }
  }

  lemma {:induction false} VfRemovalStep(s: State, step: Step, w: nat, full: seq<Store>, c: nat, done: nat, s0: State)
    requires VirtioPos(w) < |s0.sides| && RemovalOf(s0, w, RemoveVf, VfPos(w), full) && s0.sides[VfPos(w)].cpu == c
    requires Orderly(s) && Enabled(s, step) && step != Work(c) && !(step.Begin? && step.relay == w) && c < |s.workers|
    requires UnderRemoval(s, w, RemoveVf, VfPos(w), full, c, done)
    requires done == |full| ==> s.workers[c].needUpdate || s.sides[VfPos(w)].cpu == c
    requires Apply(s, step).pending[w] == []
    ensures Apply(s, step).workers[c].needUpdate || Apply(s, step).sides[VfPos(w)].cpu == c
  {
    if step == Control(w) {
      assert s.pending[w][0] == full[done] && s.pending[w][1..] == full[done + 1..];
    } else {
      if s.workers[c].needUpdate {
        FlagStays(s, step, c);
      }
      if step.Control? {
        OthersLeaveItAlone(s, step.relay, VfPos(w));
      }
    }
  }

  /** When the stores of an operation are made, every worker it concerns has its flag set, unless that worker has
      moved in between; a VF removal that gave up waiting has told nobody, and the VF has kept its CPU. */
  lemma {:induction false} ConcernedWorkersAreTold(s0: State, before: seq<Step>, w: nat, op: Op, during: seq<Step>, c: nat)
    requires Initial(s0) && CanRun(s0, before)
    requires var s := After(s0, before);
      && Enabled(s, Begin(w, op)) && c in Concerned(s, w, op) && c < |s.workers|
      && CanRun(Apply(s, Begin(w, op)), during) && NoneBegins(during, w) && Rests(during, c)
    ensures var t := After(Apply(After(s0, before), Begin(w, op)), during);
      && w < |t.pending| && c < |t.workers| && 2 * w < |t.sides|
      && (t.pending[w] == [] ==> t.workers[c].needUpdate || (op.RemoveVf? && t.sides[2 * w].cpu == c))
  {
    var s := After(s0, before);
    var b := Apply(s, Begin(w, op));
    RunKeepsOrderly(s0, before);
    StepKeepsOrderly(s, Begin(w, op));
    RunKeepsOrderly(b, during);
    ConcernedAreFlagged(s, w, op, c);
    if op.RemoveVf? {
      var full := Stores(s, w, op);
      assert b.pending[w] == full == full[0..] && b.sides == s.sides && RelayOf(VfPos(w)) == w;
      RunTellsOfVfRemoval(b, during, w, full, c, 0, s);
    } else {
      StoresAreUnconditional(s, w, op);
      RunStillTells(b, during, w, c);
      SameTable(b, during);
    }
  }

  lemma {:induction false} SameTable(s: State, steps: seq<Step>)
    requires CanRun(s, steps)
    ensures |After(s, steps).sides| == |s.sides|
    decreases |steps|
  {
    if steps != [] {
      SameTable(Apply(s, steps[0]), steps[1..]);
    }
  }
}
