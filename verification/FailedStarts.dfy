/** A device start that fails inside add_virtio leaves the VF side moved but not announced: exactly which
    of these failures can lose an assignment. */
module FailedStarts {
  import opened Common
  import opened WorkerCache

  /** The VM of relay `w` goes to worker `c`, the VF waits on `d0` and is placed on `d`, and its start fails. */
  datatype Failure = Failure(w: nat, c: nat, d0: nat, d: nat)

  predicate FailsAs(s: State, step: Step, f: Failure)
    requires Enabled(s, step)
  {
    && step == Begin(f.w, AddVirtio(f.c, f.d, false))
    && Attached(s.sides[VfPos(f.w)]) && s.sides[VfPos(f.w)].cpu == f.d0
  }

  /** The only harmful starts of the run are of this kind. */
  predicate OnlyFails(s: State, steps: seq<Step>, f: Failure)
    requires CanRun(s, steps)
    decreases |steps|
  {
    steps == [] || ((StartIsSafe(s, steps[0]) || FailsAs(s, steps[0], f)) && OnlyFails(Apply(s, steps[0]), steps[1..], f))
  }

  /** A run that loses an assignment. */
  predicate Loses(s: State, steps: seq<Step>, f: Failure, pos: nat) {
    CanRun(s, steps) && OnlyFails(s, steps, f) && pos < |After(s, steps).sides| && !Coherent(After(s, steps), pos)
  }

  function Fresh(workers: nat, pins: seq<int>): (s: State)
    requires |pins| % 2 == 0
    ensures Initial(s) && |s.sides| == |pins| && |s.workers| == workers && |s.pending| == |pins| / 2 && s.pins == pins
  {
    State(seq(|pins|, _ => Side(false, false, NO_CPU)), seq(workers, _ => Worker(false, {}, Top)), seq(|pins| / 2, _ => []), pins)
  }

  lemma {:induction false} Extend(s: State, steps: seq<Step>, more: seq<Step>, f: Failure)
    requires CanRun(s, steps) && OnlyFails(s, steps, f)
    requires CanRun(After(s, steps), more) && OnlyFails(After(s, steps), more, f)
    ensures CanRun(s, steps + more) && OnlyFails(s, steps + more, f) && After(s, steps + more) == After(After(s, steps), more)
    decreases |steps|
  {
    if steps == [] {
      assert steps + more == more;
    } else {
      assert (steps + more)[1..] == steps[1..] + more;
      Extend(Apply(s, steps[0]), steps[1..], more, f);
    }
  }

  lemma {:induction false} ExtendOne(s: State, steps: seq<Step>, step: Step, f: Failure)
    requires CanRun(s, steps) && OnlyFails(s, steps, f) && Enabled(After(s, steps), step)
    requires StartIsSafe(After(s, steps), step) || FailsAs(After(s, steps), step, f)
    ensures CanRun(s, steps + [step]) && OnlyFails(s, steps + [step], f)
    ensures After(s, steps + [step]) == Apply(After(s, steps), step)
  {
    assert [step][1..] == [];
    Extend(s, steps, [step], f);
  }

  lemma {:induction false} TurnsAreSafe(s: State, c: nat, n: nat, f: Failure)
    requires CanRun(s, Turns(c, n))
    ensures OnlyFails(s, Turns(c, n), f)
    decreases n
  {
    if n > 0 {
      assert Turns(c, n)[0] == Work(c) && Turns(c, n)[1..] == Turns(c, n - 1);
      TurnsAreSafe(Apply(s, Work(c)), c, n - 1, f);
    }
  }

  /** The next `n` stores of the control operation on relay `w`. */
  lemma {:induction false} Finish(s: State, steps: seq<Step>, w: nat, n: nat, f: Failure) returns (steps': seq<Step>)
    requires CanRun(s, steps) && OnlyFails(s, steps, f)
    requires w < |After(s, steps).pending| && StoresLeft(After(s, steps), w, n)
    ensures CanRun(s, steps') && OnlyFails(s, steps', f) && After(s, steps') == StoreN(After(s, steps), w, n)
    decreases n
  {
    steps' := steps;
    if n > 0 {
      ExtendOne(s, steps, Control(w), f);
      steps' := Finish(s, steps + [Control(w)], w, n - 1, f);
    }
  }

  predicate StoresLeft(s: State, w: nat, n: nat)
    requires w < |s.pending|
    decreases n
  {
    n == 0 || (s.pending[w] != [] && StoresLeft(Apply(s, Control(w)), w, n - 1))
  }

  function StoreN(s: State, w: nat, n: nat): State
    requires w < |s.pending| && StoresLeft(s, w, n)
    decreases n
  {
    if n == 0 then s else StoreN(Apply(s, Control(w)), w, n - 1)
  }

  function Flagged(workers: seq<Worker>, c: nat): (r: seq<Worker>)
    requires c < |workers|
    ensures |r| == |workers|
  {
    workers[c := workers[c].(needUpdate := true)]
  }

  /** The VF waits on `d0`, nothing is pending, and worker `d` is untouched or only flagged. */
  predicate Waiting(s: State, f: Failure) {
    && VirtioPos(f.w) < |s.sides| && f.w < |s.pending| && f.c < |s.workers| && f.d0 < |s.workers| && f.d < |s.workers|
    && s.sides[VfPos(f.w)] == Side(true, false, f.d0) && s.sides[VirtioPos(f.w)] == Side(false, false, NO_CPU)
    && s.pending[f.w] == []
    && (s.workers[f.d] == Worker(true, {}, Top) || (s.workers[f.d] == Worker(false, {}, Top) && f.d != f.d0))
  }

  predicate PinsFit(pins: seq<int>, f: Failure) {
    && |pins| % 2 == 0 && VirtioPos(f.w) < |pins|
    && (pins[VirtioPos(f.w)] == NO_CPU || pins[VirtioPos(f.w)] == f.c)
    && (pins[VfPos(f.w)] == NO_CPU || pins[VfPos(f.w)] == f.d)
  }

  /** Without a pin the VF is simply added on `d0`. */
  lemma {:induction false} AddOn(workers: nat, pins: seq<int>, f: Failure, cpu: nat) returns (steps: seq<Step>)
    requires PinsFit(pins, f) && cpu < workers && f.c < workers
    requires pins[VfPos(f.w)] == NO_CPU || pins[VfPos(f.w)] == cpu
    ensures CanRun(Fresh(workers, pins), steps) && OnlyFails(Fresh(workers, pins), steps, f)
    ensures var s := Fresh(workers, pins);
      After(s, steps) == State(s.sides[VfPos(f.w) := Side(true, false, cpu)], Flagged(s.workers, cpu), s.pending, pins)
  {
    var s0, add := Fresh(workers, pins), Begin(f.w, AddVf(cpu));
    ExtendOne(s0, [], add, f);
    var t0 := Apply(s0, add);
    assert t0.pending[f.w] == [SetCpu(VfPos(f.w), cpu), SetLive(VfPos(f.w)), Flag(cpu)] + [];
    steps := Finish(s0, [] + [add], f.w, 3, f);
    assert t0.pending[f.w := []] == s0.pending;
  }

  lemma {:induction false} WaitOn(workers: nat, pins: seq<int>, f: Failure) returns (steps: seq<Step>)
    requires PinsFit(pins, f) && f.c < workers && f.d0 < workers && f.d < workers
    requires pins[VfPos(f.w)] != NO_CPU ==> f.d != f.d0
    ensures CanRun(Fresh(workers, pins), steps) && OnlyFails(Fresh(workers, pins), steps, f)
    ensures Waiting(After(Fresh(workers, pins), steps), f) && After(Fresh(workers, pins), steps).pins == pins
  {
    var s0 := Fresh(workers, pins);
    if pins[VfPos(f.w)] == NO_CPU {
      steps := AddOn(workers, pins, f, f.d0);
    } else {
      // a pinned VF is elsewhere only after a migration
      steps := AddOn(workers, pins, f, f.d);
      var s1, move := After(s0, steps), Begin(f.w, Migrate(false, 0, true, f.d0));
      ExtendOne(s0, steps, move, f);
      var t1 := Apply(s1, move);
      assert t1.pending[f.w] == [SetCpu(VfPos(f.w), f.d0), Flag(f.d), Flag(f.d0)];
      steps := Finish(s0, steps + [move], f.w, 3, f);
    }
  }

  /** The worker runs one full turn and finds nothing to do for relay `w`. */
  lemma {:induction false} UpdateWithoutRelay(s: State, steps: seq<Step>, w: nat, d: nat, f: Failure) returns (steps': seq<Step>)
    requires CanRun(s, steps) && OnlyFails(s, steps, f)
    requires var e := After(s, steps);
      && VirtioPos(w) < |e.sides| && d < |e.workers| && e.workers[d] == Worker(true, {}, Top)
      && !AssignedTo(e, VfPos(w), d) && !AssignedTo(e, VirtioPos(w), d)
    ensures CanRun(s, steps') && OnlyFails(s, steps', f)
    ensures var e, e' := After(s, steps), After(s, steps');
      && e'.sides == e.sides && e'.pending == e.pending && |e'.workers| == |e.workers|
      && !e'.workers[d].needUpdate && e'.workers[d].pc == Top && w !in e'.workers[d].active
  {
    ExtendOne(s, steps, Work(d), f);
    ExtendOne(s, steps + [Work(d)], Work(d), f);
    var scan := steps + [Work(d)] + [Work(d)];
    var e1 := After(s, scan);
    assert RelaysBelow(e1, d, 0) == {};
    ScanReadsTheTable(e1, d, 0);
    TurnsAreSafe(e1, d, |e1.sides| + 1, f);
    Extend(s, scan, Turns(d, |e1.sides| + 1), f);
    steps' := scan + Turns(d, |e1.sides| + 1);
    assert w !in RelaysBelow(e1, d, |e1.sides|) by {
      assert forall p: nat | RelayOf(p) == w :: p == VfPos(w) || p == VirtioPos(w);
    }
    ExtendOne(s, steps', Work(d), f);
    steps' := steps' + [Work(d)];
  }

  /** The VM connects, and the VF is about to be put on `d` unannounced. */
  predicate AboutToMove(s: State, f: Failure) {
    && VirtioPos(f.w) < |s.sides| && f.w < |s.pending| && f.d < |s.workers|
    && s.pending[f.w] == [SetCpu(VfPos(f.w), f.d)] && s.sides[VfPos(f.w)].live
    && !AssignedTo(s, VfPos(f.w), f.d) && !AssignedTo(s, VirtioPos(f.w), f.d)
    && (s.workers[f.d] == Worker(true, {}, Top) || s.workers[f.d] == Worker(false, {}, Top))
  }

  /** The VM connected and announced, the VF still on `d0`. */
  function Connected(s: State, f: Failure): State
    requires Waiting(s, f)
  {
    State(s.sides[VirtioPos(f.w) := Side(true, false, f.c)], Flagged(s.workers, f.c),
          s.pending[f.w := FindCpu(VfPos(f.w), f.d0, f.d, Pinned(s, VfPos(f.w)))], s.pins)
  }

  lemma {:induction false} Connect(s: State, steps: seq<Step>, f: Failure) returns (steps': seq<Step>)
    requires CanRun(s, steps) && OnlyFails(s, steps, f) && Waiting(After(s, steps), f) && PinsFit(After(s, steps).pins, f)
    ensures CanRun(s, steps') && OnlyFails(s, steps', f) && After(s, steps') == Connected(After(s, steps), f)
  {
    var e, connect := After(s, steps), Begin(f.w, AddVirtio(f.c, f.d, false));
    ExtendOne(s, steps, connect, f);
    var t := Apply(e, connect);
    var rest := FindCpu(VfPos(f.w), f.d0, f.d, Pinned(e, VfPos(f.w)));
    assert t.pending[f.w] == [SetCpu(VirtioPos(f.w), f.c), SetLive(VirtioPos(f.w)), Flag(f.c)] + rest;
    steps' := Finish(s, steps + [connect], f.w, 3, f);
  }

  lemma {:induction false} ConnectUpToMove(s: State, steps: seq<Step>, f: Failure) returns (steps': seq<Step>)
    requires CanRun(s, steps) && OnlyFails(s, steps, f) && Waiting(After(s, steps), f) && PinsFit(After(s, steps).pins, f)
    requires f.d != f.c && !(Pinned(After(s, steps), VfPos(f.w)) && f.d == f.d0)
    ensures CanRun(s, steps') && OnlyFails(s, steps', f) && AboutToMove(After(s, steps'), f)
  {
    var e := After(s, steps);
    steps' := Connect(s, steps, f);
    if Pinned(e, VfPos(f.w)) {
      assert FindCpu(VfPos(f.w), f.d0, f.d, true) == [SetCpu(VfPos(f.w), f.d)];
    } else {
      assert FindCpu(VfPos(f.w), f.d0, f.d, false) == [Flag(f.d0), SetCpu(VfPos(f.w), NO_CPU), SetCpu(VfPos(f.w), f.d)];
      steps' := Finish(s, steps', f.w, 2, f);
    }
  }

  /** The unannounced store. */
  lemma {:induction false} MoveUnannounced(e: State, f: Failure)
    requires VirtioPos(f.w) < |e.sides| && f.w < |e.pending| && f.d < |e.workers|
    requires e.pending[f.w] == [SetCpu(VfPos(f.w), f.d)] && e.sides[VfPos(f.w)].live
    requires !e.workers[f.d].needUpdate && e.workers[f.d].pc == Top && f.w !in e.workers[f.d].active
    ensures Missed(Apply(e, Control(f.w)), f)
  {
    assert [SetCpu(VfPos(f.w), f.d)][1..] == [];
  }

  /** The VF is on `d`, whose worker has neither the relay nor a flag, and nobody is about to set one. */
  predicate Missed(e: State, f: Failure) {
    && AssignedTo(e, VfPos(f.w), f.d) && f.w < |e.pending| && e.pending[f.w] == [] && f.d < |e.workers|
    && !e.workers[f.d].needUpdate && e.workers[f.d].pc == Top && f.w !in e.workers[f.d].active
    && !Coherent(e, VfPos(f.w))
  }

  lemma {:induction false} UpdateIfFlagged(s: State, steps: seq<Step>, f: Failure) returns (steps': seq<Step>)
    requires CanRun(s, steps) && OnlyFails(s, steps, f) && AboutToMove(After(s, steps), f)
    ensures CanRun(s, steps') && OnlyFails(s, steps', f)
    ensures var e, e' := After(s, steps), After(s, steps');
      && e'.sides == e.sides && e'.pending == e.pending && |e'.workers| == |e.workers|
      && !e'.workers[f.d].needUpdate && e'.workers[f.d].pc == Top && f.w !in e'.workers[f.d].active
  {
    steps' := steps;
    if After(s, steps).workers[f.d].needUpdate {
      steps' := UpdateWithoutRelay(s, steps, f.w, f.d, f);
    }
  }

  /** A failed start that sends the VF elsewhere than the VM, and not back to where it is pinned, is lost
      in some interleaving: the worker it goes to has just updated its cache and is not told. */
  lemma {:induction false} FailedStartLosesTheVf(workers: nat, pins: seq<int>, f: Failure) returns (steps: seq<Step>)
    requires PinsFit(pins, f) && f.c < workers && f.d0 < workers && f.d < workers
    requires f.d != f.c && !(pins[VfPos(f.w)] != NO_CPU && f.d == f.d0)
    ensures Loses(Fresh(workers, pins), steps, f, VfPos(f.w)) && Missed(After(Fresh(workers, pins), steps), f)
  {
    var s0 := Fresh(workers, pins);
    steps := WaitOn(workers, pins, f);
    steps := ConnectUpToMove(s0, steps, f);
    steps := UpdateIfFlagged(s0, steps, f);
    MoveUnannounced(After(s0, steps), f);
    ExtendOne(s0, steps, Control(f.w), f);
    steps := steps + [Control(f.w)];
  }

  lemma {:induction false} OnlySafeFailures(s: State, steps: seq<Step>, f: Failure)
    requires CanRun(s, steps) && OnlyFails(s, steps, f) && VfPos(f.w) < |s.pins|
    requires f.d == f.c || (s.pins[VfPos(f.w)] != NO_CPU && f.d == f.d0)
    ensures StartsAreSafe(s, steps)
    decreases |steps|
  {
    if steps != [] {
      OnlySafeFailures(Apply(s, steps[0]), steps[1..], f);
    }
  }

  /** The exact condition, for any relays, workers, pins and CPUs: among the runs whose only harmful starts
      are failures of this kind, one loses an assignment if and only if the VF is placed on another worker
      than the VM and not where it is pinned to and already was. */
  lemma {:induction false} FailedStartLosesExactlyWhen(workers: nat, pins: seq<int>, f: Failure)
    requires PinsFit(pins, f) && f.c < workers && f.d0 < workers && f.d < workers
    ensures (exists steps, pos :: Loses(Fresh(workers, pins), steps, f, pos))
            <==> f.d != f.c && !(pins[VfPos(f.w)] != NO_CPU && f.d == f.d0)
  {
    var s0 := Fresh(workers, pins);
    if f.d != f.c && !(pins[VfPos(f.w)] != NO_CPU && f.d == f.d0) {
      var steps := FailedStartLosesTheVf(workers, pins, f);
      assert Loses(s0, steps, f, VfPos(f.w));
    } else {
      forall steps, pos ensures !Loses(s0, steps, f, pos) {
        if Loses(s0, steps, f, pos) {
          OnlySafeFailures(s0, steps, f);
          NoAssignmentIsLost(s0, steps, pos);
        }
      }
    }
  }
}
