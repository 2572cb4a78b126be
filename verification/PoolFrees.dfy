/** Freeing a pool while packets that came from it are buffered: exactly in which control states which
    step can do that. */
module PoolFrees {
  import opened Common
  import opened Transmit
  import opened RelayModel
  import opened RelayProperties

  /** The step frees the current pool, by itself or in exchange for another. */
  predicate FreesPool(s: Relay, e: Event) {
    s.pools.current.Some? && PoolStep(s.ctl, s.pools, e).current != s.pools.current
  }

  predicate Buffered(s: Relay) {
    |s.vm2vf.window| > 0 || |s.vf2vm.window| > 0
  }

  /** A run to control state `c` after which the step `e` frees a pool under buffered packets. */
  ghost predicate Strikes(es: seq<Event>, c: Ctl, e: Event) {
    && CanRun(Initial(), es)
    && var s := After(Initial(), es);
       s.ctl == c && Enabled(s, e) && FreesPool(s, e) && Buffered(s)
  }

  /** A virtio removal is given up while the removal of the VF, given up before, is not finished either
      and at most one worker has made a step; or a bond gets a new pool on a relay whose virtio side was
      stranded. */
  predicate CanStrike(c: Ctl, e: Event) {
    match e
    case EndRemoveVirtio =>
      && c.waiting == ForVirtio && c.vioCpu >= 0 && c.vfCpu >= 0
      && ((c.vio == VioRemoving1 && c.vf == VfRemoving1)
          || (c.vio == VioRemoving1 && c.vf == VfRemoving2)
          || (c.vio == VioRemoving2 && c.vf == VfRemoving1))
    case AddBond(newPool, _) =>
      && newPool && c.waiting == Idle && c.vio == VioRemoving1 && c.vf == VfUninit
      && c.vioCpu == NO_CPU && c.vfCpu >= NO_CPU
    case _ => false
  }

  // ---------------------------------------------------------------- only there

  /** The VF has not been started, or is gone, while the VM is or was connected. */
  predicate NoTraffic(c: Ctl) {
    (c.vf == VfUninit || c.vf == VfAdded) && (c.vio == VioReady || c.waiting == ForVirtio)
  }

  /** Half removed virtio sides: with a CPU while they are waited for, without one once given up. */
  predicate HalfRemoved(c: Ctl) {
    && (c.waiting == ForVirtio ==> c.vioCpu >= 0 && !(c.vio == VioRemoving2 && c.vf == VfRemoving2))
    && (c.waiting != ForVirtio && (c.vio == VioRemoving1 || c.vio == VioRemoving2) ==> c.vioCpu == NO_CPU)
  }

  predicate FromVmHeld(c: Ctl, l: Lane) {
    && (c.vio == VioUninit || NoTraffic(c) ==> |l.window| == 0)
    && (c.vf == VfUninit && c.vio != VioRemoving1 ==> |l.window| == 0)
  }

  predicate FromVfHeld(c: Ctl, l: Lane) {
    c.vio == VioUninit || c.vf == VfUninit || NoTraffic(c) ==> |l.window| == 0
  }

  lemma {:induction false} StepKeepsHalfRemoved(c: Ctl, e: Event)
    requires Wired(c) && HalfRemoved(c) && CtlEnabled(c, e)
    ensures HalfRemoved(CtlStep(c, e))
  {
  }

  lemma {:induction false} StepKeepsFromVmHeld(c: Ctl, l: Lane, e: Event)
    requires Wired(c) && HalfRemoved(c) && FromVmHeld(c, l) && CtlEnabled(c, e)
    ensures FromVmHeld(CtlStep(c, e), Vm2VfLane(c, l, e))
  {
  }

  lemma {:induction false} StepKeepsFromVfHeld(c: Ctl, l: Lane, e: Event)
    requires Wired(c) && HalfRemoved(c) && FromVfHeld(c, l) && CtlEnabled(c, e)
    ensures FromVfHeld(CtlStep(c, e), Vf2VmLane(c, l, e))
  {
    if e.Vf2Vm? && c.vf != VfReady && |l.window| == 0 {
      StaysEmpty(c, l, e.burst, e.rxBits, e.accepted);
    }
  }

  predicate Held(s: Relay) {
    Wired(s.ctl) && HalfRemoved(s.ctl) && FromVmHeld(s.ctl, s.vm2vf) && FromVfHeld(s.ctl, s.vf2vm)
  }

  lemma {:induction false} RunKeepsHeld(s: Relay, es: seq<Event>)
    requires Held(s) && CanRun(s, es)
    ensures Held(After(s, es))
    decreases |es|
  {
    if es != [] {
      StepKeepsWired(s.ctl, es[0]);
      StepKeepsHalfRemoved(s.ctl, es[0]);
      StepKeepsFromVmHeld(s.ctl, s.vm2vf, es[0]);
      StepKeepsFromVfHeld(s.ctl, s.vf2vm, es[0]);
      RunKeepsHeld(Apply(s, es[0]), es[1..]);
    }
  }

  lemma {:induction false} HeldMeans(s: Relay, e: Event)
    requires Held(s) && Enabled(s, e) && FreesPool(s, e) && Buffered(s)
    ensures CanStrike(s.ctl, e)
  {
  }

  lemma {:induction false} StrikesOnlyThere(es: seq<Event>, c: Ctl, e: Event)
    requires Strikes(es, c, e)
    ensures CanStrike(c, e)
  {
    RunKeepsHeld(Initial(), es);
    HeldMeans(After(Initial(), es), e);
  }

  // ---------------------------------------------------------------- and everywhere there

  /** Both sides run on the given CPUs, and packets are buffered in both directions. */
  predicate Loaded(s: Relay, vioCpu: nat, vfCpu: nat) {
    && s.ctl == Ctl(VioReady, VfReady, vioCpu, vfCpu, Idle) && s.pools.current.Some?
    && |s.vm2vf.window| > 0 && |s.vf2vm.window| > 0
  }

  /** `es` leads from `s` to control state `c`, with packets buffered and a pool. */
  ghost predicate Leads(s: Relay, es: seq<Event>, c: Ctl) {
    && CanRun(s, es)
    && After(s, es).ctl == c && Buffered(After(s, es)) && After(s, es).pools.current.Some?
  }

  lemma {:induction false} Prepend(s: Relay, e: Event, es: seq<Event>, c: Ctl)
    requires Enabled(s, e) && Leads(Apply(s, e), es, c)
    ensures Leads(s, [e] + es, c)
  {
    FirstEvent(s, e, es);
  }

  const IdleVm2Vf := Vm2Vf([], 0)
  const IdleVf2Vm := Vf2Vm([], {}, [])

  /** The VF removal times out, the VM leaves, and at most one worker makes a step. */
  lemma {:induction false} GiveUpBoth(s: Relay, vioCpu: nat, vfCpu: nat, c: Ctl) returns (es: seq<Event>)
    requires Loaded(s, vioCpu, vfCpu) && CanStrike(c, EndRemoveVirtio) && c.vioCpu == vioCpu && c.vfCpu == vfCpu
    ensures Leads(s, es, c)
  {
    var s1 := Apply(s, BeginRemoveVf);
    var s2 := Apply(s1, EndRemoveVf(false));
    var s3 := Apply(s2, BeginRemoveVirtio);
    if c.vf == VfRemoving2 {
      assert Leads(Apply(s3, IdleVf2Vm), [], c);
      Prepend(s3, IdleVf2Vm, [], c);
      es := [IdleVf2Vm] + [];
    } else if c.vio == VioRemoving2 {
      assert Leads(Apply(s3, IdleVm2Vf), [], c);
      Prepend(s3, IdleVm2Vf, [], c);
      es := [IdleVm2Vf] + [];
    } else {
      es := [];
      assert Leads(s3, es, c);
    }
    Prepend(s2, BeginRemoveVirtio, es, c);
    es := [BeginRemoveVirtio] + es;
    Prepend(s1, EndRemoveVf(false), es, c);
    es := [EndRemoveVf(false)] + es;
    Prepend(s, BeginRemoveVf, es, c);
    es := [BeginRemoveVf] + es;
  }

  /** The VM is stranded, and the VF is then removed, in time or not. */
  lemma {:induction false} Strand(s: Relay, vioCpu: nat, vfCpu: nat, c: Ctl) returns (es: seq<Event>)
    requires Loaded(s, vioCpu, vfCpu) && CanStrike(c, AddBond(true, Refused)) && (c.vfCpu == vfCpu || c.vfCpu == NO_CPU)
    ensures Leads(s, es, c)
  {
    var s1 := Apply(s, BeginRemoveVirtio);
    var s2 := Apply(s1, EndRemoveVirtio);
    var s3 := Apply(s2, BeginRemoveVf);
    var first := if c.vfCpu == NO_CPU then IdleVf2Vm else EndRemoveVf(false);
    var second := if c.vfCpu == NO_CPU then EndRemoveVf(true) else IdleVf2Vm;
    var s4 := Apply(s3, first);
    assert Leads(Apply(s4, second), [], c);
    Prepend(s4, second, [], c);
    es := [second] + [];
    Prepend(s3, first, es, c);
    es := [first] + es;
    Prepend(s2, BeginRemoveVf, es, c);
    es := [BeginRemoveVf] + es;
    Prepend(s1, EndRemoveVirtio, es, c);
    es := [EndRemoveVirtio] + es;
    Prepend(s, BeginRemoveVirtio, es, c);
    es := [BeginRemoveVirtio] + es;
  }

  /** From the start to both directions loaded, and on. */
  lemma {:induction false} FromLoaded(vioCpu: nat, vfCpu: nat, c: Ctl, e: Event) returns (es: seq<Event>)
    requires CanStrike(c, e) && (e.EndRemoveVirtio? ==> c.vioCpu == vioCpu) && (c.vfCpu == vfCpu || c.vfCpu == NO_CPU)
    ensures Leads(Initial(), es, c)
  {
    var m := Mbuf(vioCpu, vfCpu, 0);
    var s1 := Apply(Initial(), AddVf(Attached(vfCpu)));
    var s2 := Apply(s1, AddVirtio(false, vioCpu, vfCpu, true));
    var s3 := Apply(s2, Vm2Vf([m], 0));
    var s4 := Apply(s3, Vf2Vm([m], {}, []));
    assert s3.vm2vf.window == [m] && s4.vf2vm.window == [m];
    if e.EndRemoveVirtio? {
      es := GiveUpBoth(s4, vioCpu, vfCpu, c);
    } else {
      es := Strand(s4, vioCpu, vfCpu, c);
    }
    Prepend(s3, Vf2Vm([m], {}, []), es, c);
    es := [Vf2Vm([m], {}, [])] + es;
    Prepend(s2, Vm2Vf([m], 0), es, c);
    es := [Vm2Vf([m], 0)] + es;
    Prepend(s1, AddVirtio(false, vioCpu, vfCpu, true), es, c);
    es := [AddVirtio(false, vioCpu, vfCpu, true)] + es;
    Prepend(Initial(), AddVf(Attached(vfCpu)), es, c);
    es := [AddVf(Attached(vfCpu))] + es;
  }

  /** For every control state and every step: some run reaches the state so that the step frees a pool
      while a packet is buffered if and only if the step gives up the virtio removal after the VF removal
      was given up and not both workers have answered, or gives a bond a new pool on a stranded relay. */
  lemma {:induction false} PoolFreedUnderPacketsExactlyWhen(c: Ctl, e: Event)
    ensures (exists es :: Strikes(es, c, e)) <==> CanStrike(c, e)
  {
    if CanStrike(c, e) {
      var vioCpu: nat := if c.vioCpu >= 0 then c.vioCpu else 0;
      var vfCpu: nat := if c.vfCpu >= 0 then c.vfCpu else 0;
      var es := FromLoaded(vioCpu, vfCpu, c, e);
      RunKeepsPools(Initial(), es);
      assert Strikes(es, c, e);
    }
    if es :| Strikes(es, c, e) {
      StrikesOnlyThere(es, c, e);
    }
  }

  /** With orderly steps a pool is never freed while a packet is buffered. */
  lemma {:induction false} OrderlyRunsFreeEmptyPools(es: seq<Event>, e: Event)
    requires CanRun(Initial(), es) && Enabled(After(Initial(), es), e) && FreesPool(After(Initial(), es), e)
    requires AllOrderly(Initial(), es) && Orderly(After(Initial(), es).ctl, e)
    ensures !Buffered(After(Initial(), es))
  {
    if Buffered(After(Initial(), es)) {
      StrikesOnlyThere(es, After(Initial(), es).ctl, e);
      RunKeepsAccountExactlyWhen(Initial(), es);
    }
  }
}
