/** The loops of the balancer, proved against the functions of module Scheduler. */
module CoreScheduler {
  import opened Common
  import opened Permutations
  import opened Greedy
  import opened Scheduler
  import opened Balancing
  import opened Decision

  /** `min(worker_loads, key=worker_loads.get)`: the first worker with the smallest load. */
  method LeastBusy(workerLoads: map<int, real>, workers: seq<int>, ghost loads: seq<real>, ghost asg: seq<int>, ghost n: nat)
    returns (least: int)
    requires |workers| > 0 && n <= |loads| && n <= |asg|
    requires Accumulated(workerLoads, workers, loads, asg, n)
    ensures least == FirstLeast(loads, asg, n, workers)
  {
    least := workers[0];
    for i := 1 to |workers|
      invariant least in workers
      invariant least == FirstLeast(loads, asg, n, workers[..i])
    {
      assert workers[..i + 1][..i] == workers[..i];
      var w := workers[i];
      assert w in workers;
      if workerLoads[w] < workerLoads[least] {
        least := w;
      }
    }
    assert workers[..|workers|] == workers;
  }

  /** The dictionary of worker loads after the first `n` placements. */
  ghost predicate Accumulated(workerLoads: map<int, real>, workers: seq<int>, loads: seq<real>, asg: seq<int>, n: nat)
    requires n <= |loads| && n <= |asg|
  {
    forall c :: c in workers ==> c in workerLoads && workerLoads[c] == LoadOf(loads, asg, n, c)
  }

  lemma {:induction false} Accumulate(workerLoads: map<int, real>, workers: seq<int>, loads: seq<real>, asg: seq<int>, least: int)
    requires |asg| < |loads| && Accumulated(workerLoads, workers, loads, asg, |asg|) && least in workers
    ensures Accumulated(workerLoads[least := workerLoads[least] + loads[|asg|]], workers, loads, asg + [least], |asg| + 1)
  {
    forall c ensures LoadOf(loads, asg + [least], |asg|, c) == LoadOf(loads, asg, |asg|, c) {
      LoadDependsOnPrefix(loads, asg + [least], asg, |asg|, c);
    }
  }

  /** The assignment loop of `round_robin`. */
  method AssignLeastBusy(loads: seq<real>, workers: seq<int>) returns (asg: seq<int>, workerLoads: map<int, real>)
    requires ValidWorkers(workers)
    ensures asg == Assign(loads, workers, |loads|)
    ensures Accumulated(workerLoads, workers, loads, asg, |loads|)
  {
    asg := [];
    workerLoads := map c | c in workers :: 0.0;
    for i := 0 to |loads|
      invariant asg == Assign(loads, workers, i)
      invariant Accumulated(workerLoads, workers, loads, asg, i)
    {
      var least := LeastBusy(workerLoads, workers, loads, asg, i);
      Accumulate(workerLoads, workers, loads, asg, least);
      workerLoads := workerLoads[least := workerLoads[least] + loads[i]];
      asg := asg + [least];
    }
  }

  ghost predicate SameRelay(s: seq<Placed>, i: nat) {
    i + 1 < |s| && s[i].entry.id == s[i + 1].entry.id
  }

  /** Positions 2k and 2k+1 hold the two directions of one relay. */
  ghost predicate Adjacent(s: seq<Placed>) {
    |s| % 2 == 0 && forall i {:trigger SameRelay(s, i)} :: 0 <= i < |s| && i % 2 == 0 ==> SameRelay(s, i)
  }

  lemma {:induction false} PairedIsAdjacent(s: seq<Placed>)
    requires Paired(s) && Sorted(s, LowerIdFirst)
    ensures Adjacent(s)
  {
    if |s| > 0 {
      FirstTwoMatch(s);
      RestIsPaired(s);
      PairedIsAdjacent(s[2..]);
      forall i | 0 <= i < |s| && i % 2 == 0 ensures SameRelay(s, i) {
        assert i >= 2 ==> SameRelay(s[2..], i - 2);
      }
    }
  }

  /** PairUp from position `i` on. */
  function PairUpFrom(s: seq<Placed>, i: nat): seq<RelayCpu>
    decreases |s| - i
  {
    if i + 1 >= |s| then [] else [Pair(s[i], s[i + 1])] + PairUpFrom(s, i + 2)
  }

  lemma {:induction false} PairUpBySlices(s: seq<Placed>, i: nat)
    requires i <= |s|
    ensures PairUpFrom(s, i) == PairUp(s[i..])
    decreases |s| - i
  {
    if i + 1 < |s| {
      PairUpBySlices(s, i + 2);
      assert s[i..][2..] == s[i + 2..];
    }
  }

  /** The loop that turns the sorted list into mappings. Its assertion on equal ids never fails. */
  method BuildMappings(s: seq<Placed>) returns (mappings: seq<RelayCpu>)
    requires Adjacent(s)
    ensures mappings == PairUp(s)
  {
    mappings := [];
    var i := 0;
    while i < |s|
      invariant 0 <= i <= |s| && i % 2 == 0
      invariant mappings + PairUpFrom(s, i) == PairUpFrom(s, 0)
    {
      assert SameRelay(s, i);
      var vm2vf := if s[i].entry.dir == VM2VF then s[i] else s[i + 1];
      var vf2vm := if s[i + 1].entry.dir == VF2VM then s[i + 1] else s[i];
      assert vm2vf.entry.id == vf2vm.entry.id;
      mappings := mappings + [RelayCpu(vm2vf.entry.id, vm2vf.core, vf2vm.core)];
      i := i + 2;
    }
    PairUpBySlices(s, 0);
    assert s[0..] == s;
  }

  method RoundRobin(rates: seq<Rate>, workers: seq<int>, root: real -> real)
    returns (mappings: seq<RelayCpu>, cv: real)
    requires ValidRates(rates) && ValidWorkers(workers)
    ensures mappings == Mappings(rates, workers)
    ensures cv == Balance(rates, workers, root)
  {
    var throughput := [];
    for i := 0 to |rates|
      invariant throughput == Entries(rates[..i])
    {
      assert rates[..i + 1][..i] == rates[..i];
      throughput := throughput + [Entry(rates[i].id, rates[i].vm2vf, VM2VF), Entry(rates[i].id, rates[i].vf2vm, VF2VM)];
    }
    assert rates[..|rates|] == rates;
    throughput := StableSort(throughput, HeavierFirst);
    var loads := Map(throughput, EntryLoad);
    var asg, workerLoads := AssignLeastBusy(loads, workers);
    ByIdIsPaired(rates, workers);
    var byId := StableSort(PlacedEntries(throughput, asg), LowerIdFirst);
    PairedIsAdjacent(byId);
    mappings := BuildMappings(byId);
    var v := seq(|workers|, i requires 0 <= i < |workers| && workers[i] in workerLoads => workerLoads[workers[i]]);
    assert v == LoadVector(loads, asg, |loads|, workers);
    cv := Variation(v, root);
  }

  /** `get_variation_coefficient`, with a KeyError as an early return. */
  method GetVariationCoefficient(previous: Option<seq<RelayCpu>>, rates: seq<Rate>, workers: seq<int>, root: real -> real)
    returns (cv: real)
    requires ValidRates(rates) && ValidWorkers(workers)
    ensures cv == PreviousBalance(previous, rates, workers, root)
  {
    if previous.None? {
      return EXTREME;
    }
    var maps := previous.value;
    var workerLoads := map c | c in workers :: 0.0;
    for i := 0 to |maps|
      invariant Known(maps[..i], rates, workers)
      invariant forall c :: c in workerLoads <==> c in workers
      invariant forall c :: c in workers ==> workerLoads[c] == MappedLoad(maps[..i], rates, c)
    {
      var r := maps[i];
      assert maps[i] in maps;
      if !HasRate(rates, r.relay) || r.virtio2vf !in workerLoads || r.vf2virtio !in workerLoads {
        return EXTREME;
      }
      var rate := RateOf(rates, r.relay);
      workerLoads := workerLoads[r.virtio2vf := workerLoads[r.virtio2vf] + rate.vm2vf];
      workerLoads := workerLoads[r.vf2virtio := workerLoads[r.vf2virtio] + rate.vf2vm];
      assert maps[..i + 1] == maps[..i] + [r];
      forall c ensures MappedLoad(maps[..i + 1], rates, c) == MappedLoad(maps[..i], rates, c) + Share(r, rates, c) {
        SumByConcat(maps[..i], [r], ShareOn(rates, c));
      }
    }
    assert maps[..|maps|] == maps;
    var v := seq(|workers|, i requires 0 <= i < |workers| && workers[i] in workerLoads => workerLoads[workers[i]]);
    assert v == MappedVector(maps, rates, workers);
    cv := Variation(v, root);
  }

  /** One pass of the main loop over one NUMA node: whether to migrate, and to which mappings. A
      relay set whose mappings came from an earlier pass with the same rates is left alone. */
  method Optimize(rates: seq<Rate>, workers: seq<int>, current: seq<RelayCpu>, root: real -> real, sensitivity: real)
    returns (migrate: bool, mappings: seq<RelayCpu>)
    requires ValidRates(rates) && ValidWorkers(workers) && sensitivity >= 0.0
    ensures mappings == Mappings(rates, workers)
    ensures migrate <==> Migrates(Balance(rates, workers, root),
                                  PreviousBalance(Some(current), rates, workers, root), sensitivity)
    ensures IsRoot(root) ==> RightDecision(migrate, current, mappings, rates, workers, sensitivity)
    ensures Permutation(current, mappings) ==> !migrate
  {
    var cv;
    mappings, cv := RoundRobin(rates, workers, root);
    var previous := GetVariationCoefficient(Some(current), rates, workers, root);
    migrate := Migrates(cv, previous, sensitivity);
    if IsRoot(root) {
      DecisionIsRight(rates, workers, current, root, sensitivity);
    }
    if Permutation(current, mappings) {
      NoOscillation(rates, workers, rates, workers, current, root, sensitivity);
    }
  }
}
