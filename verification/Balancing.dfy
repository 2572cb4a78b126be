/** What the balancer guarantees: its mappings rebuild the loads it accumulated, stay within 4/3 of
    every other mapping, and never cause a second migration. */
module Balancing {
  import opened Common
  import opened Permutations
  import opened Greedy
  import opened Scheduler

  // ---------------------------------------------------------------- rebuilding the loads

  function OnCore(c: int): Placed -> real {
    (p: Placed) => if p.core == c then p.entry.load else 0.0
  }

  lemma {:induction false} LoadsAsSum(placed: seq<Placed>, loads: seq<real>, asg: seq<int>, n: nat, c: int)
    requires n <= |placed| && |loads| == |asg| == |placed|
    requires forall i :: 0 <= i < |placed| ==> placed[i].core == asg[i] && placed[i].entry.load == loads[i]
    ensures SumBy(placed[..n], OnCore(c)) == LoadOf(loads, asg, n, c)
  {
    if n > 0 {
      LoadsAsSum(placed, loads, asg, n - 1, c);
      assert placed[..n] == placed[..n - 1] + [placed[n - 1]];
      SumByConcat(placed[..n - 1], [placed[n - 1]], OnCore(c));
    }
  }

  lemma {:induction false} RateOfEntry(rates: seq<Rate>, e: Entry)
    requires ValidRates(rates) && e in Entries(rates)
    ensures HasRate(rates, e.id) && LoadIn(RateOf(rates, e.id), e.dir) == e.load
  {
    EntryMembers(rates, e);
    var i :| 0 <= i < |rates| && e.id == rates[i].id && e.load == LoadIn(rates[i], e.dir);
    var r := RateOf(rates, e.id);
    var j :| 0 <= j < |rates| && rates[j] == r;
    assert i == j;
  }

  lemma {:induction false} PairedLoads(s: seq<Placed>, rates: seq<Rate>, c: int)
    requires ValidRates(rates) && Paired(s) && Sorted(s, LowerIdFirst)
    requires forall p :: p in s ==> p.entry in Entries(rates)
    ensures MappedLoad(PairUp(s), rates, c) == SumBy(s, OnCore(c))
  {
    if |s| > 0 {
      FirstTwoMatch(s);
      RestIsPaired(s);
      PairedLoads(s[2..], rates, c);
      RateOfEntry(rates, s[0].entry);
      RateOfEntry(rates, s[1].entry);
      assert s[1..][1..] == s[2..];
      assert PairUp(s)[1..] == PairUp(s[2..]);
    }
  }

  /** The mappings, read back, give every worker exactly the load that the assignment loop gave it. */
  lemma {:induction false} MappingsRebuildLoads(rates: seq<Rate>, workers: seq<int>, c: int)
    requires ValidRates(rates) && ValidWorkers(workers)
    ensures MappedLoad(Mappings(rates, workers), rates, c)
            == LoadOf(Loads(rates), Assignment(rates, workers), |Loads(rates)|, c)
  {
    var placed := PlacedEntries(SortedEntries(rates), Assignment(rates, workers));
    ByIdIsPaired(rates, workers);
    PairedLoads(ById(rates, workers), rates, c);
    SortKeepsItems(placed, LowerIdFirst);
    SumByPermutation(ById(rates, workers), placed, OnCore(c));
    LoadsAsSum(placed, Loads(rates), Assignment(rates, workers), |placed|, c);
    assert placed[..|placed|] == placed;
  }

  predicate MapsRelay(maps: seq<RelayCpu>, id: int) {
    exists k :: 0 <= k < |maps| && maps[k].relay == id
  }

  predicate PlacesRelay(s: seq<Placed>, id: int) {
    exists k :: 0 <= k < |s| && s[k].entry.id == id
  }

  /** One mapping per relay id in `s`, in ascending order, to listed workers only. */
  ghost predicate OnePerRelay(maps: seq<RelayCpu>, s: seq<Placed>, workers: seq<int>) {
    && (forall k :: 0 <= k < |maps| ==> maps[k].virtio2vf in workers && maps[k].vf2virtio in workers)
    && (forall id :: MapsRelay(maps, id) <==> PlacesRelay(s, id))
    && (forall k, l :: 0 <= k < l < |maps| ==> maps[k].relay < maps[l].relay)
  }

  lemma {:induction false} PairUpMembers(s: seq<Placed>, workers: seq<int>)
    requires Paired(s) && Sorted(s, LowerIdFirst)
    requires forall p :: p in s ==> p.core in workers
    ensures OnePerRelay(PairUp(s), s, workers)
  {
    if |s| > 0 {
      FirstTwoMatch(s);
      RestIsPaired(s);
      PairUpMembers(s[2..], workers);
      forall i | 2 <= i < |s| ensures s[i].entry.id > s[0].entry.id {
        RestIsHigher(s, i);
      }
      PairUpStep(s, workers);
    }
  }

  lemma {:induction false} SameRelays(s: seq<Placed>, id: int)
    requires |s| >= 2 && s[0].entry.id == s[1].entry.id
    requires MapsRelay(PairUp(s[2..]), id) <==> PlacesRelay(s[2..], id)
    ensures MapsRelay(PairUp(s), id) <==> PlacesRelay(s, id)
  {
    var maps, tail := PairUp(s), PairUp(s[2..]);
    assert maps == [Pair(s[0], s[1])] + tail;
    assert MapsRelay(maps, id) <==> maps[0].relay == id || MapsRelay(tail, id) by {
      if k :| 0 <= k < |tail| && tail[k].relay == id {
        assert maps[k + 1].relay == id;
      }
    }
    assert PlacesRelay(s, id) <==> s[0].entry.id == id || PlacesRelay(s[2..], id) by {
      if k :| 0 <= k < |s[2..]| && s[2..][k].entry.id == id {
        assert s[k + 2].entry.id == id;
      }
      if k :| 2 <= k < |s| && s[k].entry.id == id {
        assert s[2..][k - 2].entry.id == id;
      }
    }
  }

  lemma {:induction false} PairUpStep(s: seq<Placed>, workers: seq<int>)
    requires |s| >= 2 && s[0].entry.id == s[1].entry.id
    requires forall p :: p in s ==> p.core in workers
    requires forall i :: 2 <= i < |s| ==> s[i].entry.id > s[0].entry.id
    requires OnePerRelay(PairUp(s[2..]), s[2..], workers)
    ensures OnePerRelay(PairUp(s), s, workers)
  {
    var maps, tail := PairUp(s), PairUp(s[2..]);
    assert maps == [Pair(s[0], s[1])] + tail;
    assert s[0] in s && s[1] in s;
    forall k | 0 <= k < |tail| ensures tail[k].relay > s[0].entry.id {
      assert MapsRelay(tail, tail[k].relay);
      assert PlacesRelay(s[2..], tail[k].relay);
    }
    forall id ensures MapsRelay(maps, id) <==> PlacesRelay(s, id) {
      SameRelays(s, id);
    }
  }

  /** Every relay is mapped exactly once, in ascending order, and only to workers. */
  lemma {:induction false} MappingsCoverRelays(rates: seq<Rate>, workers: seq<int>)
    requires ValidRates(rates) && ValidWorkers(workers)
    ensures Known(Mappings(rates, workers), rates, workers)
    ensures forall id :: HasRate(rates, id) <==> MapsRelay(Mappings(rates, workers), id)
    ensures forall k, l :: 0 <= k < l < |Mappings(rates, workers)| ==>
      Mappings(rates, workers)[k].relay < Mappings(rates, workers)[l].relay
  {
    var s, maps := ById(rates, workers), Mappings(rates, workers);
    ByIdIsPaired(rates, workers);
    PairUpMembers(s, workers);
    forall id ensures HasRate(rates, id) <==> MapsRelay(maps, id) {
      RatesArePlaced(rates, workers, id);
    }
    forall r | r in maps ensures HasRate(rates, r.relay) && r.virtio2vf in workers && r.vf2virtio in workers {
      var k :| 0 <= k < |maps| && maps[k] == r;
      assert MapsRelay(maps, r.relay);
    }
  }

  lemma {:induction false} RatesArePlaced(rates: seq<Rate>, workers: seq<int>, id: int)
    requires ValidRates(rates) && ValidWorkers(workers)
    ensures HasRate(rates, id) <==> PlacesRelay(ById(rates, workers), id)
  {
    var s := ById(rates, workers);
    ByIdIsPaired(rates, workers);
    if HasRate(rates, id) {
      var e := Entry(id, RateOf(rates, id).vm2vf, VM2VF);
      var i :| 0 <= i < |rates| && rates[i] == RateOf(rates, id);
      EntryMembers(rates, e);
      var p :| p in s && p.entry == e;
    }
    if PlacesRelay(s, id) {
      var k :| 0 <= k < |s| && s[k].entry.id == id;
      assert s[k] in s;
      RateOfEntry(rates, s[k].entry);
    }
  }

  /** Some mapping of the relay has the direction of this entry on its core. */
  ghost predicate Carries(maps: seq<RelayCpu>, p: Placed) {
    exists k :: 0 <= k < |maps| && maps[k].relay == p.entry.id
      && p.core == match p.entry.dir case VM2VF => maps[k].virtio2vf case VF2VM => maps[k].vf2virtio
  }

  lemma {:induction false} PairCarries(s: seq<Placed>, p: Placed)
    requires |s| >= 2 && s[0].entry.id == s[1].entry.id && s[0].entry.dir != s[1].entry.dir
    requires p == s[0] || p == s[1] || Carries(PairUp(s[2..]), p)
    ensures Carries(PairUp(s), p)
  {
    var maps, tail := PairUp(s), PairUp(s[2..]);
    assert maps == [Pair(s[0], s[1])] + tail;
    if p == s[0] || p == s[1] {
      assert maps[0].relay == p.entry.id;
    } else {
      var k :| 0 <= k < |tail| && tail[k].relay == p.entry.id
        && p.core == match p.entry.dir case VM2VF => tail[k].virtio2vf case VF2VM => tail[k].vf2virtio;
      assert maps[k + 1] == tail[k];
    }
  }

  lemma {:induction false} PairUpCarries(s: seq<Placed>, p: Placed)
    requires Paired(s) && Sorted(s, LowerIdFirst) && p in s
    ensures Carries(PairUp(s), p)
  {
    FirstTwoMatch(s);
    RestIsPaired(s);
    if p != s[0] && p != s[1] {
      var i :| 0 <= i < |s| && s[i] == p;
      assert s[2..][i - 2] == p;
      PairUpCarries(s[2..], p);
    }
    PairCarries(s, p);
  }

  /** Each direction of a relay is mapped to the worker that it was assigned to: virtio2vf has the direction from
      the VM, and vf2virtio the one from the VF. */
  lemma {:induction false} DirectionsGoWhereAssigned(rates: seq<Rate>, workers: seq<int>, i: nat)
    requires ValidRates(rates) && ValidWorkers(workers) && i < |SortedEntries(rates)|
    ensures |Assignment(rates, workers)| == |SortedEntries(rates)|
    ensures Carries(Mappings(rates, workers), Placed(SortedEntries(rates)[i], Assignment(rates, workers)[i]))
  {
    var placed := PlacedEntries(SortedEntries(rates), Assignment(rates, workers));
    assert placed[i] in placed;
    SortKeepsItems(placed, LowerIdFirst);
    SameMembers(ById(rates, workers), placed);
    ByIdIsPaired(rates, workers);
    PairUpCarries(ById(rates, workers), placed[i]);
  }

  // ---------------------------------------------------------------- against every other mapping

  /** A mapping of the same relays to the workers, each relay once, in any order. */
  ghost predicate Covers(other: seq<RelayCpu>, rates: seq<Rate>, workers: seq<int>) {
    && Known(other, rates, workers)
    && (forall id :: HasRate(rates, id) ==> MapsRelay(other, id))
    && (forall k, l :: 0 <= k < l < |other| ==> other[k].relay != other[l].relay)
  }

  /** The same, listed in the order of the rates. */
  ghost predicate CoversInOrder(other: seq<RelayCpu>, rates: seq<Rate>, workers: seq<int>) {
    && |other| == |rates|
    && forall i :: 0 <= i < |other| ==>
         other[i].relay == rates[i].id && other[i].virtio2vf in workers && other[i].vf2virtio in workers
  }

  function CpuIn(r: RelayCpu, dir: Direction): int {
    if dir == VM2VF then r.virtio2vf else r.vf2virtio
  }

  /** CPU that a list of mappings gives to an entry. */
  function CpuOf(other: seq<RelayCpu>, e: Entry): int {
    if |other| == 0 then 0
    else if other[0].relay == e.id then CpuIn(other[0], e.dir)
    else CpuOf(other[1..], e)
  }

  function OtherOn(other: seq<RelayCpu>, c: int): Entry -> real {
    (e: Entry) => if CpuOf(other, e) == c then e.load else 0.0
  }

  lemma {:induction false} CpuOfRelay(other: seq<RelayCpu>, i: nat, e: Entry)
    requires i < |other| && other[i].relay == e.id
    requires forall k :: 0 <= k < |other| && other[k].relay == e.id ==> k == i
    ensures CpuOf(other, e) == CpuIn(other[i], e.dir)
  {
    if i > 0 {
      assert forall k :: 0 <= k < |other[1..]| ==> other[1..][k] == other[k + 1];
      CpuOfRelay(other[1..], i - 1, e);
    }
  }

  lemma {:induction false} SumByTwo<T>(s: seq<T>, g: T -> real)
    requires |s| == 2
    ensures SumBy(s, g) == g(s[0]) + g(s[1])
  {
    assert s[1..][1..] == [];
    assert SumBy(s[1..], g) == g(s[1]);
  }

  lemma {:induction false} OtherLoads(other: seq<RelayCpu>, rates: seq<Rate>, workers: seq<int>, n: nat, c: int)
    requires ValidRates(rates) && CoversInOrder(other, rates, workers) && n <= |rates|
    ensures SumBy(Entries(rates[..n]), OtherOn(other, c)) == SumBy(other[..n], ShareOn(rates, c))
  {
    if n > 0 {
      OtherLoads(other, rates, workers, n - 1, c);
      var r, g := rates[n - 1], OtherOn(other, c);
      assert rates[..n][..n - 1] == rates[..n - 1] && rates[..n][n - 1] == r;
      SumByConcat(Entries(rates[..n - 1]), EntriesOf(r), g);
      SumByTwo(EntriesOf(r), g);
      CpuOfRelay(other, n - 1, EntriesOf(r)[0]);
      CpuOfRelay(other, n - 1, EntriesOf(r)[1]);
      assert other[..n] == other[..n - 1] + [other[n - 1]];
      SumByConcat(other[..n - 1], [other[n - 1]], ShareOn(rates, c));
    }
  }

  function OtherAssignment(other: seq<RelayCpu>, entries: seq<Entry>): (asg: seq<int>)
    ensures |asg| == |entries| && forall i :: 0 <= i < |asg| ==> asg[i] == CpuOf(other, entries[i])
  {
    seq(|entries|, i requires 0 <= i < |entries| => CpuOf(other, entries[i]))
  }

  lemma {:induction false} OtherAsLoads(other: seq<RelayCpu>, entries: seq<Entry>, n: nat, c: int)
    requires n <= |entries|
    ensures LoadOf(Map(entries, EntryLoad), OtherAssignment(other, entries), n, c)
            == SumBy(entries[..n], OtherOn(other, c))
  {
    if n > 0 {
      OtherAsLoads(other, entries, n - 1, c);
      assert entries[..n] == entries[..n - 1] + [entries[n - 1]];
      SumByConcat(entries[..n - 1], [entries[n - 1]], OtherOn(other, c));
    }
  }

  lemma {:induction false} OtherFits(other: seq<RelayCpu>, rates: seq<Rate>, workers: seq<int>, bound: real)
    requires ValidRates(rates) && CoversInOrder(other, rates, workers)
    requires forall c :: c in workers ==> MappedLoad(other, rates, c) <= bound
    ensures Fits(Loads(rates), OtherAssignment(other, SortedEntries(rates)), |Loads(rates)|, workers, bound)
  {
    var entries := SortedEntries(rates);
    var asg := OtherAssignment(other, entries);
    SortKeepsItems(Entries(rates), HeavierFirst);
    SameMembers(entries, Entries(rates));
    assert rates[..|rates|] == rates && other[..|other|] == other && entries[..|entries|] == entries;
    forall i | 0 <= i < |asg| ensures asg[i] in workers {
      assert entries[i] in Entries(rates);
      EntryMembers(rates, entries[i]);
      var k :| 0 <= k < |rates| && entries[i].id == rates[k].id;
      CpuOfRelay(other, k, entries[i]);
    }
    forall c | c in workers ensures LoadOf(Loads(rates), asg, |entries|, c) <= bound {
      OtherAsLoads(other, entries, |entries|, c);
      SumByPermutation(entries, Entries(rates), OtherOn(other, c));
      OtherLoads(other, rates, workers, |rates|, c);
    }
  }

  /** The rates in the order in which a mapping lists the relays. */
  function Reordered(rates: seq<Rate>, other: seq<RelayCpu>): (r: seq<Rate>)
    requires forall i :: 0 <= i < |other| ==> HasRate(rates, other[i].relay)
    ensures |r| == |other| && forall i :: 0 <= i < |r| ==> r[i] == RateOf(rates, other[i].relay)
  {
    seq(|other|, i requires 0 <= i < |other| => RateOf(rates, other[i].relay))
  }

  lemma {:induction false} ReorderedRates(rates: seq<Rate>, other: seq<RelayCpu>, workers: seq<int>) returns (rates': seq<Rate>)
    requires ValidRates(rates) && Covers(other, rates, workers)
    ensures ValidRates(rates') && Permutation(rates, rates') && CoversInOrder(other, rates', workers)
  {
    forall i | 0 <= i < |other| ensures HasRate(rates, other[i].relay) && other[i].virtio2vf in workers && other[i].vf2virtio in workers {
      assert other[i] in other;
    }
    rates' := Reordered(rates, other);
    forall i | 0 <= i < |rates'| ensures rates'[i] in rates && rates'[i].id == other[i].relay {
      assert rates'[i] == RateOf(rates, other[i].relay);
    }
    forall x ensures x in rates <==> x in rates' {
      if x in rates {
        var i :| 0 <= i < |rates| && rates[i] == x;
        assert MapsRelay(other, x.id);
        var k :| 0 <= k < |other| && other[k].relay == x.id;
        assert rates'[k] == x;
      }
    }
    DistinctWithSameMembers(rates, rates');
  }

  /** If any mapping of the relays keeps every worker within `bound`, the scheduler's mapping keeps
      every worker within (4/3 - 1/(3m)) of it. */
  lemma {:induction false} WithinFourThirds(rates: seq<Rate>, workers: seq<int>, other: seq<RelayCpu>, bound: real, c: int)
    requires ValidRates(rates) && ValidWorkers(workers) && c in workers
    requires Covers(other, rates, workers)
    requires forall w :: w in workers ==> MappedLoad(other, rates, w) <= bound
    ensures WithinLongestFirstRatio(MappedLoad(Mappings(rates, workers), rates, c), bound, |workers|)
  {
    var rates' := ReorderedRates(rates, other, workers);
    forall w | w in workers ensures MappedLoad(other, rates', w) <= bound {
      SameShares(other, rates, rates', w);
    }
    SameSortedLoads(rates, rates');
    OtherFits(other, rates', workers, bound);
    LoadsAreValid(rates);
    AssignIsGreedy(Loads(rates), workers);
    FourThirdsMinusOneOver3M(Loads(rates), Assignment(rates, workers), workers,
                             OtherAssignment(other, SortedEntries(rates')), bound, c);
    MappingsRebuildLoads(rates, workers, c);
  }

  // ---------------------------------------------------------------- no oscillation

  lemma {:induction false} VariationPermutation(v: seq<real>, v': seq<real>, root: real -> real)
    requires Permutation(v, v') && |v| > 0
    ensures |v'| > 0 && Variation(v, root) == Variation(v', root)
  {
    SameLength(v, v');
    SumByPermutation(v, v', Identity);
    SumByPermutation(v, v', SquaredDeviation(SumBy(v, Identity) / |v| as real));
  }

  lemma {:induction false} ConcatenatedEntries(rates: seq<Rate>, rates': seq<Rate>)
    ensures Entries(rates + rates') == Entries(rates) + Entries(rates')
  {
    if |rates'| == 0 {
      assert rates + rates' == rates;
    } else {
      var n := |rates'| - 1;
      assert (rates + rates')[..|rates| + n] == rates + rates'[..n];
      ConcatenatedEntries(rates, rates'[..n]);
    }
  }

  lemma {:induction false} EntriesPermutation(rates: seq<Rate>, rates': seq<Rate>)
    requires Permutation(rates, rates')
    ensures Permutation(Entries(rates), Entries(rates'))
  {
    SameLength(rates, rates');
    if |rates| > 0 {
      var k := FindHead(rates, rates');
      var x := [rates[0]];
      EntriesPermutation(rates[1..], Without(rates', k));
      assert rates == x + rates[1..];
      ConcatenatedEntries(x, rates[1..]);
      EntriesWithout(rates', k);
      assert [rates'[k]] == x;
    }
  }

  lemma {:induction false} EntriesWithout(rates: seq<Rate>, k: nat)
    requires k < |rates|
    ensures multiset(Entries(rates)) == multiset(Entries([rates[k]])) + multiset(Entries(Without(rates, k)))
  {
    var a, x, b := rates[..k], [rates[k]], rates[k + 1..];
    assert rates == a + (x + b);
    ConcatenatedEntries(a, x + b);
    ConcatenatedEntries(x, b);
    ConcatenatedEntries(a, b);
  }

  /** The sorted loads do not depend on the order in which the relays are listed. */
  lemma {:induction false} SameSortedLoads(rates: seq<Rate>, rates': seq<Rate>)
    requires ValidRates(rates) && ValidRates(rates') && Permutation(rates, rates')
    ensures Loads(rates) == Loads(rates')
  {
    LoadsAreValid(rates);
    LoadsAreValid(rates');
    EntriesPermutation(rates, rates');
    SortKeepsItems(Entries(rates), HeavierFirst);
    SortKeepsItems(Entries(rates'), HeavierFirst);
    MapPermutation(SortedEntries(rates), SortedEntries(rates'), EntryLoad);
    FallingIsUnique(Loads(rates), Loads(rates'));
  }

  lemma {:induction false} SameRate(rates: seq<Rate>, rates': seq<Rate>, id: int)
    requires ValidRates(rates) && Permutation(rates, rates')
    ensures HasRate(rates, id) <==> HasRate(rates', id)
    ensures HasRate(rates, id) ==> RateOf(rates, id) == RateOf(rates', id)
  {
    SameMembers(rates, rates');
    if HasRate(rates, id) {
      var r := RateOf(rates, id);
      var k :| 0 <= k < |rates'| && rates'[k] == r;
    }
    if HasRate(rates', id) {
      var r' := RateOf(rates', id);
      var k :| 0 <= k < |rates| && rates[k] == r';
    }
  }

  lemma {:induction false} SameShares(maps: seq<RelayCpu>, rates: seq<Rate>, rates': seq<Rate>, c: int)
    requires ValidRates(rates) && Permutation(rates, rates')
    ensures MappedLoad(maps, rates, c) == MappedLoad(maps, rates', c)
  {
    if |maps| > 0 {
      SameRate(rates, rates', maps[0].relay);
      SameShares(maps[1..], rates, rates', c);
    }
  }

  function LoadAt(loads: seq<real>, asg: seq<int>): int -> real
    requires |loads| == |asg|
  {
    c => LoadOf(loads, asg, |loads|, c)
  }

  /** Read back against any listing of the relays, mappings and workers, the mappings that
      `round_robin` returned give the multiset of loads that any later run arrives at. */
  lemma {:induction false} ReadBackLoads(rates: seq<Rate>, workers: seq<int>, rates': seq<Rate>, workers': seq<int>, current: seq<RelayCpu>)
    requires ValidRates(rates) && ValidWorkers(workers) && ValidRates(rates') && ValidWorkers(workers')
    requires Permutation(rates, rates') && Permutation(workers, workers')
    requires Permutation(current, Mappings(rates, workers))
    ensures Permutation(MappedVector(current, rates', workers'),
                        LoadVector(Loads(rates'), Assignment(rates', workers'), |Loads(rates')|, workers'))
  {
    var loads, asg := Loads(rates), Assignment(rates, workers);
    SameLength(workers, workers');
    SameSortedLoads(rates, rates');
    AssignIsGreedy(loads, workers);
    AssignIsGreedy(loads, workers');
    FinalLoadsAreUnique(loads, |loads|, asg, workers, Assignment(rates', workers'), workers');
    MapPermutation(workers, workers', LoadAt(loads, asg));
    assert Map(workers, LoadAt(loads, asg)) == LoadVector(loads, asg, |loads|, workers);
    forall i | 0 <= i < |workers'|
      ensures MappedVector(current, rates', workers')[i] == LoadOf(loads, asg, |loads|, workers'[i])
    {
      SumByPermutation(current, Mappings(rates, workers), ShareOn(rates', workers'[i]));
      SameShares(Mappings(rates, workers), rates, rates', workers'[i]);
      MappingsRebuildLoads(rates, workers, workers'[i]);
    }
    assert Map(workers', LoadAt(loads, asg)) == MappedVector(current, rates', workers');
  }

  lemma {:induction false} StillKnown(rates: seq<Rate>, workers: seq<int>, rates': seq<Rate>, workers': seq<int>, current: seq<RelayCpu>)
    requires ValidRates(rates) && ValidWorkers(workers)
    requires Permutation(rates, rates') && Permutation(workers, workers')
    requires Permutation(current, Mappings(rates, workers))
    ensures Known(current, rates', workers')
  {
    MappingsCoverRelays(rates, workers);
    SameMembers(workers, workers');
    SameMembers(current, Mappings(rates, workers));
    forall r | r in current ensures HasRate(rates', r.relay) {
      SameRate(rates, rates', r.relay);
    }
  }

  /** No oscillation. Once the mappings of one round are in force and the rates stay the same, the
      next round does not migrate, in whatever order relays, workers and mappings are listed then. */
  lemma {:induction false} NoOscillation(rates: seq<Rate>, workers: seq<int>, rates': seq<Rate>, workers': seq<int>,
                      current: seq<RelayCpu>, root: real -> real, sensitivity: real)
    requires ValidRates(rates) && ValidWorkers(workers) && ValidRates(rates') && ValidWorkers(workers')
    requires Permutation(rates, rates') && Permutation(workers, workers')
    requires Permutation(current, Mappings(rates, workers))
    requires sensitivity >= 0.0
    ensures PreviousBalance(Some(current), rates', workers', root) == Balance(rates', workers', root)
    ensures !Migrates(Balance(rates', workers', root),
                      PreviousBalance(Some(current), rates', workers', root), sensitivity)
  {
    StillKnown(rates, workers, rates', workers', current);
    ReadBackLoads(rates, workers, rates', workers', current);
    VariationPermutation(MappedVector(current, rates', workers'),
                         LoadVector(Loads(rates'), Assignment(rates', workers'), |Loads(rates')|, workers'), root);
  }
}
