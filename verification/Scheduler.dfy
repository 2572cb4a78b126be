/** The dynamic load balancer: `round_robin`, `get_variation_coefficient` and the migrate decision.

    Loads are non-negative reals; the square root is a parameter `root`, since nothing depends on
    which function it is. A dict is a sequence of its items in insertion order. */
module Scheduler {
  import opened Common
  import opened Permutations
  import opened Greedy

  datatype Direction = VM2VF | VF2VM
  /** Estimated loads of one relay. */
  datatype Rate = Rate(id: int, vm2vf: real, vf2vm: real)
  datatype Entry = Entry(id: int, load: real, dir: Direction)
  datatype Placed = Placed(entry: Entry, core: int)
  datatype RelayCpu = RelayCpu(relay: int, virtio2vf: int, vf2virtio: int)

  const NO_LOAD := -1.0
  const EXTREME := 10000000000.0

  ghost predicate ValidRates(rates: seq<Rate>) {
    && (forall i, j :: 0 <= i < j < |rates| ==> rates[i].id != rates[j].id)
    && (forall i :: 0 <= i < |rates| ==> rates[i].vm2vf >= 0.0 && rates[i].vf2vm >= 0.0)
  }

  ghost predicate ValidWorkers(workers: seq<int>) {
    |workers| > 0 && Distinct(workers)
  }

  // ---------------------------------------------------------------- specification

  function LoadIn(r: Rate, dir: Direction): real {
    if dir == VM2VF then r.vm2vf else r.vf2vm
  }

  function EntriesOf(r: Rate): seq<Entry> {
    [Entry(r.id, r.vm2vf, VM2VF), Entry(r.id, r.vf2vm, VF2VM)]
  }

  function Entries(rates: seq<Rate>): seq<Entry> {
    if |rates| == 0 then [] else Entries(rates[..|rates| - 1]) + EntriesOf(rates[|rates| - 1])
  }

  const HeavierFirst := (a: Entry, b: Entry) => a.load >= b.load
  const LowerIdFirst := (a: Placed, b: Placed) => a.entry.id <= b.entry.id
  const EntryLoad := (e: Entry) => e.load

  function SortedEntries(rates: seq<Rate>): seq<Entry> {
    StableSort(Entries(rates), HeavierFirst)
  }

  function Loads(rates: seq<Rate>): seq<real> {
    Map(SortedEntries(rates), EntryLoad)
  }

  /** First worker in the list with the smallest load. */
  function FirstLeast(loads: seq<real>, asg: seq<int>, n: nat, workers: seq<int>): (w: int)
    requires n <= |loads| && n <= |asg| && |workers| > 0
    ensures w in workers && forall c :: c in workers ==> LoadOf(loads, asg, n, w) <= LoadOf(loads, asg, n, c)
  {
    if |workers| == 1 then workers[0]
    else
      var w := FirstLeast(loads, asg, n, workers[..|workers| - 1]);
      var last := workers[|workers| - 1];
      if LoadOf(loads, asg, n, last) < LoadOf(loads, asg, n, w) then last else w
  }

  /** Worker of each of the first `n` loads. */
  function Assign(loads: seq<real>, workers: seq<int>, n: nat): (asg: seq<int>)
    requires n <= |loads| && |workers| > 0
    ensures |asg| == n
  {
    if n == 0 then []
    else
      var before := Assign(loads, workers, n - 1);
      before + [FirstLeast(loads, before, n - 1, workers)]
  }

  function PlacedEntries(entries: seq<Entry>, asg: seq<int>): (p: seq<Placed>)
    requires |entries| == |asg|
    ensures |p| == |asg| && forall i :: 0 <= i < |p| ==> p[i] == Placed(entries[i], asg[i])
  {
    seq(|asg|, i requires 0 <= i < |asg| => Placed(entries[i], asg[i]))
  }

  function Pair(a: Placed, b: Placed): RelayCpu {
    var vm2vf := if a.entry.dir == VM2VF then a else b;
    var vf2vm := if b.entry.dir == VF2VM then b else a;
    RelayCpu(vm2vf.entry.id, vm2vf.core, vf2vm.core)
  }

  function PairUp(s: seq<Placed>): seq<RelayCpu> {
    if |s| < 2 then [] else [Pair(s[0], s[1])] + PairUp(s[2..])
  }

  function Assignment(rates: seq<Rate>, workers: seq<int>): (asg: seq<int>)
    requires |workers| > 0
    ensures |asg| == |Loads(rates)|
  {
    Assign(Loads(rates), workers, |Loads(rates)|)
  }

  function ById(rates: seq<Rate>, workers: seq<int>): seq<Placed>
    requires |workers| > 0
  {
    StableSort(PlacedEntries(SortedEntries(rates), Assignment(rates, workers)), LowerIdFirst)
  }

  /** The relay mappings that `round_robin` returns. */
  function Mappings(rates: seq<Rate>, workers: seq<int>): seq<RelayCpu>
    requires |workers| > 0
  {
    PairUp(ById(rates, workers))
  }

  const Identity := (x: real) => x

  function SquaredDeviation(mu: real): real -> real {
    x => (x - mu) * (x - mu)
  }

  /** Coefficient of variation of the worker loads; -1 when nothing is running. */
  function Variation(v: seq<real>, root: real -> real): real
    requires |v| > 0
  {
    var mu := SumBy(v, Identity) / |v| as real;
    if mu == 0.0 then NO_LOAD
    else root(SumBy(v, SquaredDeviation(mu)) / |v| as real) / mu
  }

  /** The balance value that `round_robin` returns. */
  function Balance(rates: seq<Rate>, workers: seq<int>, root: real -> real): real
    requires |workers| > 0
  {
    Variation(LoadVector(Loads(rates), Assignment(rates, workers), |Loads(rates)|, workers), root)
  }

  predicate HasRate(rates: seq<Rate>, id: int) {
    exists i :: 0 <= i < |rates| && rates[i].id == id
  }

  function RateOf(rates: seq<Rate>, id: int): (r: Rate)
    requires HasRate(rates, id)
    ensures r in rates && r.id == id
  {
    if rates[0].id == id then rates[0]
    else
      assert HasRate(rates[1..], id) by {
        var i :| 0 <= i < |rates| && rates[i].id == id;
        assert rates[1..][i - 1].id == id;
      }
      RateOf(rates[1..], id)
  }

  /** No KeyError: every relay has a rate and every CPU is a worker. */
  predicate Known(maps: seq<RelayCpu>, rates: seq<Rate>, workers: seq<int>) {
    forall r :: r in maps ==> HasRate(rates, r.relay) && r.virtio2vf in workers && r.vf2virtio in workers
  }

  /** Load that one mapping puts on worker `c`. */
  function Share(r: RelayCpu, rates: seq<Rate>, c: int): real {
    if !HasRate(rates, r.relay) then 0.0
    else
      (if r.virtio2vf == c then RateOf(rates, r.relay).vm2vf else 0.0)
      + (if r.vf2virtio == c then RateOf(rates, r.relay).vf2vm else 0.0)
  }

  function ShareOn(rates: seq<Rate>, c: int): RelayCpu -> real {
    r => Share(r, rates, c)
  }

  /** Load that a list of mappings puts on worker `c`. */
  function MappedLoad(maps: seq<RelayCpu>, rates: seq<Rate>, c: int): real {
    SumBy(maps, ShareOn(rates, c))
  }

  function MappedVector(maps: seq<RelayCpu>, rates: seq<Rate>, workers: seq<int>): (v: seq<real>)
    ensures |v| == |workers| && forall i :: 0 <= i < |v| ==> v[i] == MappedLoad(maps, rates, workers[i])
  {
    seq(|workers|, i requires 0 <= i < |workers| => MappedLoad(maps, rates, workers[i]))
  }

  /** The value that `get_variation_coefficient` returns. */
  function PreviousBalance(maps: Option<seq<RelayCpu>>, rates: seq<Rate>, workers: seq<int>, root: real -> real): real
    requires |workers| > 0
  {
    if maps.None? || !Known(maps.value, rates, workers) then EXTREME
    else Variation(MappedVector(maps.value, rates, workers), root)
  }

  /** The migrate decision of the main loop. */
  predicate Migrates(cv: real, previous: real, sensitivity: real) {
    cv != NO_LOAD && cv + sensitivity < previous
  }

  // ---------------------------------------------------------------- the sorted entries

  lemma {:induction false} OrdersAreTotal()
    ensures TotalOrder(HeavierFirst) && TotalOrder(LowerIdFirst)
  {
  }

  lemma {:induction false} EntryMembers(rates: seq<Rate>, e: Entry)
    ensures e in Entries(rates) <==> exists i :: 0 <= i < |rates| && e.id == rates[i].id && e.load == LoadIn(rates[i], e.dir)
  {
    if |rates| > 0 {
      var init := rates[..|rates| - 1];
      EntryMembers(init, e);
      assert forall i :: 0 <= i < |init| ==> init[i] == rates[i];
      assert e in EntriesOf(rates[|rates| - 1]) <==>
        e.id == rates[|rates| - 1].id && e.load == LoadIn(rates[|rates| - 1], e.dir);
    }
  }

  lemma {:induction false} EntriesAreDistinct(rates: seq<Rate>)
    requires ValidRates(rates)
    ensures forall i, j :: 0 <= i < j < |Entries(rates)| ==> Entries(rates)[i] != Entries(rates)[j]
  {
    if |rates| > 0 {
      var init := rates[..|rates| - 1];
      EntriesAreDistinct(init);
      var a, b := Entries(init), EntriesOf(rates[|rates| - 1]);
      forall i | 0 <= i < |a| ensures a[i] !in b {
        EntryMembers(init, a[i]);
      }
      forall i, j | 0 <= i < j < |a + b| ensures (a + b)[i] != (a + b)[j] {
        assert i >= |a| || a[i] !in b;
        assert b[0] != b[1];
      }
    }
  }

  lemma {:induction false} LoadsAreValid(rates: seq<Rate>)
    requires ValidRates(rates)
    ensures NonNegative(Loads(rates)) && Falling(Loads(rates))
  {
    OrdersAreTotal();
    var s := SortedEntries(rates);
    SortSorts(Entries(rates), HeavierFirst);
    SortKeepsItems(Entries(rates), HeavierFirst);
    SameMembers(s, Entries(rates));
    forall i | 0 <= i < |s| ensures s[i].load >= 0.0 {
      assert s[i] in Entries(rates);
      EntryMembers(rates, s[i]);
    }
    forall i, j | 0 <= i < j < |s| ensures s[i].load >= s[j].load {
      assert HeavierFirst(s[i], s[j]);
    }
  }

  // ---------------------------------------------------------------- the assignment is greedy

  /** Of several workers of least load the first one listed is taken. */
  lemma {:induction false} FirstLeastIsFirst(loads: seq<real>, asg: seq<int>, n: nat, workers: seq<int>) returns (k: nat)
    requires n <= |loads| && n <= |asg| && |workers| > 0
    ensures k < |workers| && FirstLeast(loads, asg, n, workers) == workers[k]
    ensures forall j :: 0 <= j < k ==> LoadOf(loads, asg, n, workers[k]) < LoadOf(loads, asg, n, workers[j])
  {
    if |workers| == 1 {
      k := 0;
    } else {
      var init := workers[..|workers| - 1];
      k := FirstLeastIsFirst(loads, asg, n, init);
      if LoadOf(loads, asg, n, workers[|workers| - 1]) < LoadOf(loads, asg, n, workers[k]) {
        forall j | 0 <= j < |workers| - 1 ensures LoadOf(loads, asg, n, workers[k]) <= LoadOf(loads, asg, n, workers[j]) {
          assert init[j] in init;
        }
        k := |workers| - 1;
      }
    }
  }

  lemma {:induction false} LoadDependsOnPrefix(loads: seq<real>, a: seq<int>, b: seq<int>, n: nat, c: int)
    requires n <= |loads| && n <= |a| && n <= |b| && a[..n] == b[..n]
    ensures LoadOf(loads, a, n, c) == LoadOf(loads, b, n, c)
  {
    if n > 0 {
      assert a[n - 1] == a[..n][n - 1] == b[..n][n - 1] == b[n - 1];
      assert a[..n - 1] == a[..n][..n - 1] == b[..n][..n - 1] == b[..n - 1];
      LoadDependsOnPrefix(loads, a, b, n - 1, c);
    }
  }

  lemma {:induction false} AssignPrefix(loads: seq<real>, workers: seq<int>, k: nat, n: nat)
    requires k <= n <= |loads| && |workers| > 0
    ensures Assign(loads, workers, n)[..k] == Assign(loads, workers, k)
  {
    if k < n {
      AssignPrefix(loads, workers, k, n - 1);
      assert Assign(loads, workers, n)[..k] == Assign(loads, workers, n - 1)[..k];
    }
  }

  lemma {:induction false} AssignIsGreedyAt(loads: seq<real>, workers: seq<int>, i: nat)
    requires |workers| > 0 && i < |loads|
    ensures GreedyAt(loads, Assign(loads, workers, |loads|), i, workers)
  {
    var asg := Assign(loads, workers, |loads|);
    var before := Assign(loads, workers, i);
    AssignPrefix(loads, workers, i, |loads|);
    AssignPrefix(loads, workers, i + 1, |loads|);
    var w := FirstLeast(loads, before, i, workers);
    assert asg[i] == asg[..i + 1][i] == w;
    assert before[..i] == before;
    LoadDependsOnPrefix(loads, before, asg, i, w);
    forall c | c in workers ensures LoadOf(loads, asg, i, w) <= LoadOf(loads, asg, i, c) {
      LoadDependsOnPrefix(loads, before, asg, i, c);
    }
  }

  lemma {:induction false} AssignIsGreedy(loads: seq<real>, workers: seq<int>)
    requires |workers| > 0
    ensures IsGreedy(loads, Assign(loads, workers, |loads|), workers)
  {
    forall i | 0 <= i < |loads| ensures GreedyAt(loads, Assign(loads, workers, |loads|), i, workers) {
      AssignIsGreedyAt(loads, workers, i);
    }
  }

  // ---------------------------------------------------------------- pairing up

  /** No two items for one direction of one relay, and every item has its counterpart. */
  ghost predicate Paired(s: seq<Placed>) {
    && (forall i, j :: 0 <= i < j < |s| ==> s[i].entry.id != s[j].entry.id || s[i].entry.dir != s[j].entry.dir)
    && (forall p {:trigger HasCounterpart(s, p)} :: p in s ==> HasCounterpart(s, p))
  }

  ghost predicate HasCounterpart(s: seq<Placed>, p: Placed) {
    exists q :: q in s && q.entry.id == p.entry.id && q.entry.dir != p.entry.dir
  }

  lemma {:induction false} FirstTwoMatch(s: seq<Placed>)
    requires Paired(s) && Sorted(s, LowerIdFirst) && |s| > 0
    ensures |s| >= 2 && s[0].entry.id == s[1].entry.id && s[0].entry.dir != s[1].entry.dir
  {
    assert HasCounterpart(s, s[0]);
    var k :| 0 <= k < |s| && s[k].entry.id == s[0].entry.id && s[k].entry.dir != s[0].entry.dir;
    if k > 1 {
      assert LowerIdFirst(s[0], s[1]) && LowerIdFirst(s[1], s[k]);
    }
  }

  lemma {:induction false} RestIsHigher(s: seq<Placed>, i: nat)
    requires Paired(s) && Sorted(s, LowerIdFirst) && 2 <= i < |s|
    ensures s[i].entry.id > s[0].entry.id
  {
    FirstTwoMatch(s);
    assert LowerIdFirst(s[0], s[i]);
  }

  lemma {:induction false} CounterpartInRest(s: seq<Placed>, i: nat)
    requires Paired(s) && Sorted(s, LowerIdFirst) && 2 <= i < |s|
    ensures HasCounterpart(s[2..], s[i])
  {
    FirstTwoMatch(s);
    RestIsHigher(s, i);
    assert HasCounterpart(s, s[i]);
    var q :| q in s && q.entry.id == s[i].entry.id && q.entry.dir != s[i].entry.dir;
    assert s == s[..2] + s[2..];
    assert q in s[2..];
  }

  lemma {:induction false} RestIsPaired(s: seq<Placed>)
    requires Paired(s) && Sorted(s, LowerIdFirst) && |s| >= 2
    ensures Paired(s[2..]) && Sorted(s[2..], LowerIdFirst)
  {
    var rest := s[2..];
    forall p | p in rest ensures HasCounterpart(rest, p) {
      var i :| 0 <= i < |rest| && rest[i] == p;
      CounterpartInRest(s, i + 2);
    }
  }

  lemma {:induction false} ByIdIsPaired(rates: seq<Rate>, workers: seq<int>)
    requires ValidRates(rates) && ValidWorkers(workers)
    ensures Paired(ById(rates, workers)) && Sorted(ById(rates, workers), LowerIdFirst)
    ensures forall p :: p in ById(rates, workers) ==> p.entry in Entries(rates) && p.core in workers
    ensures forall e :: e in Entries(rates) ==> exists p :: p in ById(rates, workers) && p.entry == e
  {
    OrdersAreTotal();
    var entries := SortedEntries(rates);
    var asg := Assignment(rates, workers);
    var placed := PlacedEntries(entries, asg);
    var s := ById(rates, workers);
    SortKeepsItems(Entries(rates), HeavierFirst);
    SortKeepsItems(placed, LowerIdFirst);
    SortSorts(placed, LowerIdFirst);
    SameMembers(entries, Entries(rates));
    SameMembers(s, placed);
    AssignIsGreedy(Loads(rates), workers);
    forall p | p in s ensures p.entry in Entries(rates) && p.core in workers {
      var i :| 0 <= i < |placed| && placed[i] == p;
      assert entries[i] in entries;
      assert GreedyAt(Loads(rates), asg, i, workers);
    }
    forall e | e in Entries(rates) ensures exists p :: p in s && p.entry == e {
      var i :| 0 <= i < |entries| && entries[i] == e;
      assert placed[i] in s;
    }
    PermutedIsPaired(rates, entries, placed, s);
  }

  lemma {:induction false} CountsTwice<T>(t: seq<T>, x: T) returns (k: nat, l: nat)
    requires multiset(t)[x] >= 2
    ensures k < |t| && l < |t| && k != l && t[k] == t[l] == x
  {
    assert x in multiset(t);
    k :| 0 <= k < |t| && t[k] == x;
    WithoutContents(t, k);
    assert x in multiset(Without(t, k));
    l :| 0 <= l < |Without(t, k)| && Without(t, k)[l] == x;
    l := if l < k then l else l + 1;
  }

  lemma {:induction false} NoRepeats<T>(s: seq<T>, t: seq<T>, i: nat, j: nat)
    requires Permutation(s, t) && i < j < |s|
    requires forall k, l :: 0 <= k < l < |t| ==> t[k] != t[l]
    ensures s[i] != s[j]
  {
    if s[i] == s[j] {
      WithoutContents(s, j);
      assert Without(s, j)[i] == s[i];
      var k, l := CountsTwice(t, s[i]);
    }
  }

  lemma {:induction false} PermutedIsPaired(rates: seq<Rate>, entries: seq<Entry>, placed: seq<Placed>, s: seq<Placed>)
    requires ValidRates(rates) && Permutation(entries, Entries(rates)) && Permutation(s, placed)
    requires |placed| == |entries| && forall i :: 0 <= i < |placed| ==> placed[i].entry == entries[i]
    ensures Paired(s)
  {
    SameMembers(entries, Entries(rates));
    SameMembers(s, placed);
    EntriesAreDistinct(rates);
    forall i, j | 0 <= i < j < |entries| ensures entries[i] != entries[j] {
      NoRepeats(entries, Entries(rates), i, j);
    }
    assert forall i, j :: 0 <= i < j < |placed| ==> placed[i] != placed[j];
    forall p, q | p in s && q in s && p.entry.id == q.entry.id && p.entry.dir == q.entry.dir
      ensures p == q
    {
      SameKeySameItem(rates, entries, placed, p, q);
    }
    forall i, j | 0 <= i < j < |s|
      ensures s[i].entry.id != s[j].entry.id || s[i].entry.dir != s[j].entry.dir
    {
      assert s[i] in s && s[j] in s;
      NoRepeats(s, placed, i, j);
    }
    forall p | p in s ensures HasCounterpart(s, p) {
      CounterpartExists(rates, entries, placed, s, p);
    }
  }

  lemma {:induction false} SameKeySameItem(rates: seq<Rate>, entries: seq<Entry>, placed: seq<Placed>, p: Placed, q: Placed)
    requires ValidRates(rates) && p in placed && q in placed
    requires forall e :: e in entries <==> e in Entries(rates)
    requires |placed| == |entries| && forall i :: 0 <= i < |placed| ==> placed[i].entry == entries[i]
    requires forall i, j :: 0 <= i < j < |entries| ==> entries[i] != entries[j]
    requires p.entry.id == q.entry.id && p.entry.dir == q.entry.dir
    ensures p == q
  {
    var i :| 0 <= i < |placed| && placed[i] == p;
    var j :| 0 <= j < |placed| && placed[j] == q;
    assert entries[i] in entries && entries[j] in entries;
    EntryMembers(rates, p.entry);
    EntryMembers(rates, q.entry);
    assert entries[i] == entries[j];
  }

  lemma {:induction false} CounterpartExists(rates: seq<Rate>, entries: seq<Entry>, placed: seq<Placed>, s: seq<Placed>, p: Placed)
    requires p in placed && forall x :: x in s <==> x in placed
    requires forall e :: e in entries <==> e in Entries(rates)
    requires |placed| == |entries| && forall i :: 0 <= i < |placed| ==> placed[i].entry == entries[i]
    ensures HasCounterpart(s, p)
  {
    var k :| 0 <= k < |placed| && placed[k] == p;
    assert entries[k] in entries;
    EntryMembers(rates, p.entry);
    var i :| 0 <= i < |rates| && p.entry.id == rates[i].id && p.entry.load == LoadIn(rates[i], p.entry.dir);
    var other := if p.entry.dir == VM2VF then VF2VM else VM2VF;
    var e := Entry(p.entry.id, LoadIn(rates[i], other), other);
    EntryMembers(rates, e);
    var j :| 0 <= j < |entries| && entries[j] == e;
    assert placed[j] in s;
  }
}
