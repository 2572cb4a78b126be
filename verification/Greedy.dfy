/** Greedy placement of loads on workers and how far it can be from the best placement.

    The core scheduler walks over the relay directions in order and gives each one to the worker
    that has the smallest load so far. Everything here is stated for any such placement, whatever
    rule breaks ties. */
module Greedy {
  import opened Permutations

  /** Load that the first `n` items put on worker `c`. */
  function LoadOf(loads: seq<real>, asg: seq<int>, n: nat, c: int): real
    requires n <= |loads| && n <= |asg|
  {
    if n == 0 then 0.0
    else LoadOf(loads, asg, n - 1, c) + (if asg[n - 1] == c then loads[n - 1] else 0.0)
  }

  function Total(loads: seq<real>, n: nat): real
    requires n <= |loads|
  {
    if n == 0 then 0.0 else Total(loads, n - 1) + loads[n - 1]
  }

  /** Sum of the loads of all listed workers. */
  function SumLoads(loads: seq<real>, asg: seq<int>, n: nat, workers: seq<int>): real
    requires n <= |loads| && n <= |asg|
  {
    if |workers| == 0 then 0.0
    else LoadOf(loads, asg, n, workers[0]) + SumLoads(loads, asg, n, workers[1..])
  }

  ghost predicate Distinct(s: seq<int>) {
    forall i, j :: 0 <= i < j < |s| ==> s[i] != s[j]
  }

  ghost predicate NonNegative(loads: seq<real>) {
    forall i :: 0 <= i < |loads| ==> loads[i] >= 0.0
  }

  /** `asg` sends each of the first `n` items to a listed worker. */
  ghost predicate Placement(asg: seq<int>, n: nat, workers: seq<int>) {
    n <= |asg| && forall i :: 0 <= i < n ==> asg[i] in workers
  }

  /** Item `n` goes to a listed worker that carried no more than any other. */
  ghost predicate GreedyAt(loads: seq<real>, asg: seq<int>, n: nat, workers: seq<int>)
    requires n < |loads| && n < |asg|
  {
    && asg[n] in workers
    && forall c :: c in workers ==> LoadOf(loads, asg, n, asg[n]) <= LoadOf(loads, asg, n, c)
  }

  /** Each item goes to a worker whose load was minimal just before. */
  ghost predicate IsGreedy(loads: seq<real>, asg: seq<int>, workers: seq<int>) {
    && |loads| == |asg|
    && forall i :: 0 <= i < |asg| ==> GreedyAt(loads, asg, i, workers)
  }

  /** No listed worker carries more than `bound`. */
  ghost predicate Fits(loads: seq<real>, asg: seq<int>, n: nat, workers: seq<int>, bound: real) {
    && n <= |loads| && n <= |asg|
    && Placement(asg, n, workers)
    && forall c :: c in workers ==> LoadOf(loads, asg, n, c) <= bound
  }

  // ---------------------------------------------------------------- sums

  /** `x` added up `m` times. */
  function Times(m: nat, x: real): real {
    if m == 0 then 0.0 else Times(m - 1, x) + x
  }

  lemma {:induction false} TimesIsProduct(m: nat, x: real)
    ensures Times(m, x) == m as real * x
  {
    if m > 0 {
      TimesIsProduct(m - 1, x);
      assert m as real * x == (m - 1) as real * x + x;
    }
  }

  lemma {:induction false} TimesAdds(m: nat, x: real, y: real)
    ensures Times(m, x + y) == Times(m, x) + Times(m, y)
  {
    if m > 0 {
      TimesAdds(m - 1, x, y);
    }
  }

  lemma {:induction false} TimesGrows(m: nat, x: real, y: real)
    requires x <= y
    ensures Times(m, x) <= Times(m, y)
  {
    if m > 0 {
      TimesGrows(m - 1, x, y);
    }
  }

  lemma {:induction false} LoadGrows(loads: seq<real>, asg: seq<int>, k: nat, n: nat, c: int)
    requires k <= n <= |loads| && n <= |asg| && NonNegative(loads)
    ensures 0.0 <= LoadOf(loads, asg, k, c) <= LoadOf(loads, asg, n, c)
    decreases n
  {
    if k < n {
      LoadGrows(loads, asg, k, n - 1, c);
    } else if 0 < k {
      LoadGrows(loads, asg, k - 1, k - 1, c);
    }
  }

  lemma {:induction false} AddingOneItem(loads: seq<real>, asg: seq<int>, n: nat, workers: seq<int>)
    requires n < |loads| && n < |asg| && Distinct(workers)
    ensures SumLoads(loads, asg, n + 1, workers)
            == SumLoads(loads, asg, n, workers) + (if asg[n] in workers then loads[n] else 0.0)
  {
    if |workers| > 0 {
      assert workers == [workers[0]] + workers[1..];
      AddingOneItem(loads, asg, n, workers[1..]);
    }
  }

  /** Placing items neither creates nor loses load. */
  lemma {:induction false} LoadIsConserved(loads: seq<real>, asg: seq<int>, n: nat, workers: seq<int>)
    requires n <= |loads| && Placement(asg, n, workers) && Distinct(workers)
    ensures SumLoads(loads, asg, n, workers) == Total(loads, n)
  {
    if n == 0 {
      SumOfNothing(loads, asg, workers);
    } else {
      LoadIsConserved(loads, asg, n - 1, workers);
      AddingOneItem(loads, asg, n - 1, workers);
    }
  }

  lemma {:induction false} SumOfNothing(loads: seq<real>, asg: seq<int>, workers: seq<int>)
    ensures SumLoads(loads, asg, 0, workers) == 0.0
  {
    if |workers| > 0 {
      SumOfNothing(loads, asg, workers[1..]);
    }
  }

  lemma {:induction false} SumAtMost(loads: seq<real>, asg: seq<int>, n: nat, workers: seq<int>, bound: real)
    requires n <= |loads| && n <= |asg|
    requires forall c :: c in workers ==> LoadOf(loads, asg, n, c) <= bound
    ensures SumLoads(loads, asg, n, workers) <= Times(|workers|, bound)
  {
    if |workers| > 0 {
      SumAtMost(loads, asg, n, workers[1..], bound);
    }
  }

  lemma {:induction false} SumAtLeast(loads: seq<real>, asg: seq<int>, n: nat, workers: seq<int>, bound: real)
    requires n <= |loads| && n <= |asg|
    requires forall c :: c in workers ==> bound <= LoadOf(loads, asg, n, c)
    ensures Times(|workers|, bound) <= SumLoads(loads, asg, n, workers)
  {
    if |workers| > 0 {
      SumAtLeast(loads, asg, n, workers[1..], bound);
    }
  }

  // ---------------------------------------------------------------- membership of one worker

  lemma {:induction false} NobodyHere(loads: seq<real>, asg: seq<int>, n: nat, c: int)
    requires n <= |loads| && n <= |asg|
    requires forall i :: 0 <= i < n ==> asg[i] != c
    ensures LoadOf(loads, asg, n, c) == 0.0
  {
    if n > 0 {
      NobodyHere(loads, asg, n - 1, c);
    }
  }

  lemma {:induction false} OnlyOneHere(loads: seq<real>, asg: seq<int>, n: nat, c: int, a: nat)
    requires n <= |loads| && n <= |asg| && a < n && asg[a] == c
    requires forall i :: 0 <= i < n && asg[i] == c ==> i == a
    ensures LoadOf(loads, asg, n, c) == loads[a]
  {
    if a == n - 1 {
      NobodyHere(loads, asg, n - 1, c);
    } else {
      OnlyOneHere(loads, asg, n - 1, c, a);
    }
  }

  lemma {:induction false} OneOfThem(loads: seq<real>, asg: seq<int>, n: nat, c: int, a: nat)
    requires n <= |loads| && n <= |asg| && NonNegative(loads)
    requires a < n && asg[a] == c
    ensures loads[a] <= LoadOf(loads, asg, n, c)
  {
    if a == n - 1 {
      LoadGrows(loads, asg, 0, n - 1, c);
    } else {
      OneOfThem(loads, asg, n - 1, c, a);
    }
  }

  lemma {:induction false} TwoOfThem(loads: seq<real>, asg: seq<int>, n: nat, c: int, a: nat, b: nat)
    requires n <= |loads| && n <= |asg| && NonNegative(loads)
    requires a < b < n && asg[a] == c && asg[b] == c
    ensures loads[a] + loads[b] <= LoadOf(loads, asg, n, c)
  {
    if b == n - 1 {
      OneOfThem(loads, asg, n - 1, c, a);
    } else {
      TwoOfThem(loads, asg, n - 1, c, a, b);
    }
  }

  // ---------------------------------------------------------------- list-scheduling bound

  lemma {:induction false} PlacedByGreedy(loads: seq<real>, asg: seq<int>, workers: seq<int>, n: nat)
    requires IsGreedy(loads, asg, workers) && n < |asg|
    ensures GreedyAt(loads, asg, n, workers) && Placement(asg, n, workers)
  {
    forall i | 0 <= i < n ensures asg[i] in workers {
      assert GreedyAt(loads, asg, i, workers);
    }
  }

  /** After a greedy choice the chosen worker carries at most total/m + (1 - 1/m) of the item. */
  lemma {:induction false} ChosenWorkerBound(loads: seq<real>, asg: seq<int>, workers: seq<int>, n: nat)
    requires |workers| > 0 && Distinct(workers)
    requires IsGreedy(loads, asg, workers) && n < |asg|
    ensures Times(|workers|, LoadOf(loads, asg, n + 1, asg[n]))
            <= Total(loads, n + 1) + Times(|workers| - 1, loads[n])
  {
    PlacedByGreedy(loads, asg, workers, n);
    var before := LoadOf(loads, asg, n, asg[n]);
    SumAtLeast(loads, asg, n, workers, before);
    LoadIsConserved(loads, asg, n, workers);
    TimesAdds(|workers|, before, loads[n]);
  }

  /** Every worker ends with at most total/m + (1 - 1/m) of the largest single load. */
  lemma {:induction false} ListBound(loads: seq<real>, asg: seq<int>, workers: seq<int>, n: nat, c: int, largest: real)
    requires |workers| > 0 && Distinct(workers) && NonNegative(loads)
    requires IsGreedy(loads, asg, workers) && n <= |asg| && c in workers
    requires largest >= 0.0 && forall i :: 0 <= i < n ==> loads[i] <= largest
    ensures Times(|workers|, LoadOf(loads, asg, n, c))
            <= Total(loads, n) + Times(|workers| - 1, largest)
  {
    if n == 0 {
      TimesGrows(|workers| - 1, 0.0, largest);
      TimesIsProduct(|workers| - 1, 0.0);
      TimesIsProduct(|workers|, 0.0);
    } else if asg[n - 1] != c {
      ListBound(loads, asg, workers, n - 1, c, largest);
    } else {
      ChosenWorkerBound(loads, asg, workers, n - 1);
      TimesGrows(|workers| - 1, loads[n - 1], largest);
    }
  }

  lemma {:induction false} TotalFits(loads: seq<real>, opt: seq<int>, workers: seq<int>, n: nat, bound: real)
    requires Distinct(workers) && Fits(loads, opt, n, workers, bound)
    ensures Total(loads, n) <= Times(|workers|, bound)
  {
    LoadIsConserved(loads, opt, n, workers);
    SumAtMost(loads, opt, n, workers, bound);
  }

  lemma {:induction false} EachItemFits(loads: seq<real>, opt: seq<int>, workers: seq<int>, n: nat, bound: real, i: nat)
    requires NonNegative(loads) && Fits(loads, opt, n, workers, bound) && i < n
    ensures loads[i] <= bound
  {
    OneOfThem(loads, opt, n, opt[i], i);
  }

  lemma {:induction false} PrefixFits(loads: seq<real>, opt: seq<int>, workers: seq<int>, k: nat, n: nat, bound: real)
    requires NonNegative(loads) && Fits(loads, opt, n, workers, bound) && k <= n
    ensures Fits(loads, opt, k, workers, bound)
  {
    forall c | c in workers ensures LoadOf(loads, opt, k, c) <= bound {
      LoadGrows(loads, opt, k, n, c);
    }
  }

  lemma {:induction false} BoundIsNonNegative(loads: seq<real>, opt: seq<int>, workers: seq<int>, n: nat, bound: real)
    requires |workers| > 0 && NonNegative(loads) && Fits(loads, opt, n, workers, bound)
    ensures bound >= 0.0
  {
    LoadGrows(loads, opt, 0, n, workers[0]);
  }

  /** Greedy is within (2 - 1/m) of every placement, in any order of the items. */
  lemma {:induction false} TwoMinusOneOverM(loads: seq<real>, asg: seq<int>, workers: seq<int>, opt: seq<int>, bound: real, c: int)
    requires |workers| > 0 && Distinct(workers) && NonNegative(loads)
    requires IsGreedy(loads, asg, workers) && c in workers
    requires Fits(loads, opt, |loads|, workers, bound)
    ensures |workers| as real * LoadOf(loads, asg, |loads|, c) <= (2.0 * |workers| as real - 1.0) * bound
  {
    BoundIsNonNegative(loads, opt, workers, |loads|, bound);
    forall i | 0 <= i < |loads| ensures loads[i] <= bound {
      EachItemFits(loads, opt, workers, |loads|, bound, i);
    }
    ListBound(loads, asg, workers, |loads|, c, bound);
    TotalFits(loads, opt, workers, |loads|, bound);
    TimesIsProduct(|workers|, LoadOf(loads, asg, |loads|, c));
    TimesIsProduct(|workers|, bound);
    TimesIsProduct(|workers| - 1, bound);
  }

  // ---------------------------------------------------------------- longest-first bound

  /** Item `i` shares its worker with no other item below `j`. */
  ghost predicate Alone(asg: seq<int>, j: nat, i: nat)
    requires j <= |asg| && i < j
  {
    forall k :: 0 <= k < j && asg[k] == asg[i] ==> k == i
  }

  /** Two units for an item that is alone on its worker, one for every other item. */
  ghost function Weights(asg: seq<int>, j: nat): (w: seq<real>)
    requires j < |asg|
    ensures |w| == j + 1 && NonNegative(w)
  {
    seq(j + 1, i requires 0 <= i < j + 1 => if i < j && Alone(asg, j, i) then 2.0 else 1.0)
  }

  /** A worker with a positive load carries at least two units of weight. */
  lemma {:induction false} WeightAtLeastTwo(loads: seq<real>, asg: seq<int>, j: nat, c: int)
    requires j < |loads| && j < |asg| && LoadOf(loads, asg, j, c) > 0.0
    ensures LoadOf(Weights(asg, j), asg, j, c) >= 2.0
  {
    var w := Weights(asg, j);
    if i :| 0 <= i < j && asg[i] == c {
      if Alone(asg, j, i) {
        OneOfThem(w, asg, j, c, i);
      } else {
        var k :| 0 <= k < j && asg[k] == asg[i] && k != i;
        TwoOfThem(w, asg, j, c, if i < k then i else k, if i < k then k else i);
      }
    } else {
      NobodyHere(loads, asg, j, c);
    }
  }

  function Count(asg: seq<int>, n: nat, c: int): nat
    requires n <= |asg|
  {
    if n == 0 then 0 else Count(asg, n - 1, c) + (if asg[n - 1] == c then 1 else 0)
  }

  /** Items above a third of the bound, one unit of weight each: load exceeds a third per item. */
  lemma {:induction false} UnitWeights(loads: seq<real>, w: seq<real>, opt: seq<int>, n: nat, c: int, bound: real)
    requires n <= |loads| && n <= |w| && n <= |opt|
    requires forall i :: 0 <= i < n && opt[i] == c ==> w[i] == 1.0 && 3.0 * loads[i] > bound
    ensures LoadOf(w, opt, n, c) == Count(opt, n, c) as real
    ensures 3.0 * LoadOf(loads, opt, n, c) >= Times(Count(opt, n, c), bound)
    ensures Count(opt, n, c) > 0 ==> 3.0 * LoadOf(loads, opt, n, c) > Times(Count(opt, n, c), bound)
  {
    if n > 0 {
      UnitWeights(loads, w, opt, n - 1, c, bound);
    }
  }

  lemma {:induction false} TimesAtLeast(k: nat, l: nat, x: real)
    requires x >= 0.0 && l <= k
    ensures Times(l, x) <= Times(k, x)
  {
    if l < k {
      TimesAtLeast(k - 1, l, x);
    }
  }

  lemma {:induction false} FewerThanThree(bound: real, k: nat)
    requires bound > 0.0 && Times(k, bound) < 3.0 * bound
    ensures k <= 2
  {
    if k >= 3 {
      TimesAtLeast(k, 3, bound);
      TimesIsProduct(3, bound);
    }
  }

  /** If item `j` would overflow every worker, then no worker of another placement that fits can
      carry more than two units of weight. */
  lemma {:induction false} WeightAtMostTwo(loads: seq<real>, asg: seq<int>, opt: seq<int>, workers: seq<int>, j: nat, bound: real, c: int)
    requires j < |loads| && |asg| == |loads| && NonNegative(loads) && Falling(loads)
    requires forall i :: 0 <= i <= j ==> 3.0 * loads[i] > bound
    requires Fits(loads, opt, j + 1, workers, bound) && c in workers
    requires Placement(asg, j, workers)
    requires forall d :: d in workers ==> LoadOf(loads, asg, j, d) + loads[j] > bound
    ensures LoadOf(Weights(asg, j), opt, j + 1, c) <= 2.0
  {
    var w := Weights(asg, j);
    if a :| 0 <= a < j && opt[a] == c && Alone(asg, j, a) {
      forall k | 0 <= k < j + 1 && opt[k] == c ensures k == a {
        if k != a {
          OnlyOneHere(loads, asg, j, asg[a], a);
          TwoOfThem(loads, opt, j + 1, c, if a < k then a else k, if a < k then k else a);
        }
      }
      OnlyOneHere(w, opt, j + 1, c, a);
    } else {
      EachItemFits(loads, opt, workers, j + 1, bound, j);
      UnitWeights(loads, w, opt, j + 1, c, bound);
      if Count(opt, j + 1, c) > 0 {
        FewerThanThree(bound, Count(opt, j + 1, c));
      }
    }
  }

  /** Items above a third of the bound: some worker can still take item `j` within the bound. */
  lemma {:induction false} SomeWorkerHasRoom(loads: seq<real>, asg: seq<int>, opt: seq<int>, workers: seq<int>, j: nat, bound: real)
    returns (c: int)
    requires |workers| > 0 && Distinct(workers)
    requires j < |loads| && |asg| == |loads| && NonNegative(loads) && Falling(loads)
    requires forall i :: 0 <= i <= j ==> 3.0 * loads[i] > bound
    requires Placement(asg, j, workers) && Fits(loads, opt, j + 1, workers, bound)
    ensures c in workers && LoadOf(loads, asg, j, c) + loads[j] <= bound
  {
    if d :| d in workers && LoadOf(loads, asg, j, d) + loads[j] <= bound {
      c := d;
    } else {
      var w := Weights(asg, j);
      EachItemFits(loads, opt, workers, j + 1, bound, j);
      forall d | d in workers ensures LoadOf(w, asg, j, d) >= 2.0 {
        WeightAtLeastTwo(loads, asg, j, d);
      }
      SumAtLeast(w, asg, j, workers, 2.0);
      LoadIsConserved(w, asg, j, workers);
      forall d | d in workers ensures LoadOf(w, opt, j + 1, d) <= 2.0 {
        WeightAtMostTwo(loads, asg, opt, workers, j, bound, d);
      }
      SumAtMost(w, opt, j + 1, workers, 2.0);
      LoadIsConserved(w, opt, j + 1, workers);
      assert false;
    }
  }

  /** Longest first: greedy is within (4/3 - 1/(3m)) of every placement. */
  lemma {:induction false} LongestFirstBound(loads: seq<real>, asg: seq<int>, workers: seq<int>, opt: seq<int>, bound: real, n: nat, c: int)
    requires |workers| > 0 && Distinct(workers) && NonNegative(loads) && Falling(loads)
    requires IsGreedy(loads, asg, workers) && n <= |loads| && c in workers
    requires Fits(loads, opt, n, workers, bound)
    ensures 3.0 * Times(|workers|, LoadOf(loads, asg, n, c)) <= 3.0 * Times(|workers|, bound) + Times(|workers| - 1, bound)
  {
    var m := |workers|;
    BoundIsNonNegative(loads, opt, workers, n, bound);
    TimesGrows(m - 1, 0.0, bound);
    TimesIsProduct(m - 1, 0.0);
    if n == 0 {
      TimesGrows(m, 0.0, bound);
    } else if asg[n - 1] != c {
      PrefixFits(loads, opt, workers, n - 1, n, bound);
      LongestFirstBound(loads, asg, workers, opt, bound, n - 1, c);
    } else if 3.0 * loads[n - 1] <= bound {
      ChosenWorkerBound(loads, asg, workers, n - 1);
      TotalFits(loads, opt, workers, n, bound);
      TimesGrows(m - 1, loads[n - 1], bound / 3.0);
      TimesThird(m - 1, bound);
    } else {
      PlacedByGreedy(loads, asg, workers, n - 1);
      var d := SomeWorkerHasRoom(loads, asg, opt, workers, n - 1, bound);
      TimesGrows(m, LoadOf(loads, asg, n, c), bound);
    }
  }

  lemma {:induction false} TimesThird(m: nat, x: real)
    ensures 3.0 * Times(m, x / 3.0) == Times(m, x)
  {
    TimesIsProduct(m, x);
    TimesIsProduct(m, x / 3.0);
  }

  /** `load` is at most (4/3 - 1/(3m)) times `bound`. */
  ghost predicate WithinLongestFirstRatio(load: real, bound: real, m: nat) {
    3.0 * m as real * load <= (4.0 * m as real - 1.0) * bound
  }

  /** The same bound as a ratio. */
  lemma {:induction false} FourThirdsMinusOneOver3M(loads: seq<real>, asg: seq<int>, workers: seq<int>, opt: seq<int>, bound: real, c: int)
    requires |workers| > 0 && Distinct(workers) && NonNegative(loads) && Falling(loads)
    requires IsGreedy(loads, asg, workers) && c in workers
    requires Fits(loads, opt, |loads|, workers, bound)
    ensures WithinLongestFirstRatio(LoadOf(loads, asg, |loads|, c), bound, |workers|)
  {
    LongestFirstBound(loads, asg, workers, opt, bound, |loads|, c);
    TimesIsProduct(|workers|, LoadOf(loads, asg, |loads|, c));
    TimesIsProduct(|workers|, bound);
    TimesIsProduct(|workers| - 1, bound);
  }

  // ---------------------------------------------------------------- independence of tie-breaking

  /** Loads of the listed workers, in the order of the list. */
  function LoadVector(loads: seq<real>, asg: seq<int>, n: nat, workers: seq<int>): (v: seq<real>)
    requires n <= |loads| && n <= |asg|
    ensures |v| == |workers| && forall i :: 0 <= i < |v| ==> v[i] == LoadOf(loads, asg, n, workers[i])
  {
    seq(|workers|, i requires 0 <= i < |workers| => LoadOf(loads, asg, n, workers[i]))
  }

  predicate MinimalAt(v: seq<real>, k: nat) {
    k < |v| && forall i :: 0 <= i < |v| ==> v[k] <= v[i]
  }

  function Raised(v: seq<real>, k: nat, x: real): seq<real>
    requires k < |v|
  {
    v[k := v[k] + x]
  }

  /** One greedy placement raises one minimal entry of the load vector. */
  lemma {:induction false} GreedyStep(loads: seq<real>, asg: seq<int>, n: nat, workers: seq<int>) returns (k: nat)
    requires n < |loads| && n < |asg| && Distinct(workers) && GreedyAt(loads, asg, n, workers)
    ensures MinimalAt(LoadVector(loads, asg, n, workers), k)
    ensures LoadVector(loads, asg, n + 1, workers) == Raised(LoadVector(loads, asg, n, workers), k, loads[n])
  {
    k :| 0 <= k < |workers| && workers[k] == asg[n];
    var v := LoadVector(loads, asg, n, workers);
    forall i | 0 <= i < |v| ensures v[k] <= v[i] {
      assert workers[i] in workers;
    }
  }

  lemma {:induction false} ReplaceMinimum(v: seq<real>, v': seq<real>, k: nat, k': nat, x: real)
    requires Permutation(v, v') && MinimalAt(v, k) && MinimalAt(v', k')
    ensures Permutation(Raised(v, k, x), Raised(v', k', x))
  {
    SameMembers(v, v');
    assert v[k] in v' && v'[k'] in v;
    assert v[k] == v'[k'];
  }

  lemma {:induction false} EmptyVector(loads: seq<real>, asg: seq<int>, workers: seq<int>, asg': seq<int>, workers': seq<int>)
    requires |workers| == |workers'|
    ensures LoadVector(loads, asg, 0, workers) == LoadVector(loads, asg', 0, workers')
  {
  }

  /** Both assignments give the same loads up to the order of the workers. */
  ghost predicate SameLoads(loads: seq<real>, n: nat, asg: seq<int>, workers: seq<int>, asg': seq<int>, workers': seq<int>) {
    && n <= |loads| && n <= |asg| && n <= |asg'|
    && Permutation(LoadVector(loads, asg, n, workers), LoadVector(loads, asg', n, workers'))
  }

  lemma {:induction false} BothStep(loads: seq<real>, n: nat, asg: seq<int>, workers: seq<int>, asg': seq<int>, workers': seq<int>)
    requires n < |loads| && n < |asg| && n < |asg'| && Distinct(workers) && Distinct(workers')
    requires GreedyAt(loads, asg, n, workers) && GreedyAt(loads, asg', n, workers')
    requires SameLoads(loads, n, asg, workers, asg', workers')
    ensures SameLoads(loads, n + 1, asg, workers, asg', workers')
  {
    var k := GreedyStep(loads, asg, n, workers);
    var k' := GreedyStep(loads, asg', n, workers');
    ReplaceMinimum(LoadVector(loads, asg, n, workers), LoadVector(loads, asg', n, workers'), k, k', loads[n]);
  }

  lemma {:induction false} SameAtStart(loads: seq<real>, asg: seq<int>, workers: seq<int>, asg': seq<int>, workers': seq<int>)
    requires |workers| == |workers'|
    ensures SameLoads(loads, 0, asg, workers, asg', workers')
  {
    EmptyVector(loads, asg, workers, asg', workers');
  }

  lemma {:induction false} SameAfterOneMore(loads: seq<real>, n: nat, asg: seq<int>, workers: seq<int>, asg': seq<int>, workers': seq<int>)
    requires Distinct(workers) && Distinct(workers') && n < |loads|
    requires IsGreedy(loads, asg, workers) && IsGreedy(loads, asg', workers')
    requires SameLoads(loads, n, asg, workers, asg', workers')
    ensures SameLoads(loads, n + 1, asg, workers, asg', workers')
  {
    PlacedByGreedy(loads, asg, workers, n);
    PlacedByGreedy(loads, asg', workers', n);
    BothStep(loads, n, asg, workers, asg', workers');
  }

  /** The final loads, as a multiset, depend only on the sequence of loads and the number of
      workers: not on how ties are broken nor on how the workers are listed. */
  lemma {:induction false} FinalLoadsAreUnique(loads: seq<real>, n: nat, asg: seq<int>, workers: seq<int>, asg': seq<int>, workers': seq<int>)
    requires Distinct(workers) && Distinct(workers') && |workers| == |workers'|
    requires n <= |loads| && IsGreedy(loads, asg, workers) && IsGreedy(loads, asg', workers')
    ensures SameLoads(loads, n, asg, workers, asg', workers')
  {
    if n == 0 {
      SameAtStart(loads, asg, workers, asg', workers');
    } else {
      FinalLoadsAreUnique(loads, n - 1, asg, workers, asg', workers');
      SameAfterOneMore(loads, n - 1, asg, workers, asg', workers');
    }
  }
}
