/** When the balancer migrates, said of the loads of the workers: the coefficient of variation by its
    defining equation, and the decision by comparing two of them. */
module Decision {
  import opened Common
  import opened Permutations
  import opened Greedy
  import opened Scheduler
  import opened Balancing

  // ---------------------------------------------------------------- the coefficient of variation

  function Sum(v: seq<real>, n: nat): real
    requires n <= |v|
  {
    if n == 0 then 0.0 else Sum(v, n - 1) + v[n - 1]
  }

  function Mean(v: seq<real>): real
    requires |v| > 0
  {
    Sum(v, |v|) / |v| as real
  }

  /** Squared deviations of the first `n` values from `mu`, added up. */
  function Deviations(v: seq<real>, n: nat, mu: real): real
    requires n <= |v|
  {
    if n == 0 then 0.0 else Deviations(v, n - 1, mu) + (v[n - 1] - mu) * (v[n - 1] - mu)
  }

  /** The mean squared deviation. */
  function Variance(v: seq<real>): real
    requires |v| > 0
  {
    Deviations(v, |v|, Mean(v)) / |v| as real
  }

  /** `cv` is standard deviation over mean: times the mean and squared, it is the mean squared deviation. */
  predicate Solves(cv: real, mean: real, variance: real) {
    cv >= 0.0 && mean > 0.0 && (cv * mean) * (cv * mean) == variance
  }

  ghost predicate IsCoefficient(cv: real, v: seq<real>) {
    |v| > 0 && Solves(cv, Mean(v), Variance(v))
  }

  /** A square root. */
  ghost predicate IsRoot(root: real -> real) {
    forall x :: x >= 0.0 ==> root(x) >= 0.0 && root(x) * root(x) == x
  }

  lemma {:induction false} SumIsSumBy(v: seq<real>, n: nat)
    requires n <= |v|
    ensures Sum(v, n) == SumBy(v[..n], Identity)
  {
    if n > 0 {
      SumIsSumBy(v, n - 1);
      assert v[..n] == v[..n - 1] + [v[n - 1]];
      SumByConcat(v[..n - 1], [v[n - 1]], Identity);
    }
  }

  lemma {:induction false} DeviationsIsSumBy(v: seq<real>, n: nat, mu: real)
    requires n <= |v|
    ensures Deviations(v, n, mu) == SumBy(v[..n], SquaredDeviation(mu)) >= 0.0
  {
    if n > 0 {
      DeviationsIsSumBy(v, n - 1, mu);
      assert v[..n] == v[..n - 1] + [v[n - 1]];
      SumByConcat(v[..n - 1], [v[n - 1]], SquaredDeviation(mu));
      SquareIsNonNegative(v[n - 1] - mu);
    }
  }

  lemma {:induction false} SquareIsNonNegative(x: real)
    ensures x * x >= 0.0
  {
  }

  lemma {:induction false} QuotientTimes(a: real, b: real)
    requires b > 0.0
    ensures (a / b) * b == a && (a >= 0.0 ==> a / b >= 0.0)
  {
  }

  lemma {:induction false} VarianceIsNonNegative(v: seq<real>)
    requires |v| > 0
    ensures Variance(v) >= 0.0
  {
    DeviationsIsSumBy(v, |v|, Mean(v));
    QuotientTimes(Deviations(v, |v|, Mean(v)), |v| as real);
  }

  lemma {:induction false} VariationIsRootOverMean(v: seq<real>, root: real -> real)
    requires |v| > 0 && Mean(v) > 0.0
    ensures Variation(v, root) == root(Variance(v)) / Mean(v)
  {
    assert v[..|v|] == v;
    SumIsSumBy(v, |v|);
    DeviationsIsSumBy(v, |v|, Mean(v));
  }

  /** What round_robin and get_variation_coefficient compute of loads that are not all zero is the
      coefficient of variation. */
  lemma {:induction false} VariationIsCoefficient(v: seq<real>, root: real -> real)
    requires |v| > 0 && Mean(v) > 0.0 && IsRoot(root)
    ensures IsCoefficient(Variation(v, root), v)
  {
    VariationIsRootOverMean(v, root);
    VarianceIsNonNegative(v);
    RootOverMean(root(Variance(v)), Mean(v), Variance(v));
  }

  lemma {:induction false} RootOverMean(r: real, mean: real, variance: real)
    requires mean > 0.0 && r >= 0.0 && r * r == variance
    ensures Solves(r / mean, mean, variance)
  {
    QuotientTimes(r, mean);
  }

  lemma {:induction false} ProductIsPositive(x: real, y: real)
    requires x > 0.0 && y > 0.0
    ensures x * y > 0.0
  {
  }

  lemma {:induction false} SquaresDiffer(a: real, b: real)
    requires 0.0 <= a < b
    ensures a * a < b * b
  {
    ProductIsPositive(b - a, b + a);
    assert (b - a) * (b + a) == b * b - a * a;
  }

  lemma {:induction false} ProductsDiffer(a: real, b: real, m: real)
    requires 0.0 <= a < b && m > 0.0
    ensures 0.0 <= a * m < b * m
  {
    ProductIsPositive(b - a, m);
  }

  lemma {:induction false} SolutionIsUnique(a: real, b: real, mean: real, variance: real)
    requires Solves(a, mean, variance) && Solves(b, mean, variance)
    ensures a == b
  {
    if a < b {
      ProductsDiffer(a, b, mean);
      SquaresDiffer(a * mean, b * mean);
    } else if b < a {
      ProductsDiffer(b, a, mean);
      SquaresDiffer(b * mean, a * mean);
    }
  }

  lemma {:induction false} CoefficientIsUnique(a: real, b: real, v: seq<real>)
    requires IsCoefficient(a, v) && IsCoefficient(b, v)
    ensures a == b
  {
    SolutionIsUnique(a, b, Mean(v), Variance(v));
  }

  /** Loads that are not all zero have a positive mean. */
  lemma {:induction false} SomeLoad(v: seq<real>, n: nat)
    requires n <= |v| && forall i :: 0 <= i < |v| ==> v[i] >= 0.0
    ensures Sum(v, n) >= 0.0 && (Sum(v, n) > 0.0 <==> exists i :: 0 <= i < n && v[i] > 0.0)
  {
    if n > 0 {
      SomeLoad(v, n - 1);
      if i :| 0 <= i < n - 1 && v[i] > 0.0 {
        assert 0 <= i < n && v[i] > 0.0;
      }
    }
  }

  lemma {:induction false} MeanOfLoads(v: seq<real>)
    requires |v| > 0 && forall i :: 0 <= i < |v| ==> v[i] >= 0.0
    ensures Mean(v) >= 0.0 && (Mean(v) > 0.0 <==> exists i :: 0 <= i < |v| && v[i] > 0.0)
  {
    SomeLoad(v, |v|);
    QuotientTimes(Sum(v, |v|), |v| as real);
  }

  /** Without load the value is -1. */
  lemma {:induction false} VariationWithoutLoad(v: seq<real>, root: real -> real)
    requires |v| > 0 && Mean(v) == 0.0
    ensures Variation(v, root) == -1.0
  {
    assert v[..|v|] == v;
    SumIsSumBy(v, |v|);
  }

  /** Loads that are all equal have coefficient 0. */
  lemma {:induction false} EvenLoads(v: seq<real>, n: nat, x: real)
    requires n <= |v| && forall i :: 0 <= i < |v| ==> v[i] == x
    ensures Sum(v, n) == n as real * x && Deviations(v, n, x) == 0.0
  {
    if n > 0 {
      EvenLoads(v, n - 1, x);
    }
  }

  lemma {:induction false} EvenLoadsHaveCoefficientZero(v: seq<real>, x: real)
    requires |v| > 0 && x > 0.0 && forall i :: 0 <= i < |v| ==> v[i] == x
    ensures IsCoefficient(0.0, v)
  {
    EvenLoads(v, |v|, x);
    assert Mean(v) == x;
  }

  // ---------------------------------------------------------------- load on the workers

  /** Some relay direction carries traffic. */
  ghost predicate Running(rates: seq<Rate>) {
    exists i :: 0 <= i < |rates| && (rates[i].vm2vf > 0.0 || rates[i].vf2vm > 0.0)
  }

  /** The loads that a list of mappings puts on the workers. */
  ghost function LoadsUnder(maps: seq<RelayCpu>, rates: seq<Rate>, workers: seq<int>): seq<real> {
    MappedVector(maps, rates, workers)
  }

  lemma {:induction false} SharesAreNonNegative(maps: seq<RelayCpu>, rates: seq<Rate>, c: int)
    requires ValidRates(rates)
    ensures MappedLoad(maps, rates, c) >= 0.0
    decreases |maps|
  {
    if maps != [] {
      SharesAreNonNegative(maps[1..], rates, c);
      if HasRate(rates, maps[0].relay) {
        var r := RateOf(rates, maps[0].relay);
        assert r.vm2vf >= 0.0 && r.vf2vm >= 0.0;
      }
    }
  }

  /** The share of a relay on the worker of a direction that carries traffic is positive. */
  lemma {:induction false} BusyShare(maps: seq<RelayCpu>, rates: seq<Rate>, k: nat, c: int)
    requires ValidRates(rates) && k < |maps| && Share(maps[k], rates, c) > 0.0
    ensures MappedLoad(maps, rates, c) > 0.0
    decreases k
  {
    SharesAreNonNegative(maps[1..], rates, c);
    if k > 0 {
      BusyShare(maps[1..], rates, k - 1, c);
      SharesAreNonNegative([maps[0]], rates, c);
      assert [maps[0]][1..] == [];
      assert MappedLoad([maps[0]], rates, c) == Share(maps[0], rates, c) + SumBy([], ShareOn(rates, c));
    }
  }

  lemma {:induction false} IdleShare(maps: seq<RelayCpu>, rates: seq<Rate>, c: int)
    requires ValidRates(rates) && !Running(rates)
    ensures MappedLoad(maps, rates, c) == 0.0
    decreases |maps|
  {
    if maps != [] {
      IdleShare(maps[1..], rates, c);
      if HasRate(rates, maps[0].relay) {
        var r := RateOf(rates, maps[0].relay);
        var i :| 0 <= i < |rates| && rates[i] == r;
      }
    }
  }

  /** The new mappings load some worker exactly if something is running. */
  lemma {:induction false} NewLoadsRun(rates: seq<Rate>, workers: seq<int>)
    requires ValidRates(rates) && ValidWorkers(workers)
    ensures var v := LoadsUnder(Mappings(rates, workers), rates, workers);
      && (forall i :: 0 <= i < |v| ==> v[i] >= 0.0)
      && (Mean(v) > 0.0 <==> Running(rates)) && (Mean(v) == 0.0 <==> !Running(rates))
  {
    var maps := Mappings(rates, workers);
    var v := LoadsUnder(maps, rates, workers);
    forall i | 0 <= i < |v| ensures v[i] >= 0.0 && (!Running(rates) ==> v[i] == 0.0) {
      SharesAreNonNegative(maps, rates, workers[i]);
      if !Running(rates) {
        IdleShare(maps, rates, workers[i]);
      }
    }
    MeanOfLoads(v);
    if Running(rates) {
      var i :| 0 <= i < |rates| && (rates[i].vm2vf > 0.0 || rates[i].vf2vm > 0.0);
      var j := BusyWorker(rates, workers, i);
      assert v[j] > 0.0;
    }
  }

  lemma {:induction false} BusyWorker(rates: seq<Rate>, workers: seq<int>, i: nat) returns (j: nat)
    requires ValidRates(rates) && ValidWorkers(workers) && i < |rates| && (rates[i].vm2vf > 0.0 || rates[i].vf2vm > 0.0)
    ensures j < |workers| && MappedLoad(Mappings(rates, workers), rates, workers[j]) > 0.0
  {
    var maps := Mappings(rates, workers);
    MappingsCoverRelays(rates, workers);
    assert HasRate(rates, rates[i].id) && MapsRelay(maps, rates[i].id);
    var k :| 0 <= k < |maps| && maps[k].relay == rates[i].id;
    assert maps[k] in maps;
    var r := RateOf(rates, rates[i].id);
    assert r == rates[i];
    var c := if r.vm2vf > 0.0 then maps[k].virtio2vf else maps[k].vf2virtio;
    j :| 0 <= j < |workers| && workers[j] == c;
    BusyShare(maps, rates, k, c);
  }

  lemma {:induction false} NewBalance(rates: seq<Rate>, workers: seq<int>, root: real -> real)
    requires ValidRates(rates) && ValidWorkers(workers)
    ensures Balance(rates, workers, root) == Variation(LoadsUnder(Mappings(rates, workers), rates, workers), root)
  {
    var v := LoadVector(Loads(rates), Assignment(rates, workers), |Loads(rates)|, workers);
    forall i | 0 <= i < |workers| ensures v[i] == LoadsUnder(Mappings(rates, workers), rates, workers)[i] {
      MappingsRebuildLoads(rates, workers, workers[i]);
    }
    assert v == LoadsUnder(Mappings(rates, workers), rates, workers);
  }

  // ---------------------------------------------------------------- the decision

  /** The decision in terms of loads: nothing is done without load. With load, `a` is the coefficient under
      the new mappings, and it must be better by more than the margin than the coefficient under those
      in force; or than 10^10, if one of these names a relay or CPU that is not there. Mappings in force
      that carry no load at all count as better than any. */
  ghost predicate RightDecision(migrate: bool, current: seq<RelayCpu>, mappings: seq<RelayCpu>, rates: seq<Rate>,
                                workers: seq<int>, sensitivity: real)
  {
    && (!Running(rates) ==> !migrate)
    && (Running(rates) ==> forall a :: IsCoefficient(a, LoadsUnder(mappings, rates, workers)) ==>
          if !Known(current, rates, workers) then migrate <==> a + sensitivity < 10000000000.0
          else if Mean(LoadsUnder(current, rates, workers)) == 0.0 then migrate <==> a + sensitivity < -1.0
          else forall b :: IsCoefficient(b, LoadsUnder(current, rates, workers)) ==> (migrate <==> a + sensitivity < b))
  }

  lemma {:induction false} DecisionIsRight(rates: seq<Rate>, workers: seq<int>, current: seq<RelayCpu>, root: real -> real, sensitivity: real)
    requires ValidRates(rates) && ValidWorkers(workers) && IsRoot(root)
    ensures RightDecision(Migrates(Balance(rates, workers, root), PreviousBalance(Some(current), rates, workers, root), sensitivity),
                          current, Mappings(rates, workers), rates, workers, sensitivity)
  {
    var v, u := LoadsUnder(Mappings(rates, workers), rates, workers), LoadsUnder(current, rates, workers);
    var cv := Balance(rates, workers, root);
    NewLoadsRun(rates, workers);
    NewBalance(rates, workers, root);
    if !Running(rates) {
      VariationWithoutLoad(v, root);
    } else {
      VariationIsCoefficient(v, root);
      forall a | IsCoefficient(a, v) ensures a == cv {
        CoefficientIsUnique(a, cv, v);
      }
      if Mean(u) == 0.0 {
        VariationWithoutLoad(u, root);
      } else {
        OldLoads(current, rates, workers);
        VariationIsCoefficient(u, root);
        forall b | IsCoefficient(b, u) ensures b == Variation(u, root) {
          CoefficientIsUnique(b, Variation(u, root), u);
        }
      }
    }
  }

  lemma {:induction false} OldLoads(current: seq<RelayCpu>, rates: seq<Rate>, workers: seq<int>)
    requires ValidRates(rates) && |workers| > 0
    ensures Mean(LoadsUnder(current, rates, workers)) >= 0.0
  {
    var u := LoadsUnder(current, rates, workers);
    forall i | 0 <= i < |u| ensures u[i] >= 0.0 {
      SharesAreNonNegative(current, rates, workers[i]);
    }
    MeanOfLoads(u);
  }

  /** In particular: if the new mappings would load all workers alike and the coefficient of those in
      force is above the margin, it migrates. */
  lemma {:induction false} EvenLoadsAreWorthMigrating(rates: seq<Rate>, workers: seq<int>, current: seq<RelayCpu>, migrate: bool,
                                                       mappings: seq<RelayCpu>, sensitivity: real, x: real, b: real)
    requires RightDecision(migrate, current, mappings, rates, workers, sensitivity) && Running(rates) && |workers| > 0
    requires x > 0.0 && forall c :: c in workers ==> MappedLoad(mappings, rates, c) == x
    requires Known(current, rates, workers) && IsCoefficient(b, LoadsUnder(current, rates, workers)) && sensitivity < b
    ensures migrate
  {
    var v := LoadsUnder(mappings, rates, workers);
    forall i | 0 <= i < |v| ensures v[i] == x {
      assert workers[i] in workers;
    }
    EvenLoadsHaveCoefficientZero(v, x);
  }
}
