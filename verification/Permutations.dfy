/** Stable sorting, and quantities that do not depend on the order of a sequence. */
module Permutations {

  ghost predicate Permutation<T>(s: seq<T>, t: seq<T>) {
    multiset(s) == multiset(t)
  }

  function Without<T>(s: seq<T>, k: nat): seq<T>
    requires k < |s|
  {
    s[..k] + s[k + 1..]
  }

  lemma {:induction false} WithoutContents<T>(s: seq<T>, k: nat)
    requires k < |s|
    ensures multiset(s) == multiset(Without(s, k)) + multiset{s[k]}
  {
    assert s == s[..k] + [s[k]] + s[k + 1..];
  }

  /** The head of `s` can be found in any permutation of `s`, and the rests are permutations again. */
  lemma {:induction false} FindHead<T>(s: seq<T>, t: seq<T>) returns (k: nat)
    requires |s| > 0 && Permutation(s, t)
    ensures k < |t| && t[k] == s[0] && Permutation(s[1..], Without(t, k))
  {
    assert s == [s[0]] + s[1..];
    assert s[0] in multiset(t);
    k :| 0 <= k < |t| && t[k] == s[0];
    WithoutContents(t, k);
    assert multiset(s) - multiset{s[0]} == multiset(s[1..]);
  }

  lemma {:induction false} SameLength<T>(s: seq<T>, t: seq<T>)
    requires Permutation(s, t)
    ensures |s| == |t|
  {
    assert |multiset(s)| == |s| && |multiset(t)| == |t|;
  }

  lemma {:induction false} SameMembers<T>(s: seq<T>, t: seq<T>)
    requires Permutation(s, t)
    ensures forall x :: x in s <==> x in t
  {
    forall x ensures x in s <==> x in t {
      assert x in multiset(s) <==> x in multiset(t);
    }
  }

  lemma {:induction false} OnceEach<T>(s: seq<T>, x: T)
    requires forall i, j :: 0 <= i < j < |s| ==> s[i] != s[j]
    ensures multiset(s)[x] == if x in s then 1 else 0
    decreases |s|
  {
    if |s| > 0 {
      var n := |s| - 1;
      assert s == s[..n] + [s[n]];
      OnceEach(s[..n], x);
    }
  }

  /** Two lists without repetitions and with the same members are permutations of each other. */
  lemma {:induction false} DistinctWithSameMembers<T>(s: seq<T>, t: seq<T>)
    requires forall i, j :: 0 <= i < j < |s| ==> s[i] != s[j]
    requires forall i, j :: 0 <= i < j < |t| ==> t[i] != t[j]
    requires forall x :: x in s <==> x in t
    ensures Permutation(s, t)
  {
    forall x ensures multiset(s)[x] == multiset(t)[x] {
      OnceEach(s, x);
      OnceEach(t, x);
    }
  }

  // ---------------------------------------------------------------- sums

  function SumBy<T>(s: seq<T>, g: T -> real): real {
    if |s| == 0 then 0.0 else g(s[0]) + SumBy(s[1..], g)
  }

  lemma {:induction false} SumByConcat<T>(s: seq<T>, t: seq<T>, g: T -> real)
    ensures SumBy(s + t, g) == SumBy(s, g) + SumBy(t, g)
  {
    if |s| == 0 {
      assert s + t == t;
    } else {
      assert (s + t)[1..] == s[1..] + t;
      SumByConcat(s[1..], t, g);
    }
  }

  lemma {:induction false} SumByPermutation<T>(s: seq<T>, t: seq<T>, g: T -> real)
    requires Permutation(s, t)
    ensures SumBy(s, g) == SumBy(t, g)
  {
    if |s| == 0 {
      SameLength(s, t);
    } else {
      var k := FindHead(s, t);
      SumByPermutation(s[1..], Without(t, k), g);
      assert t == t[..k] + ([t[k]] + t[k + 1..]);
      SumByConcat(t[..k], [t[k]] + t[k + 1..], g);
      SumByConcat(t[..k], t[k + 1..], g);
    }
  }

  // ---------------------------------------------------------------- mapping

  function Map<T, U>(s: seq<T>, f: T -> U): (r: seq<U>)
    ensures |r| == |s| && forall i :: 0 <= i < |s| ==> r[i] == f(s[i])
  {
    seq(|s|, i requires 0 <= i < |s| => f(s[i]))
  }

  lemma {:induction false} MapPermutation<T, U>(s: seq<T>, t: seq<T>, f: T -> U)
    requires Permutation(s, t)
    ensures Permutation(Map(s, f), Map(t, f))
  {
    SameLength(s, t);
    if |s| == 0 {
      assert Map(s, f) == Map(t, f);
    } else {
      var k := FindHead(s, t);
      MapPermutation(s[1..], Without(t, k), f);
      assert Map(s, f) == [f(s[0])] + Map(s[1..], f);
      assert Without(Map(t, f), k) == Map(Without(t, k), f);
      WithoutContents(Map(t, f), k);
    }
  }

  // ---------------------------------------------------------------- stable sorting

  ghost predicate TotalOrder<T(!new)>(before: (T, T) -> bool) {
    && (forall a, b :: before(a, b) || before(b, a))
    && (forall a, b, c :: before(a, b) && before(b, c) ==> before(a, c))
  }

  ghost predicate Sorted<T>(s: seq<T>, before: (T, T) -> bool) {
    forall i, j :: 0 <= i < j < |s| ==> before(s[i], s[j])
  }

  function Insert<T>(e: T, s: seq<T>, before: (T, T) -> bool): seq<T> {
    if |s| == 0 || before(e, s[0]) then [e] + s
    else [s[0]] + Insert(e, s[1..], before)
  }

  /** Sorts so that items that tie keep their order. */
  function StableSort<T>(s: seq<T>, before: (T, T) -> bool): seq<T> {
    if |s| == 0 then [] else Insert(s[0], StableSort(s[1..], before), before)
  }

  lemma {:induction false} InsertKeepsItems<T>(e: T, s: seq<T>, before: (T, T) -> bool)
    ensures Permutation(Insert(e, s, before), [e] + s)
  {
    if |s| == 0 || before(e, s[0]) {
    } else {
      InsertKeepsItems(e, s[1..], before);
      assert s == [s[0]] + s[1..];
    }
  }

  lemma {:induction false} InsertKeepsOrder<T(!new)>(e: T, s: seq<T>, before: (T, T) -> bool)
    requires TotalOrder(before) && Sorted(s, before)
    ensures Sorted(Insert(e, s, before), before)
  {
    if |s| == 0 || before(e, s[0]) {
    } else {
      var rest := Insert(e, s[1..], before);
      InsertKeepsOrder(e, s[1..], before);
      InsertKeepsItems(e, s[1..], before);
      SameMembers(rest, [e] + s[1..]);
      forall j | 0 <= j < |rest| ensures before(s[0], rest[j]) {
        assert rest[j] in [e] + s[1..];
      }
    }
  }

  lemma {:induction false} SortKeepsItems<T>(s: seq<T>, before: (T, T) -> bool)
    ensures Permutation(StableSort(s, before), s)
  {
    if |s| > 0 {
      SortKeepsItems(s[1..], before);
      InsertKeepsItems(s[0], StableSort(s[1..], before), before);
      assert s == [s[0]] + s[1..];
    }
  }

  lemma {:induction false} SortSorts<T(!new)>(s: seq<T>, before: (T, T) -> bool)
    requires TotalOrder(before)
    ensures Sorted(StableSort(s, before), before)
  {
    if |s| > 0 {
      SortSorts(s[1..], before);
      InsertKeepsOrder(s[0], StableSort(s[1..], before), before);
    }
  }

  function Tie<T>(y: T, before: (T, T) -> bool, x: T): seq<T> {
    if before(y, x) && before(x, y) then [y] else []
  }

  /** The items that tie with `x`, in order. */
  function Ties<T>(s: seq<T>, before: (T, T) -> bool, x: T): seq<T> {
    if |s| == 0 then [] else Tie(s[0], before, x) + Ties(s[1..], before, x)
  }

  lemma {:induction false} TiesOfCons<T>(y: T, rest: seq<T>, before: (T, T) -> bool, x: T)
    ensures Ties([y] + rest, before, x) == Tie(y, before, x) + Ties(rest, before, x)
  {
    assert ([y] + rest)[1..] == rest;
  }

  lemma {:induction false} OneIsEmpty<T>(a: seq<T>, b: seq<T>, c: seq<T>)
    requires a == [] || b == []
    ensures a + (b + c) == b + (a + c)
  {
  }

  lemma {:induction false} InsertGoesFirst<T(!new)>(e: T, s: seq<T>, before: (T, T) -> bool, x: T)
    requires TotalOrder(before)
    ensures Ties(Insert(e, s, before), before, x) == Tie(e, before, x) + Ties(s, before, x)
  {
    if |s| == 0 || before(e, s[0]) {
      TiesOfCons(e, s, before, x);
    } else {
      var rest := Insert(e, s[1..], before);
      InsertGoesFirst(e, s[1..], before, x);
      TiesOfCons(s[0], rest, before, x);
      OneIsEmpty(Tie(s[0], before, x), Tie(e, before, x), Ties(s[1..], before, x));
    }
  }

  /** Items that tie keep their order. */
  lemma {:induction false} SortIsStable<T(!new)>(s: seq<T>, before: (T, T) -> bool, x: T)
    requires TotalOrder(before)
    ensures Ties(StableSort(s, before), before, x) == Ties(s, before, x)
  {
    if |s| > 0 {
      SortIsStable(s[1..], before, x);
      InsertGoesFirst(s[0], StableSort(s[1..], before), before, x);
    }
  }

  ghost predicate Falling(s: seq<real>) {
    forall i, j :: 0 <= i < j < |s| ==> s[i] >= s[j]
  }

  lemma {:induction false} TailContents<T>(s: seq<T>)
    requires |s| > 0
    ensures multiset(s[1..]) == multiset(s) - multiset{s[0]}
  {
    assert s == [s[0]] + s[1..];
  }

  /** Equal contents in descending order: equal sequences. */
  lemma {:induction false} FallingIsUnique(s: seq<real>, t: seq<real>)
    requires Permutation(s, t) && Falling(s) && Falling(t)
    ensures s == t
  {
    SameLength(s, t);
    if |s| > 0 {
      assert s[0] == t[0] by {
        SameMembers(s, t);
        assert s[0] in s && t[0] in t;
      }
      TailContents(s);
      TailContents(t);
      FallingIsUnique(s[1..], t[1..]);
      assert s == [s[0]] + s[1..] && t == [t[0]] + t[1..];
    }
  }
}
