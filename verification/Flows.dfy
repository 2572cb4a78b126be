/** The order of packets within a flow across one multiqueue transmit. All packets of a flow have the
    same hash and so the same queue, but a queue carries many flows. */
module Flows {
  import opened Transmit

  /** Those of the items `k` .. `n` - 1 that belong to flow `f`, in order. */
  function FlowRange(s: seq<Mbuf>, k: nat, n: nat, f: nat): seq<Mbuf>
    requires n <= |s|
  {
    if n <= k then []
    else if s[n - 1].flow == f then FlowRange(s, k, n - 1, f) + [s[n - 1]]
    else FlowRange(s, k, n - 1, f)
  }

  function OfFlow(s: seq<Mbuf>, f: nat): seq<Mbuf> {
    FlowRange(s, 0, |s|, f)
  }

  /** The packets of flow `f`, which queue `q` serves, that the queue did not take; in arrival order. */
  function Unsent(s: seq<Mbuf>, q: nat, accepted: seq<nat>, f: nat): seq<Mbuf> {
    FlowRange(OfQueue(s, q), Taken(s, q, accepted), |OfQueue(s, q)|, f)
  }

  /** The hash of flow `f` selects queue `q`. */
  ghost predicate SteeredTo(s: seq<Mbuf>, f: nat, q: nat) {
    forall i :: 0 <= i < |s| && s[i].flow == f ==> s[i].queue == q
  }

  // ---------------------------------------------------------------- flows of composed sequences

  lemma {:induction false} RangePrefix(s: seq<Mbuf>, t: seq<Mbuf>, k: nat, n: nat, f: nat)
    requires n <= |s|
    ensures FlowRange(s + t, k, n, f) == FlowRange(s, k, n, f)
  {
    if n > k {
      RangePrefix(s, t, k, n - 1, f);
    }
  }

  lemma {:induction false} FlowConcat(s: seq<Mbuf>, t: seq<Mbuf>, n: nat, f: nat)
    requires n <= |t|
    ensures FlowRange(s + t, 0, |s| + n, f) == OfFlow(s, f) + FlowRange(t, 0, n, f)
  {
    if n == 0 {
      RangePrefix(s, t, 0, |s|, f);
    } else {
      FlowConcat(s, t, n - 1, f);
      assert (s + t)[|s| + n - 1] == t[n - 1];
    }
  }

  lemma {:induction false} RangeSplits(s: seq<Mbuf>, k: nat, n: nat, f: nat)
    requires k <= n <= |s|
    ensures FlowRange(s, 0, k, f) + FlowRange(s, k, n, f) == FlowRange(s, 0, n, f)
  {
    if k < n {
      RangeSplits(s, k, n - 1, f);
    }
  }

  lemma {:induction false} NoneOfFlow(s: seq<Mbuf>, k: nat, n: nat, f: nat)
    requires n <= |s| && forall i :: 0 <= i < |s| ==> s[i].flow != f
    ensures FlowRange(s, k, n, f) == []
  {
    if n > k {
      NoneOfFlow(s, k, n - 1, f);
    }
  }

  /** A queue that serves the flow has all its packets; another queue has none. */
  lemma {:induction false} FlowOfQueue(s: seq<Mbuf>, n: nat, f: nat, q: nat)
    requires n <= |s| && SteeredTo(s, f, q)
    ensures OfFlow(Filter(s, n, q), f) == FlowRange(s, 0, n, f)
  {
    if n > 0 {
      FlowOfQueue(s, n - 1, f, q);
      if s[n - 1].queue == q {
        FlowConcat(Filter(s, n - 1, q), [s[n - 1]], 1, f);
        assert FlowRange([s[n - 1]], 0, 1, f) == FlowRange([s[n - 1]], 0, 0, f) + (if s[n - 1].flow == f then [s[n - 1]] else []);
      }
    }
  }

  lemma {:induction false} OtherQueue(s: seq<Mbuf>, n: nat, f: nat, q: nat, p: nat)
    requires n <= |s| && SteeredTo(s, f, q) && p != q
    ensures forall i :: 0 <= i < |Filter(s, n, p)| ==> Filter(s, n, p)[i].flow != f
  {
    if n > 0 {
      OtherQueue(s, n - 1, f, q, p);
    }
  }

  function Reversed(u: seq<Mbuf>): seq<Mbuf> {
    Backwards(u, |u|, 0)
  }

  lemma {:induction false} ReversedAppend(u: seq<Mbuf>, x: Mbuf)
    ensures Reversed(u + [x]) == [x] + Reversed(u)
  {
    var r, t := Reversed(u + [x]), [x] + Reversed(u);
    forall i | 0 <= i < |r| ensures r[i] == t[i] {
    }
  }

  lemma {:induction false} FlowOfBackwards(s: seq<Mbuf>, n: nat, k: nat, f: nat)
    requires k <= n <= |s|
    ensures OfFlow(Backwards(s, n, k), f) == Reversed(FlowRange(s, k, n, f))
  {
    if k < n {
      FlowOfBackwards(s, n - 1, k, f);
      var x, rest := s[n - 1], Backwards(s, n - 1, k);
      FlowConcat([x], rest, |rest|, f);
      assert OfFlow([x], f) == FlowRange([x], 0, 0, f) + (if x.flow == f then [x] else []);
      ReversedAppend(FlowRange(s, k, n - 1, f), x);
    }
  }

  // ---------------------------------------------------------------- what a call does to a flow

  lemma {:induction false} KeptOfFlow(s: seq<Mbuf>, n: nat, accepted: seq<nat>, f: nat, q: nat)
    requires SteeredTo(s, f, q)
    ensures OfFlow(Kept(s, n, accepted), f) == if q < n then Reversed(Unsent(s, q, accepted, f)) else []
  {
    if n > 0 {
      var before, last := Kept(s, n - 1, accepted), KeptOf(s, n - 1, accepted);
      KeptOfFlow(s, n - 1, accepted, f, q);
      FlowConcat(before, last, |last|, f);
      if n - 1 == q {
        FlowOfBackwards(OfQueue(s, q), |OfQueue(s, q)|, Taken(s, q, accepted), f);
      } else {
        OtherQueue(s, |s|, f, q, n - 1);
        NoneOfFlow(last, 0, |last|, f);
      }
    }
  }

  /** The unsent packets of a flow are the last ones of the flow in arrival order. */
  lemma {:induction false} UnsentIsSuffix(s: seq<Mbuf>, accepted: seq<nat>, f: nat, q: nat) returns (sent: seq<Mbuf>)
    requires SteeredTo(s, f, q)
    ensures OfFlow(s, f) == sent + Unsent(s, q, accepted, f)
  {
    var all, k := OfQueue(s, q), Taken(s, q, accepted);
    FlowOfQueue(s, |s|, f, q);
    RangeSplits(all, k, |all|, f);
    sent := FlowRange(all, 0, k, f);
  }

  predicate Occurs(s: seq<Mbuf>, n: nat, x: Mbuf)
    requires n <= |s|
  {
    exists i :: 0 <= i < n && s[i] == x
  }

  lemma {:induction false} FlowIsDistinct(s: seq<Mbuf>, n: nat, f: nat)
    requires AllDifferent(s) && n <= |s|
    ensures AllDifferent(FlowRange(s, 0, n, f))
    ensures forall i :: 0 <= i < |FlowRange(s, 0, n, f)| ==> Occurs(s, n, FlowRange(s, 0, n, f)[i])
  {
    if n > 0 {
      FlowIsDistinct(s, n - 1, f);
      var before := FlowRange(s, 0, n - 1, f);
      forall i | 0 <= i < |before| ensures Occurs(s, n, before[i]) && before[i] != s[n - 1] {
        assert Occurs(s, n - 1, before[i]);
      }
      assert s[n - 1] == s[n - 1] && Occurs(s, n, s[n - 1]);
    }
  }

  /** Order within a flow: after a call the packets of a flow that were left over stand in the window
      in their arrival order if and only if at most one of them was left over. */
  lemma {:induction false} FlowOrderSurvivesExactlyWhen(s: seq<Mbuf>, n: nat, accepted: seq<nat>, f: nat, q: nat)
    requires AllDifferent(s) && SteeredTo(s, f, q) && q < n
    ensures OfFlow(Kept(s, n, accepted), f) == Unsent(s, q, accepted, f) <==> |Unsent(s, q, accepted, f)| <= 1
  {
    var unsent := Unsent(s, q, accepted, f);
    KeptOfFlow(s, n, accepted, f, q);
    if |unsent| >= 2 {
      var sent := UnsentIsSuffix(s, accepted, f, q);
      FlowIsDistinct(s, |s|, f);
      var all := sent + unsent;
      assert all[|sent|] == unsent[0] && all[|all| - 1] == unsent[|unsent| - 1];
      assert Reversed(unsent)[0] == unsent[|unsent| - 1];
    }
  }

  /** A flow that is reversed: two of its packets, a queue that takes none. */
  lemma {:induction false} FlowReversed(a: nat, b: nat, f: nat)
    requires a != b
    ensures var s := [Mbuf(a, f, 0), Mbuf(b, f, 0)];
      OfFlow(s, f) == s && OfFlow(Kept(s, 1, []), f) == [s[1], s[0]]
  {
    var s := [Mbuf(a, f, 0), Mbuf(b, f, 0)];
    TwoOfFlow(s, f);
    var kept := Kept(s, 1, []);
    assert Kept(s, 0, []) == [];
    assert kept == KeptOf(s, 0, []);
    TwoOfFlow(kept, f);
  }

  /** Two flows that share a queue keep their order, although the queue is reversed. */
  lemma {:induction false} SharedQueueKeepsFlows(a: nat, b: nat, f: nat, g: nat)
    requires f != g
    ensures var s := [Mbuf(a, f, 0), Mbuf(b, g, 0)]; var kept := Kept(s, 1, []);
      && kept == [s[1], s[0]]
      && (forall h :: OfFlow(kept, h) == OfFlow(s, h))
  {
    var s := [Mbuf(a, f, 0), Mbuf(b, g, 0)];
    var kept := Kept(s, 1, []);
    assert Filter(s, 0, 0) == [] && Filter(s, 1, 0) == [s[0]] && OfQueue(s, 0) == s;
    assert Kept(s, 0, []) == [];
    assert kept == KeptOf(s, 0, []) == [s[1], s[0]];
    forall h ensures OfFlow(kept, h) == OfFlow(s, h) {
      FlowOfPair(s[0], s[1], h);
      FlowOfPair(s[1], s[0], h);
      assert s == [s[0], s[1]];
    }
  }

  lemma {:induction false} FlowOfPair(x: Mbuf, y: Mbuf, f: nat)
    ensures OfFlow([x, y], f) == (if x.flow == f then [x] else []) + (if y.flow == f then [y] else [])
  {
    var s := [x, y];
    assert FlowRange(s, 0, 0, f) == [];
    assert FlowRange(s, 0, 1, f) == if x.flow == f then [x] else [];
  }

  lemma {:induction false} TwoOfFlow(s: seq<Mbuf>, f: nat)
    requires |s| == 2 && s[0].flow == f && s[1].flow == f
    ensures OfFlow(s, f) == s
    ensures s[0].queue == 0 && s[1].queue == 0 ==> OfQueue(s, 0) == s
  {
    assert s == [s[0], s[1]];
    FlowOfPair(s[0], s[1], f);
    if s[0].queue == 0 && s[1].queue == 0 {
      assert Filter(s, 0, 0) == [] && Filter(s, 1, 0) == [s[0]];
    }
  }
}
