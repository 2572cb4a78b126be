/** Virtqueues of a relay: steering received packets over the enabled receive queues, and the round
    robin over the enabled transmit queues. Bitmaps are sets of bit positions below 64. */
module Queues {
  const MAX_MULTIQUEUE_PAIRS := 32

  // ---------------------------------------------------------------- increasing lists

  predicate Increasing(s: seq<nat>) {
    forall i, j :: 0 <= i < j < |s| ==> s[i] < s[j]
  }

  /** `s` is the increasing list of the elements of `bits`. */
  ghost predicate Lists(s: seq<nat>, bits: set<nat>) {
    Increasing(s) && forall x :: x in s <==> x in bits
  }

  lemma {:induction false} ListLength(s: seq<nat>, bits: set<nat>)
    requires Lists(s, bits)
    ensures |s| == |bits|
    decreases |s|
  {
    if |s| > 0 {
      var n := |s| - 1;
      var x := s[n];
      assert x in s;
      forall y ensures y in s[..n] <==> y in bits - {x} {
        if y in bits - {x} {
          assert y in s;
        }
        if y in s[..n] {
          assert y in s;
        }
      }
      ListLength(s[..n], bits - {x});
    } else {
      forall x | x in bits ensures false {
        var _ := x in s;
      }
      assert bits == {};
    }
  }

  lemma {:induction false} AtLeastIndex(s: seq<nat>, i: nat)
    requires Increasing(s) && i < |s|
    ensures s[i] >= i
  {
    if i > 0 {
      AtLeastIndex(s, i - 1);
    }
  }

  /** All entries are below the length exactly when the list is 0, 1, 2, ... */
  lemma {:induction false} BelowLengthExactlyWhen(s: seq<nat>)
    requires Increasing(s)
    ensures (forall i :: 0 <= i < |s| ==> s[i] < |s|) <==> (forall i :: 0 <= i < |s| ==> s[i] == i)
  {
    if forall i :: 0 <= i < |s| ==> s[i] < |s| {
      forall i | 0 <= i < |s| ensures s[i] == i {
        AtLeastIndex(s, i);
        RoomAbove(s, i);
      }
    }
  }

  lemma {:induction false} RoomAbove(s: seq<nat>, i: nat)
    requires Increasing(s) && i < |s| && s[|s| - 1] < |s|
    ensures s[i] <= i
    decreases |s| - i
  {
    if i + 1 < |s| {
      RoomAbove(s, i + 1);
    }
  }

  lemma {:induction false} AppendIncreasing(s: seq<nat>, v: nat)
    requires Increasing(s) && forall x :: x in s ==> x < v
    ensures Increasing(s + [v])
  {
    forall i | 0 <= i < |s| ensures s[i] < v {
      assert s[i] in s;
    }
  }

  // ---------------------------------------------------------------- steering

  /** Bitwise and. */
  function And(a: nat, b: nat): nat {
    if a == 0 || b == 0 then 0 else 2 * And(a / 2, b / 2) + (if a % 2 == 1 && b % 2 == 1 then 1 else 0)
  }

  /** 1, 2, 4, 8, ... */
  predicate PowerOfTwo(n: nat) {
    n == 1 || (n > 0 && n % 2 == 0 && PowerOfTwo(n / 2))
  }

  lemma {:induction false} AndSelf(a: nat)
    ensures And(a, a) == a
  {
    if a > 0 {
      AndSelf(a / 2);
    }
  }

  /** The test on the number of queues: n & (n - 1) is zero exactly for the powers of two. */
  lemma {:induction false} PowerOfTwoTest(n: nat)
    requires n > 0
    ensures And(n, n - 1) == 0 <==> PowerOfTwo(n)
  {
    if n % 2 == 0 {
      assert (n - 1) / 2 == n / 2 - 1;
      PowerOfTwoTest(n / 2);
    } else if n > 1 {
      assert (n - 1) / 2 == n / 2;
      AndSelf(n / 2);
    }
  }

  lemma {:induction false} MultiplesApart(n: nat, a: nat, b: nat)
    requires a < b
    ensures n * a + n <= n * b
  {
    if a + 1 < b {
      MultiplesApart(n, a, b - 1);
    }
  }

  lemma {:induction false} RemainderIsUnique(h: nat, n: nat, q: nat, r: nat)
    requires n > 0 && h == n * q + r && r < n
    ensures h % n == r
  {
    if q < h / n {
      MultiplesApart(n, q, h / n);
    } else if q > h / n {
      MultiplesApart(n, h / n, q);
    }
  }

  lemma {:induction false} HalfRemainder(h: nat, m: nat)
    requires m > 0
    ensures h % (2 * m) == 2 * ((h / 2) % m) + h % 2
  {
    var q, r := (h / 2) / m, (h / 2) % m;
    assert h / 2 == m * q + r;
    assert 2 * (m * q) == (2 * m) * q;
    RemainderIsUnique(h, 2 * m, q, 2 * r + h % 2);
  }

  /** For a power of two the cheap form of the remainder is right. */
  lemma {:induction false} MaskIsModulo(h: nat, n: nat)
    requires PowerOfTwo(n)
    ensures And(h, n - 1) == h % n
  {
    if n > 1 {
      MaskIsModulo(h / 2, n / 2);
      HalfRemainder(h, n / 2);
      assert (n - 1) / 2 == n / 2 - 1 && (n - 1) % 2 == 1 && n == 2 * (n / 2);
    }
  }

  /** Index into the lookup table, as calc_mbuf_queue computes it. */
  function Slot(h: nat, active: nat, pow2: bool): nat
    requires active > 0
  {
    if pow2 then And(h, active - 1) else h % active
  }

  /** Both forms of the index agree and are in range. */
  lemma {:induction false} SlotIsRemainder(h: nat, n: nat, pow2: bool)
    requires n > 0 && (pow2 <==> And(n, n - 1) == 0)
    ensures Slot(h, n, pow2) == h % n < n
  {
    PowerOfTwoTest(n);
    if pow2 {
      MaskIsModulo(h, n);
    }
  }

  lemma {:induction false} SmallSlot(h: nat, n: nat, pow2: bool)
    requires h < n && (pow2 <==> And(n, n - 1) == 0)
    ensures Slot(h, n, pow2) == h
  {
    SlotIsRemainder(h, n, pow2);
    RemainderIsUnique(h, n, 0, h);
  }

  class SteeringTable {
    var rxBits: set<nat>
    var txBits: set<nat>
    var rxActive: nat
    var pow2queues: bool
    const lut: array<nat>
    /** The entries of the table that are in use. */
    ghost var entries: seq<nat>

    ghost predicate Valid()
      reads this, lut
    {
      && lut.Length == MAX_MULTIQUEUE_PAIRS
      && (forall b :: b in rxBits || b in txBits ==> b < 64)
      && rxActive == |rxBits| <= 64
      && (pow2queues <==> rxActive == 0 || And(rxActive, rxActive - 1) == 0)
      && |entries| <= lut.Length && (forall i :: 0 <= i < |entries| ==> lut[i] == entries[i])
      && Lists(entries, Low(rxBits))
    }

    constructor ()
      ensures Valid() && rxBits == {} && txBits == {} && fresh(lut)
    {
      rxBits, txBits, rxActive, pow2queues, entries := {}, {}, 0, true, [];
      lut := new nat[MAX_MULTIQUEUE_PAIRS](_ => 0);
    }

    /** vring_state_change: even queue numbers receive, odd ones transmit. The table is filled from a
        copy of the bitmap cut to 32 bits, while the count is taken over all 64. */
    method VringStateChange(queueId: nat, enable: bool)
      requires Valid() && queueId < 128
      modifies this, lut
      ensures Valid()
      ensures rxBits == if queueId % 2 == 1 then old(rxBits) else WithBit(old(rxBits), queueId / 2, enable)
      ensures txBits == if queueId % 2 == 0 then old(txBits) else WithBit(old(txBits), queueId / 2, enable)
    {
      if queueId % 2 == 1 {
        txBits := WithBit(txBits, queueId / 2, enable);
      } else {
        rxBits := WithBit(rxBits, queueId / 2, enable);
      }
      CardinalityBelow(rxBits, 64);
      rxActive := |rxBits|;
      pow2queues := rxActive == 0 || And(rxActive, rxActive - 1) == 0;
      FillTable();
    }

    /** The loop that lists the set bits, lowest first. */
    method FillTable()
      requires lut.Length == MAX_MULTIQUEUE_PAIRS
      modifies this`entries, lut
      ensures |entries| <= lut.Length && (forall i :: 0 <= i < |entries| ==> lut[i] == entries[i])
      ensures Lists(entries, Low(rxBits))
    {
      entries := [];
      var bmp, idx := Low(rxBits), 0;
      while bmp != {}
        invariant bmp <= Low(rxBits) && idx == |entries| && |entries| + |bmp| == |Low(rxBits)| <= lut.Length
        invariant Increasing(entries) && forall i :: 0 <= i < |entries| ==> lut[i] == entries[i]
        invariant forall x :: x in entries <==> x in Low(rxBits) - bmp
        invariant forall x, y :: x in entries && y in bmp ==> x < y
        decreases |bmp|
      {
        var val := FirstSet(bmp, 0, 32);
        AppendIncreasing(entries, val);
        bmp := bmp - {val};
        lut[idx] := val;
        idx := idx + 1;
        entries := entries + [val];
      }
    }
  }

  function WithBit(bits: set<nat>, bit: nat, enable: bool): (r: set<nat>)
    ensures forall b :: b in r <==> if b == bit then enable else b in bits
  {
    if enable then bits + {bit} else bits - {bit}
  }

  /** The bits that survive the conversion to a 32-bit unsigned. */
  function Low(bits: set<nat>): (r: set<nat>)
    ensures |r| <= MAX_MULTIQUEUE_PAIRS
  {
    var r := set b | b in bits && b < 32;
    CardinalityBelow(r, 32);
    r
  }

  lemma {:induction false} CardinalityBelow(bits: set<nat>, n: nat)
    requires forall b :: b in bits ==> b < n
    ensures |bits| <= n
  {
    if n > 0 {
      CardinalityBelow(bits - {n - 1}, n - 1);
    } else {
      assert bits == {};
    }
  }

  /** ffs: the lowest set bit, looked for from `i` on. */
  function FirstSet(bits: set<nat>, i: nat, n: nat): (m: nat)
    requires bits != {} && forall b :: b in bits ==> i <= b < n
    ensures m in bits && forall b :: b in bits ==> m <= b
    decreases n - i
  {
    if i in bits then i
    else
      assert i < n by {
        var b :| b in bits;
      }
      FirstSet(bits, i + 1, n)
  }

  /** The table lists the enabled queues exactly when none of them is above 31. */
  lemma {:induction false} TableListsBitmapExactlyWhen(entries: seq<nat>, bits: set<nat>)
    requires Lists(entries, Low(bits))
    ensures |entries| == |bits| && Lists(entries, bits) <==> forall b :: b in bits ==> b < 32
  {
    if forall b :: b in bits ==> b < 32 {
      assert Low(bits) == bits;
      ListLength(entries, bits);
    }
  }

  predicate Reaches(entries: seq<nat>, pow2: bool, h: nat, q: nat) {
    && |entries| > 0 && Slot(h, |entries|, pow2) < |entries|
    && entries[Slot(h, |entries|, pow2)] == q
  }

  /** With the enabled queues listed in the table, every hash lands on an enabled queue, whichever
      form computes the index. */
  lemma {:induction false} HashLandsOnEnabledQueue(entries: seq<nat>, bits: set<nat>, pow2: bool, h: nat) returns (q: nat)
    requires Lists(entries, bits) && |entries| > 0 && (pow2 <==> And(|entries|, |entries| - 1) == 0)
    ensures q in bits && q == entries[h % |entries|] && Reaches(entries, pow2, h, q)
  {
    SlotIsRemainder(h, |entries|, pow2);
    q := entries[h % |entries|];
    assert q in entries;
  }

  /** And every enabled queue is reached. */
  lemma {:induction false} EnabledQueueIsReached(entries: seq<nat>, bits: set<nat>, pow2: bool, q: nat) returns (h: nat)
    requires Lists(entries, bits) && q in bits && (pow2 <==> |entries| == 0 || And(|entries|, |entries| - 1) == 0)
    ensures h < |entries| && Reaches(entries, pow2, h, q)
  {
    assert q in entries;
    h :| h < |entries| && entries[h] == q;
    SmallSlot(h, |entries|, pow2);
  }

  /** Packets steered under one bitmap may be sent under another, after vring changes. virtio_tx uses
      their queue numbers as indices into arrays of as many elements as queues are enabled by then: every
      hash stays inside them exactly when all queues of the first bitmap are below that number. */
  lemma {:induction false} KeptQueueNumbersFitExactlyWhen(entries: seq<nat>, bits: set<nat>, pow2: bool, active: nat)
    requires Lists(entries, bits) && |entries| > 0 && (pow2 <==> And(|entries|, |entries| - 1) == 0)
    ensures (forall h: nat, q: nat :: Reaches(entries, pow2, h, q) ==> q < active) <==> (forall q: nat :: q in bits ==> q < active)
  {
    if forall h: nat, q: nat :: Reaches(entries, pow2, h, q) ==> q < active {
      forall q: nat | q in bits ensures q < active {
        var h := EnabledQueueIsReached(entries, bits, pow2, q);
      }
    }
    if forall q: nat :: q in bits ==> q < active {
      forall h: nat, q: nat | Reaches(entries, pow2, h, q) ensures q < active {
        assert q in entries;
      }
    }
  }

  /** Sent under the bitmap they were steered under, they fit exactly when the enabled queues are
      0, 1, 2, ... without a gap. */
  lemma {:induction false} QueueNumbersFitExactlyWhen(entries: seq<nat>, bits: set<nat>, pow2: bool)
    requires Lists(entries, bits) && |entries| > 0 && (pow2 <==> And(|entries|, |entries| - 1) == 0)
    ensures (forall h: nat, q: nat :: Reaches(entries, pow2, h, q) ==> q < |entries|)
            <==> (forall q: nat :: q in bits <==> q < |entries|)
  {
    KeptQueueNumbersFitExactlyWhen(entries, bits, pow2, |entries|);
    BelowLengthExactlyWhen(entries);
    if forall q: nat :: q in bits ==> q < |entries| {
      forall i | 0 <= i < |entries| ensures entries[i] < |entries| {
        assert entries[i] in entries;
      }
      forall q: nat ensures q in bits <==> q < |entries| {
        assert q < |entries| ==> entries[q] == q;
        assert q in entries <==> q in bits;
      }
    }
  }

  /** Disabling any queue breaks it for a full table without a gap: the last queue number is the number
      of queues that remain. */
  lemma {:induction false} DisablingAQueueMissesKeptPackets(entries: seq<nat>, bits: set<nat>, pow2: bool, b: nat) returns (h: nat)
    requires Lists(entries, bits) && |entries| > 0 && (pow2 <==> And(|entries|, |entries| - 1) == 0)
    requires (forall q: nat :: q in bits <==> q < |entries|) && b in bits
    ensures Reaches(entries, pow2, h, |bits - {b}|)
  {
    ListLength(entries, bits);
    h := EnabledQueueIsReached(entries, bits, pow2, |entries| - 1);
  }

  // ---------------------------------------------------------------- round robin over transmit queues

  /** The queue numbers in use: the VM may announce no queue pair at all. */
  function Limit(maxQueuePairs: nat): nat {
    if maxQueuePairs == 0 then 1 else maxQueuePairs
  }

  /** The first enabled queue from `i` on, or `n`. */
  function NextUp(bits: set<nat>, i: nat, n: nat): (r: nat)
    requires i <= n
    ensures i <= r <= n && (r < n ==> r in bits) && forall q :: i <= q < r ==> q !in bits
    decreases n - i
  {
    if i == n || i in bits then i else NextUp(bits, i + 1, n)
  }

  /** The cyclically next enabled queue after `rr`. */
  function CyclicNext(bits: set<nat>, rr: nat, n: nat): nat
    requires rr < n
  {
    var up := NextUp(bits, rr + 1, n);
    if up < n then up else NextUp(bits, 0, n)
  }

  function Increment(rr: nat, n: nat): nat {
    if rr + 1 >= n then 0 else rr + 1
  }

  function Increments(rr: nat, n: nat, k: nat): nat {
    if k == 0 then rr else Increment(Increments(rr, n, k - 1), n)
  }

  lemma {:induction false} IncrementsStayBelow(rr: nat, max: nat, k: nat)
    requires rr < Limit(max)
    ensures Increments(rr, max, k) < Limit(max)
  {
    if k > 0 {
      IncrementsStayBelow(rr, max, k - 1);
    }
  }

  /** Without an enabled queue below the limit the search never ends. */
  lemma {:induction false} SearchSpinsForever(bits: set<nat>, rr: nat, max: nat, k: nat)
    requires rr < Limit(max) && forall q :: q in bits ==> q >= Limit(max)
    ensures Increments(rr, max, k) !in bits
  {
    IncrementsStayBelow(rr, max, k);
  }

  /** The search at the end of virtio_rx: with an enabled queue below the limit it ends within as many
      steps as there are queues, at the cyclically next enabled one. */
  method AdvanceTxQueue(bits: set<nat>, rr: nat, max: nat) returns (next: nat, steps: nat)
    requires rr < Limit(max) && exists q :: q in bits && q < Limit(max)
    ensures next == CyclicNext(bits, rr, Limit(max)) && next in bits && next < Limit(max)
    ensures 1 <= steps <= Limit(max) && next == Increments(rr, max, steps)
  {
    ghost var n := Limit(max);
    next, steps := Increment(rr, max), 1;
    ghost var wrapped := rr + 1 >= n;
    while next !in bits
      invariant next < n && 1 <= steps <= n && next == Increments(rr, max, steps)
      invariant !wrapped ==> next == rr + steps && NextUp(bits, rr + 1, n) == NextUp(bits, next, n)
      invariant wrapped ==> steps == n - rr + next && next <= rr && NextUp(bits, rr + 1, n) == n && NextUp(bits, 0, n) == NextUp(bits, next, n)
      decreases n - steps
    {
      assert wrapped ==> next != rr;
      if next + 1 >= max {
        wrapped := true;
      }
      next := Increment(next, max);
      steps := steps + 1;
    }
  }

  /** Position of the queue after `k` calls of virtio_rx. */
  function After(bits: set<nat>, rr: nat, n: nat, k: nat): nat
    requires rr < n
    decreases k
  {
    if k == 0 then rr
    else
      var before := After(bits, rr, n, k - 1);
      if before < n then CyclicNext(bits, before, n) else before
  }

  /** The list of the enabled queues below `n`. */
  ghost predicate ListsBelow(s: seq<nat>, bits: set<nat>, n: nat) {
    Increasing(s) && forall q :: q in s <==> q in bits && q < n
  }

  lemma {:induction false} NextUpIs(bits: set<nat>, i: nat, n: nat, r: nat)
    requires i <= r <= n && (r < n ==> r in bits) && forall q :: i <= q < r ==> q !in bits
    ensures NextUp(bits, i, n) == r
  {
  }

  /** From entry `i` of the list the round robin moves to entry `i + 1`, and from the last to the first. */
  lemma {:induction false} NextInList(s: seq<nat>, bits: set<nat>, n: nat, i: nat)
    requires ListsBelow(s, bits, n) && i < |s|
    ensures s[i] < n && CyclicNext(bits, s[i], n) == if i + 1 < |s| then s[i + 1] else s[0]
  {
    assert s[i] in s && s[0] in s;
    forall q | q in bits && q < n ensures exists j :: 0 <= j < |s| && s[j] == q {
      assert q in s;
    }
    if i + 1 < |s| {
      assert s[i + 1] in s;
      NextUpIs(bits, s[i] + 1, n, s[i + 1]);
    } else {
      NextUpIs(bits, s[i] + 1, n, n);
      NextUpIs(bits, 0, n, s[0]);
    }
  }

  /** Index `k` entries further in a list of `m`, cyclically. */
  function Walk(i: nat, m: nat, k: nat): (r: nat)
    requires i < m
    ensures r < m
  {
    if k == 0 then i
    else
      var j := Walk(i, m, k - 1);
      if j + 1 < m then j + 1 else 0
  }

  lemma {:induction false} AfterInList(s: seq<nat>, bits: set<nat>, n: nat, i: nat, k: nat)
    requires ListsBelow(s, bits, n) && i < |s|
    ensures s[i] < n && After(bits, s[i], n, k) == s[Walk(i, |s|, k)]
  {
    assert s[i] in s;
    if k > 0 {
      AfterInList(s, bits, n, i, k - 1);
      NextInList(s, bits, n, Walk(i, |s|, k - 1));
    }
  }

  lemma {:induction false} WalkFurther(i: nat, m: nat, start: nat, d: nat)
    requires i < m && d < m
    ensures var a := Walk(i, m, start);
      Walk(i, m, start + d) == if a + d < m then a + d else a + d - m
  {
    if d > 0 {
      WalkFurther(i, m, start, d - 1);
    }
  }

  function Shift(a: nat, d: nat, m: nat): (r: nat)
    requires a < m && d < m
    ensures r < m
  {
    if a + d < m then a + d else a + d - m
  }

  lemma {:induction false} PolledAt(s: seq<nat>, bits: set<nat>, n: nat, i: nat, start: nat, d: nat)
    requires ListsBelow(s, bits, n) && i < |s| && d < |s|
    ensures s[i] < n && After(bits, s[i], n, start + d) == s[Shift(Walk(i, |s|, start), d, |s|)]
  {
    AfterInList(s, bits, n, i, start + d);
    WalkFurther(i, |s|, start, d);
  }

  /** Call number `k` polls queue `q`. */
  predicate Polls(bits: set<nat>, rr: nat, n: nat, k: nat, q: nat) {
    rr < n && After(bits, rr, n, k) == q
  }

  lemma {:induction false} PolledOnlyThen(s: seq<nat>, bits: set<nat>, n: nat, i: nat, t: nat, start: nat, d: nat)
    requires ListsBelow(s, bits, n) && i < |s| && t < |s| && d < |s|
    ensures Polls(bits, s[i], n, start + d, s[t]) <==> Shift(Walk(i, |s|, start), d, |s|) == t
  {
    PolledAt(s, bits, n, i, start, d);
  }

  /** Fairness: once the index is on an enabled queue and the bitmap stays as it is, every enabled
      queue is polled exactly once in any `|s|` consecutive calls. */
  lemma {:induction false} RoundRobinIsFair(s: seq<nat>, bits: set<nat>, n: nat, i: nat, t: nat, start: nat) returns (k: nat)
    requires ListsBelow(s, bits, n) && i < |s| && t < |s|
    ensures start <= k < start + |s| && Polls(bits, s[i], n, k, s[t])
    ensures forall j: nat :: start <= j < start + |s| && Polls(bits, s[i], n, j, s[t]) ==> j == k
  {
    var a := Walk(i, |s|, start);
    var d := if t >= a then t - a else t + |s| - a;
    k := start + d;
    PolledOnlyThen(s, bits, n, i, t, start, d);
    forall j: nat | start <= j < start + |s| && Polls(bits, s[i], n, j, s[t]) ensures j == k {
      PolledOnlyThen(s, bits, n, i, t, start, j - start);
    }
  }
}
