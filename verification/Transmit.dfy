/** Splitting a window of received packets over the VM's receive queues, as `virtio_tx` does. */
module Transmit {

  /** A packet buffer; `flow` is the hash of its headers, and `queue` the receive queue chosen by it. */
  datatype Mbuf = Mbuf(id: nat, flow: nat, queue: nat)

  function Min(a: nat, b: nat): nat { if a < b then a else b }

  /** Those of the first `n` packets that go to queue `q`, in arrival order. */
  function Filter(s: seq<Mbuf>, n: nat, q: nat): seq<Mbuf>
    requires n <= |s|
  {
    if n == 0 then []
    else if s[n - 1].queue == q then Filter(s, n - 1, q) + [s[n - 1]]
    else Filter(s, n - 1, q)
  }

  function OfQueue(s: seq<Mbuf>, q: nat): seq<Mbuf> {
    Filter(s, |s|, q)
  }

  /** Items n-1 down to k. */
  function Backwards<T>(s: seq<T>, n: nat, k: nat): (r: seq<T>)
    requires n <= |s|
    ensures |r| == if n <= k then 0 else n - k
    ensures forall i :: 0 <= i < |r| ==> r[i] == s[n - 1 - i]
  {
    if n <= k then [] else [s[n - 1]] + Backwards(s, n - 1, k)
  }

  /** The items from index `k` on. */
  function Suffix<T>(s: seq<T>, k: nat): (r: seq<T>)
    requires k <= |s|
    ensures |r| == |s| - k && forall i :: 0 <= i < |r| ==> r[i] == s[k + i]
  {
    seq(|s| - k, i requires 0 <= i < |s| - k => s[k + i])
  }

  /** How many packets queue `q` takes when its ring accepts up to `accepted[q]`. */
  function Taken(s: seq<Mbuf>, q: nat, accepted: seq<nat>): (k: nat)
    ensures k <= |OfQueue(s, q)|
  {
    if q < |accepted| then Min(accepted[q], |OfQueue(s, q)|) else 0
  }

  /** Sent on queue `q`: a prefix of its packets in arrival order. */
  function SentOf(s: seq<Mbuf>, q: nat, accepted: seq<nat>): seq<Mbuf> {
    OfQueue(s, q)[..Taken(s, q, accepted)]
  }

  /** Kept for queue `q`: the packets it did not take, back to front. */
  function KeptOf(s: seq<Mbuf>, q: nat, accepted: seq<nat>): seq<Mbuf> {
    Backwards(OfQueue(s, q), |OfQueue(s, q)|, Taken(s, q, accepted))
  }

  /** Everything sent on queues 0..n-1, queue by queue. */
  function Sent(s: seq<Mbuf>, n: nat, accepted: seq<nat>): seq<Mbuf> {
    if n == 0 then [] else Sent(s, n - 1, accepted) + SentOf(s, n - 1, accepted)
  }

  /** The window after the call: unsent packets, queue by queue, each queue back to front. */
  function Kept(s: seq<Mbuf>, n: nat, accepted: seq<nat>): seq<Mbuf> {
    if n == 0 then [] else Kept(s, n - 1, accepted) + KeptOf(s, n - 1, accepted)
  }

  ghost predicate QueuesBelow(s: seq<Mbuf>, n: nat) {
    forall i :: 0 <= i < |s| ==> s[i].queue < n
  }

  ghost predicate AllDifferent<T>(s: seq<T>) {
    forall i, j :: 0 <= i < j < |s| ==> s[i] != s[j]
  }

  // ---------------------------------------------------------------- counting

  /** How often `x` occurs among the first `n` items. */
  function CountIn<T(==)>(s: seq<T>, n: nat, x: T): nat
    requires n <= |s|
  {
    if n == 0 then 0 else CountIn(s, n - 1, x) + (if s[n - 1] == x then 1 else 0)
  }

  function Count<T(==)>(s: seq<T>, x: T): nat {
    CountIn(s, |s|, x)
  }

  lemma {:induction false} CountPrefix<T>(s: seq<T>, t: seq<T>, n: nat, x: T)
    requires n <= |s| && n <= |t| && forall i :: 0 <= i < n ==> s[i] == t[i]
    ensures CountIn(s, n, x) == CountIn(t, n, x)
  {
    if n > 0 {
      CountPrefix(s, t, n - 1, x);
    }
  }

  lemma {:induction false} CountConcatIn<T>(s: seq<T>, t: seq<T>, n: nat, x: T)
    requires n <= |t|
    ensures CountIn(s + t, |s| + n, x) == Count(s, x) + CountIn(t, n, x)
  {
    if n == 0 {
      CountPrefix(s + t, s, |s|, x);
    } else {
      CountConcatIn(s, t, n - 1, x);
      assert (s + t)[|s| + n - 1] == t[n - 1];
    }
  }

  lemma {:induction false} CountConcat<T>(s: seq<T>, t: seq<T>, x: T)
    ensures Count(s + t, x) == Count(s, x) + Count(t, x)
  {
    CountConcatIn(s, t, |t|, x);
  }

  lemma {:induction false} CountBackwards<T>(s: seq<T>, n: nat, k: nat, x: T)
    requires k <= n <= |s|
    ensures CountIn(s, k, x) + Count(Backwards(s, n, k), x) == CountIn(s, n, x)
  {
    if k < n {
      CountBackwards(s, n - 1, k, x);
      CountConcat([s[n - 1]], Backwards(s, n - 1, k), x);
      assert Count([s[n - 1]], x) == CountIn([s[n - 1]], 0, x) + (if s[n - 1] == x then 1 else 0);
    }
  }

  lemma {:induction false} CountSlices<T>(s: seq<T>, k: nat, x: T)
    requires k <= |s|
    ensures Count(s[..k], x) == CountIn(s, k, x)
    ensures Count(s[..k], x) + Count(Suffix(s, k), x) == Count(s, x)
  {
    CountPrefix(s[..k], s, k, x);
    CountConcat(s[..k], Suffix(s, k), x);
    assert s[..k] + Suffix(s, k) == s;
  }

  // ---------------------------------------------------------------- conservation

  /** Occurrences of `x` in queues 0..n-1 of the first `k` packets. */
  function CountInQueues(s: seq<Mbuf>, k: nat, n: nat, x: Mbuf): nat
    requires k <= |s|
  {
    if n == 0 then 0 else CountInQueues(s, k, n - 1, x) + Count(Filter(s, k, n - 1), x)
  }

  lemma {:induction false} CountAppend<T>(s: seq<T>, y: T, x: T)
    ensures Count(s + [y], x) == Count(s, x) + (if y == x then 1 else 0)
  {
    CountConcat(s, [y], x);
    assert Count([y], x) == CountIn([y], 0, x) + (if y == x then 1 else 0);
  }

  lemma {:induction false} OneMorePacket(s: seq<Mbuf>, k: nat, n: nat, x: Mbuf)
    requires k < |s|
    ensures CountInQueues(s, k + 1, n, x)
            == CountInQueues(s, k, n, x) + (if s[k].queue < n && s[k] == x then 1 else 0)
  {
    if n > 0 {
      OneMorePacket(s, k, n - 1, x);
      CountAppend(Filter(s, k, n - 1), s[k], x);
    }
  }

  lemma {:induction false} NothingQueued(s: seq<Mbuf>, n: nat, x: Mbuf)
    ensures CountInQueues(s, 0, n, x) == 0
  {
    if n > 0 {
      NothingQueued(s, n - 1, x);
    }
  }

  /** The queues share out the window: every packet is in exactly one of them. */
  lemma {:induction false} QueuesPartition(s: seq<Mbuf>, k: nat, n: nat, x: Mbuf)
    requires k <= |s| && QueuesBelow(s, n)
    ensures CountInQueues(s, k, n, x) == CountIn(s, k, x)
  {
    if k == 0 {
      NothingQueued(s, n, x);
    } else {
      QueuesPartition(s, k - 1, n, x);
      OneMorePacket(s, k - 1, n, x);
    }
  }

  lemma {:induction false} SentPlusKept(s: seq<Mbuf>, n: nat, accepted: seq<nat>, x: Mbuf)
    ensures Count(Sent(s, n, accepted), x) + Count(Kept(s, n, accepted), x) == CountInQueues(s, |s|, n, x)
  {
    if n > 0 {
      var all, k := OfQueue(s, n - 1), Taken(s, n - 1, accepted);
      SentPlusKept(s, n - 1, accepted, x);
      CountConcat(Sent(s, n - 1, accepted), SentOf(s, n - 1, accepted), x);
      CountConcat(Kept(s, n - 1, accepted), KeptOf(s, n - 1, accepted), x);
      CountSlices(all, k, x);
      CountBackwards(all, |all|, k, x);
    }
  }

  /** Sizes of the queues 0..n-1. */
  function SizeOfQueues(s: seq<Mbuf>, k: nat, n: nat): nat
    requires k <= |s|
  {
    if n == 0 then 0 else SizeOfQueues(s, k, n - 1) + |Filter(s, k, n - 1)|
  }

  lemma {:induction false} SizeOfNothing(s: seq<Mbuf>, n: nat)
    ensures SizeOfQueues(s, 0, n) == 0
  {
    if n > 0 {
      SizeOfNothing(s, n - 1);
    }
  }

  lemma {:induction false} SizeOneMore(s: seq<Mbuf>, k: nat, n: nat)
    requires k < |s|
    ensures SizeOfQueues(s, k + 1, n) == SizeOfQueues(s, k, n) + (if s[k].queue < n then 1 else 0)
  {
    if n > 0 {
      SizeOneMore(s, k, n - 1);
    }
  }

  lemma {:induction false} SizePartition(s: seq<Mbuf>, k: nat, n: nat)
    requires k <= |s| && QueuesBelow(s, n)
    ensures SizeOfQueues(s, k, n) == k
  {
    if k == 0 {
      SizeOfNothing(s, n);
    } else {
      SizePartition(s, k - 1, n);
      SizeOneMore(s, k - 1, n);
    }
  }

  lemma {:induction false} SentPlusKeptSize(s: seq<Mbuf>, n: nat, accepted: seq<nat>)
    ensures |Sent(s, n, accepted)| + |Kept(s, n, accepted)| == SizeOfQueues(s, |s|, n)
  {
    if n > 0 {
      SentPlusKeptSize(s, n - 1, accepted);
    }
  }

  /** Whatever each ring accepts, nothing is lost or duplicated: every packet occurs as often among
      the sent and the kept ones together as it did in the window. */
  lemma {:induction false} TransmitConserves(s: seq<Mbuf>, n: nat, accepted: seq<nat>, x: Mbuf)
    requires QueuesBelow(s, n)
    ensures Count(Sent(s, n, accepted), x) + Count(Kept(s, n, accepted), x) == Count(s, x)
    ensures |Sent(s, n, accepted)| + |Kept(s, n, accepted)| == |s|
  {
    SentPlusKept(s, n, accepted, x);
    QueuesPartition(s, |s|, n, x);
    SentPlusKeptSize(s, n, accepted);
    SizePartition(s, |s|, n);
  }

  lemma {:induction false} NothingToTransmit(s: seq<Mbuf>, n: nat, accepted: seq<nat>)
    requires |s| == 0
    ensures |Sent(s, n, accepted)| == 0 && |Kept(s, n, accepted)| == 0
  {
    if n > 0 {
      NothingToTransmit(s, n - 1, accepted);
    }
  }

  lemma {:induction false} KeptGrows(s: seq<Mbuf>, n: nat, m: nat, accepted: seq<nat>)
    requires n <= m
    ensures |Kept(s, n, accepted)| <= |Kept(s, m, accepted)|
  {
    if n < m {
      KeptGrows(s, n, m - 1, accepted);
    }
  }

  // ---------------------------------------------------------------- order within a queue

  lemma {:induction false} FilterMembers(s: seq<Mbuf>, n: nat, q: nat)
    requires n <= |s|
    ensures forall i :: 0 <= i < |Filter(s, n, q)| ==> Filter(s, n, q)[i].queue == q
  {
    if n > 0 {
      FilterMembers(s, n - 1, q);
    }
  }

  lemma {:induction false} FilterConcat(s: seq<Mbuf>, t: seq<Mbuf>, n: nat, q: nat)
    requires n <= |t|
    ensures Filter(s + t, |s| + n, q) == Filter(s, |s|, q) + Filter(t, n, q)
  {
    if n == 0 {
      FilterPrefix(s, t, |s|, q);
    } else {
      FilterConcat(s, t, n - 1, q);
      assert (s + t)[|s| + n - 1] == t[n - 1];
    }
  }

  lemma {:induction false} FilterPrefix(s: seq<Mbuf>, t: seq<Mbuf>, n: nat, q: nat)
    requires n <= |s|
    ensures Filter(s + t, n, q) == Filter(s, n, q)
  {
    if n > 0 {
      FilterPrefix(s, t, n - 1, q);
    }
  }

  /** Filtering packets that are all of one queue keeps all of them or none. */
  lemma {:induction false} FilterUniform(s: seq<Mbuf>, n: nat, q: nat, p: nat)
    requires n <= |s| && forall i :: 0 <= i < |s| ==> s[i].queue == p
    ensures Filter(s, n, q) == if p == q then s[..n] else []
  {
    if n > 0 {
      FilterUniform(s, n - 1, q, p);
      assert s[..n] == s[..n - 1] + [s[n - 1]];
    }
  }

  /** Appending packets that are all of queue `p`. */
  lemma {:induction false} AppendUniform(s: seq<Mbuf>, t: seq<Mbuf>, q: nat, p: nat)
    requires forall i :: 0 <= i < |t| ==> t[i].queue == p
    ensures OfQueue(s + t, q) == OfQueue(s, q) + (if p == q then t else [])
  {
    FilterConcat(s, t, |t|, q);
    FilterUniform(t, |t|, q, p);
    assert t[..|t|] == t;
  }

  lemma {:induction false} KeptOfQueue(s: seq<Mbuf>, n: nat, accepted: seq<nat>, q: nat)
    ensures OfQueue(Kept(s, n, accepted), q) == if q < n then KeptOf(s, q, accepted) else []
  {
    if n > 0 {
      KeptOfQueue(s, n - 1, accepted, q);
      FilterMembers(s, |s|, n - 1);
      AppendUniform(Kept(s, n - 1, accepted), KeptOf(s, n - 1, accepted), q, n - 1);
    }
  }

  /** What queue `q` gets is as many of its packets as its ring accepts, in arrival order. */
  lemma {:induction false} SentOfQueue(s: seq<Mbuf>, n: nat, accepted: seq<nat>, q: nat)
    ensures var all := OfQueue(s, q);
      var room := if q < |accepted| then accepted[q] else 0;
      OfQueue(Sent(s, n, accepted), q) == if q < n then all[..if room < |all| then room else |all|] else []
  {
    if n > 0 {
      SentOfQueue(s, n - 1, accepted, q);
      FilterMembers(s, |s|, n - 1);
      AppendUniform(Sent(s, n - 1, accepted), SentOf(s, n - 1, accepted), q, n - 1);
    }
  }

  // ---------------------------------------------------------------- the loops

  /** Batches the packets of the window by queue. */
  method Batch(pkts: seq<Mbuf>, n: nat) returns (queues: seq<seq<Mbuf>>)
    requires QueuesBelow(pkts, n)
    ensures |queues| == n && forall q :: 0 <= q < n ==> queues[q] == OfQueue(pkts, q)
  {
    queues := seq(n, _ => []);
    for i := 0 to |pkts|
      invariant |queues| == n && forall q :: 0 <= q < n ==> queues[q] == Filter(pkts, i, q)
    {
      var q := pkts[i].queue;
      queues := queues[q := queues[q] + [pkts[i]]];
    }
  }

  /** `s` is what the buffer holds from `at` on. */
  ghost predicate Holds(buf: array<Mbuf>, at: nat, s: seq<Mbuf>)
    reads buf
  {
    at + |s| <= buf.Length && forall i :: 0 <= i < |s| ==> buf[at + i] == s[i]
  }

  /** The multiqueue branch of `virtio_tx`: sends each batch and writes the unsent packets back to the
      start of the window; returns what was sent and how many are left. */
  method VirtioTxMultiqueue(buf: array<Mbuf>, used: nat, avail: nat, ghost window: seq<Mbuf>, n: nat, accepted: seq<nat>)
    returns (sent: seq<Mbuf>, k: nat)
    requires |window| == avail && Holds(buf, used, window) && QueuesBelow(window, n)
    modifies buf
    ensures sent == Sent(window, n, accepted)
    ensures k == |Kept(window, n, accepted)| <= avail && Holds(buf, used, Kept(window, n, accepted))
  {
    assert |Kept(window, n, accepted)| <= avail by { SentPlusKeptSize(window, n, accepted); SizePartition(window, avail, n); }
    var pkts := seq(avail, i requires 0 <= i < avail && used + avail <= buf.Length reads buf => buf[used + i]);
    assert pkts == window;
    var queues := Batch(pkts, n);
    sent, k := [], 0;
    for i := 0 to n
      invariant sent == Sent(window, i, accepted)
      invariant k == |Kept(window, i, accepted)| <= avail
      invariant Holds(buf, used, Kept(window, i, accepted))
    {
      var batch := queues[i];
      var taken := if i < |accepted| then Min(accepted[i], |batch|) else 0;
      sent := sent + batch[..taken];
      KeptGrows(window, i + 1, n, accepted);
      k := WriteBack(buf, used, k, Kept(window, i, accepted), batch, taken);
    }
  }

  /** Writes the packets of a batch from `taken` on behind the `k` packets already kept, last one first. */
  method WriteBack(buf: array<Mbuf>, used: nat, k: nat, ghost kept: seq<Mbuf>, batch: seq<Mbuf>, taken: nat)
    returns (k': nat)
    requires taken <= |batch| && k == |kept| && used + k + (|batch| - taken) <= buf.Length && Holds(buf, used, kept)
    modifies buf
    ensures k' == k + (|batch| - taken)
    ensures Holds(buf, used, kept + Backwards(batch, |batch|, taken))
  {
    ghost var back := Backwards(batch, |batch|, taken);
    var j := |batch|;
    k' := k;
    while j > taken
      invariant taken <= j <= |batch| && k' == k + (|batch| - j)
      invariant Holds(buf, used, kept)
      invariant forall i :: 0 <= i < |batch| - j ==> buf[used + k + i] == back[i]
    {
      j := j - 1;
      buf[used + k'] := batch[j];
      k' := k' + 1;
    }
    ghost var all := kept + back;
    forall i | 0 <= i < |all| ensures buf[used + i] == all[i] {
      if i >= k {
        assert buf[used + k + (i - k)] == back[i - k];
      }
    }
  }
}
