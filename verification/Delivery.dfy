/** What a worker step hands on and what it leaves, and in which order packets come out over whole runs. */
module Delivery {
  import opened Common
  import opened Transmit
  import opened RelayModel
  import opened RelayProperties

  // ---------------------------------------------------------------- one step

  /** What a step has to send: what was buffered, or else what it fetches from a source that is running. */
  function ToSend(window: seq<Mbuf>, burst: seq<Mbuf>, running: bool): seq<Mbuf> {
    if |window| == 0 && running then burst else window
  }

  /** The first `k` packets are handed on, the others stay, and the counter counts. */
  ghost predicate HandsOn(before: Lane, after: Lane, packets: seq<Mbuf>, k: nat) {
    && k <= |packets|
    && after.delivered == before.delivered + packets[..k] && after.window == packets[k..]
    && after.txCount == before.txCount + k
    && after.dropped == before.dropped && after.dropCount == before.dropCount
  }

  /** All packets are freed, and none is handed on. */
  ghost predicate ThrowsAway(before: Lane, after: Lane, packets: seq<Mbuf>) {
    && after.window == [] && after.delivered == before.delivered && after.txCount == before.txCount
    && after.dropCount == before.dropCount + |packets|
    && forall x :: Count(after.dropped, x) == Count(before.dropped, x) + Count(packets, x)
  }

  /** relay_vm2vf_traffic: a running VF takes as many packets as its ring has room for, from the front;
      without one everything is freed. With room for all, the window is empty afterwards. */
  lemma {:induction false} Vm2VfHandsOn(c: Ctl, l: Lane, burst: seq<Mbuf>, room: nat)
    ensures var packets := ToSend(l.window, burst, c.vio == VioReady);
      var after := Vm2VfLane(c, l, Vm2Vf(burst, room));
      if c.vf == VfReady then HandsOn(l, after, packets, if room < |packets| then room else |packets|)
      else ThrowsAway(l, after, packets)
  {
    var packets := ToSend(l.window, burst, c.vio == VioReady);
    var fetched := if c.vio == VioReady then Receive(l, burst) else l;
    assert fetched.window == packets;
    if c.vf == VfReady {
      var k := if room < |packets| then room else |packets|;
      assert Suffix(packets, k) == packets[k..];
    } else {
      DropThrowsAway(l, fetched, packets);
      NothingLeftToDrop(Drop(fetched));
    }
  }

  lemma {:induction false} DropThrowsAway(before: Lane, fetched: Lane, packets: seq<Mbuf>)
    requires fetched.window == packets && fetched.delivered == before.delivered && fetched.txCount == before.txCount
    requires fetched.dropped == before.dropped && fetched.dropCount == before.dropCount
    ensures ThrowsAway(before, Drop(fetched), packets)
  {
    forall x ensures Count(Drop(fetched).dropped, x) == Count(before.dropped, x) + Count(packets, x) {
      CountConcat(fetched.dropped, Backwards(packets, |packets|, 0), x);
      CountBackwards(packets, |packets|, 0, x);
    }
  }

  lemma {:induction false} NothingLeftToDrop(l: Lane)
    requires l.window == []
    ensures Drop(l) == l
  {
    assert l.dropped + [] == l.dropped;
  }

  /** relay_vf2vm_traffic with a single queue: a connected VM takes as many packets as its ring accepts, from
      the front; without one everything is freed. */
  lemma {:induction false} Vf2VmHandsOn(c: Ctl, l: Lane, burst: seq<Mbuf>, rxBits: set<nat>, accepted: seq<nat>)
    requires rxBits <= {0}
    ensures var packets := ToSend(l.window, burst, c.vf == VfReady);
      var room := if |accepted| == 0 then 0 else accepted[0];
      var after := Vf2VmLane(c, l, Vf2Vm(burst, rxBits, accepted));
      if c.vio == VioReady then HandsOn(l, after, packets, if room < |packets| then room else |packets|)
      else ThrowsAway(l, after, packets)
  {
    var packets := ToSend(l.window, burst, c.vf == VfReady);
    var fetched := if c.vf == VfReady then Receive(l, burst) else l;
    assert fetched.window == packets;
    assert rxBits - {0} == {};
    if c.vio == VioReady {
      var k := Accepted(accepted, |packets|);
      assert Suffix(packets, k) == packets[k..];
    } else {
      DropThrowsAway(l, fetched, packets);
      NothingLeftToDrop(Drop(fetched));
    }
  }

  /** With several queues each one takes as many of its packets as its ring accepts, in arrival order, and
      nothing is freed. */
  lemma {:induction false} Vf2VmHandsOnByQueue(c: Ctl, l: Lane, burst: seq<Mbuf>, rxBits: set<nat>, accepted: seq<nat>, q: nat)
    requires c.vio == VioReady && q < |rxBits| && (exists b :: b in rxBits && b > 0)
    ensures var packets := OfQueue(ToSend(l.window, burst, c.vf == VfReady), q);
      var room := if q < |accepted| then accepted[q] else 0;
      var after := Vf2VmLane(c, l, Vf2Vm(burst, rxBits, accepted));
      && |after.delivered| >= |l.delivered| && after.delivered[..|l.delivered|] == l.delivered
      && OfQueue(after.delivered[|l.delivered|..], q) == packets[..if room < |packets| then room else |packets|]
      && after.txCount - l.txCount == |after.delivered| - |l.delivered|
      && after.dropped == l.dropped
  {
    var b :| b in rxBits && b > 0;
    assert b in rxBits - {0};
    var fetched := if c.vf == VfReady then Receive(l, burst) else l;
    var packets := ToSend(l.window, burst, c.vf == VfReady);
    assert fetched.window == packets;
    var after := Vf2VmLane(c, l, Vf2Vm(burst, rxBits, accepted));
    var sent := Sent(packets, |rxBits|, accepted);
    assert after.delivered == l.delivered + sent;
    assert after.delivered[|l.delivered|..] == sent;
    SentOfQueue(packets, |rxBits|, accepted, q);
  }

  // ---------------------------------------------------------------- order over runs

  /** Those of the first `n` packets that are not among the freed ones. */
  function Surviving(s: seq<Mbuf>, n: nat, gone: seq<Mbuf>): seq<Mbuf>
    requires n <= |s|
  {
    if n == 0 then []
    else Surviving(s, n - 1, gone) + (if Count(gone, s[n - 1]) == 0 then [s[n - 1]] else [])
  }

  /** The packets that were handed on, followed by those in the window, are the received ones without the
      freed ones, in the order in which they were received. */
  ghost predicate InOrder(l: Lane) {
    && Surviving(l.received, |l.received|, l.dropped) == l.delivered + l.window
    && AllDifferent(l.received)
    && (forall x :: Count(l.dropped, x) > 0 ==> x in l.received)
  }

  lemma {:induction false} SurvivingPrefix(s: seq<Mbuf>, t: seq<Mbuf>, n: nat, gone: seq<Mbuf>)
    requires n <= |s|
    ensures Surviving(s + t, n, gone) == Surviving(s, n, gone)
  {
    if n > 0 {
      SurvivingPrefix(s, t, n - 1, gone);
    }
  }

  /** New packets survive. */
  lemma {:induction false} NewPacketsSurvive(s: seq<Mbuf>, t: seq<Mbuf>, n: nat, gone: seq<Mbuf>)
    requires n <= |t| && forall i :: 0 <= i < |t| ==> Count(gone, t[i]) == 0
    ensures Surviving(s + t, |s| + n, gone) == Surviving(s, |s|, gone) + t[..n]
  {
    if n == 0 {
      SurvivingPrefix(s, t, |s|, gone);
    } else {
      NewPacketsSurvive(s, t, n - 1, gone);
      assert (s + t)[|s| + n - 1] == t[n - 1];
      assert t[..n] == t[..n - 1] + [t[n - 1]];
    }
  }

  lemma {:induction false} OneMoreSurvivor(s: seq<Mbuf>, x: Mbuf, gone: seq<Mbuf>)
    ensures Surviving(s + [x], |s| + 1, gone) == Surviving(s, |s|, gone) + (if Count(gone, x) == 0 then [x] else [])
  {
    SurvivingPrefix(s, [x], |s|, gone);
    assert (s + [x])[|s|] == x;
  }

  /** Freeing more packets takes them out. */
  lemma {:induction false} MoreGone(s: seq<Mbuf>, n: nat, gone: seq<Mbuf>, more: seq<Mbuf>)
    requires n <= |s|
    ensures Surviving(s, n, gone + more) == Surviving(Surviving(s, n, gone), |Surviving(s, n, gone)|, more)
  {
    if n > 0 {
      var x, before := s[n - 1], Surviving(s, n - 1, gone);
      MoreGone(s, n - 1, gone, more);
      CountConcat(gone, more, x);
      if Count(gone, x) == 0 {
        assert Surviving(s, n, gone) == before + [x];
        OneMoreSurvivor(before, x, more);
      } else {
        assert Surviving(s, n, gone) == before + [] == before;
        assert Surviving(s, n, gone + more) == Surviving(s, n - 1, gone + more) + [] == Surviving(s, n - 1, gone + more);
      }
    }
  }

  lemma {:induction false} NoneGone(s: seq<Mbuf>, n: nat, gone: seq<Mbuf>)
    requires n <= |s| && forall i :: 0 <= i < |s| ==> Count(gone, s[i]) == 0
    ensures Surviving(s, n, gone) == s[..n]
  {
    if n > 0 {
      NoneGone(s, n - 1, gone);
      assert s[..n] == s[..n - 1] + [s[n - 1]];
    }
  }

  lemma {:induction false} AllGone(s: seq<Mbuf>, t: seq<Mbuf>, n: nat, gone: seq<Mbuf>)
    requires n <= |t| && forall i :: 0 <= i < |t| ==> Count(gone, t[i]) > 0
    ensures Surviving(s + t, |s| + n, gone) == Surviving(s, |s|, gone)
  {
    if n == 0 {
      SurvivingPrefix(s, t, |s|, gone);
    } else {
      AllGone(s, t, n - 1, gone);
      assert (s + t)[|s| + n - 1] == t[n - 1];
    }
  }

  predicate Occurs(s: seq<Mbuf>, n: nat, x: Mbuf)
    requires n <= |s|
  {
    exists i :: 0 <= i < n && s[i] == x
  }

  lemma {:induction false} SurvivorsDiffer(s: seq<Mbuf>, n: nat, gone: seq<Mbuf>)
    requires AllDifferent(s) && n <= |s|
    ensures AllDifferent(Surviving(s, n, gone))
    ensures forall i :: 0 <= i < |Surviving(s, n, gone)| ==> Occurs(s, n, Surviving(s, n, gone)[i])
  {
    if n > 0 {
      SurvivorsDiffer(s, n - 1, gone);
      var before := Surviving(s, n - 1, gone);
      forall i | 0 <= i < |before| ensures Occurs(s, n, before[i]) && before[i] != s[n - 1] {
        assert Occurs(s, n - 1, before[i]);
      }
      assert s[n - 1] == s[n - 1] && Occurs(s, n, s[n - 1]);
    }
  }

  lemma {:induction false} CountedIffPresent(s: seq<Mbuf>, n: nat, x: Mbuf)
    requires n <= |s|
    ensures CountIn(s, n, x) > 0 <==> Occurs(s, n, x)
  {
    if n > 0 {
      CountedIffPresent(s, n - 1, x);
      if s[n - 1] == x {
        assert Occurs(s, n, x);
      } else if Occurs(s, n - 1, x) {
        var i :| 0 <= i < n - 1 && s[i] == x;
        assert 0 <= i < n && s[i] == x;
      }
    }
  }

  lemma {:induction false} ReceiveKeepsOrder(l: Lane, burst: seq<Mbuf>)
    requires InOrder(l) && NewPackets(l, burst)
    ensures InOrder(Receive(l, burst))
  {
    if l.window == [] {
      forall i | 0 <= i < |burst| ensures Count(l.dropped, burst[i]) == 0 {
      }
      NewPacketsSurvive(l.received, burst, |burst|, l.dropped);
      assert burst[..|burst|] == burst;
    }
  }

  lemma {:induction false} HandingOnKeepsOrder(l: Lane, k: nat)
    requires InOrder(l) && k <= |l.window|
    ensures InOrder(Deliver(l, l.window[..k], Suffix(l.window, k)))
  {
    assert l.window[..k] + Suffix(l.window, k) == l.window;
    assert (l.delivered + l.window[..k]) + Suffix(l.window, k) == l.delivered + l.window;
  }

  /** Of the live packets, those of the window go and the others stay. */
  lemma {:induction false} WindowLeaves(delivered: seq<Mbuf>, window: seq<Mbuf>, freed: seq<Mbuf>)
    requires AllDifferent(delivered + window) && forall x :: Count(freed, x) == Count(window, x)
    ensures Surviving(delivered + window, |delivered| + |window|, freed) == delivered
  {
    var live := delivered + window;
    forall i | 0 <= i < |window| ensures Count(freed, window[i]) > 0 {
      assert Occurs(window, |window|, window[i]);
      CountedIffPresent(window, |window|, window[i]);
    }
    forall i | 0 <= i < |delivered| ensures Count(freed, delivered[i]) == 0 {
      CountedIffPresent(window, |window|, delivered[i]);
      forall j | 0 <= j < |window| ensures window[j] != delivered[i] {
        assert live[i] == delivered[i] && live[|delivered| + j] == window[j];
      }
    }
    AllGone(delivered, window, |window|, freed);
    NoneGone(delivered, |delivered|, freed);
    assert delivered[..|delivered|] == delivered;
  }

  lemma {:induction false} DropKeepsOrder(l: Lane)
    requires InOrder(l)
    ensures InOrder(Drop(l))
  {
    var freed, live := Backwards(l.window, |l.window|, 0), l.delivered + l.window;
    MoreGone(l.received, |l.received|, l.dropped, freed);
    SurvivorsDiffer(l.received, |l.received|, l.dropped);
    forall x ensures Count(freed, x) == Count(l.window, x) {
      CountBackwards(l.window, |l.window|, 0, x);
    }
    WindowLeaves(l.delivered, l.window, freed);
    forall i | 0 <= i < |l.window| ensures Occurs(l.received, |l.received|, l.window[i]) {
      assert live[|l.delivered| + i] == l.window[i];
    }
    FreedWereReceived(l, freed);
    assert l.delivered + [] == l.delivered;
  }

  lemma {:induction false} FreedWereReceived(l: Lane, freed: seq<Mbuf>)
    requires forall x :: Count(l.dropped, x) > 0 ==> x in l.received
    requires forall x :: Count(freed, x) == Count(l.window, x)
    requires forall i :: 0 <= i < |l.window| ==> Occurs(l.received, |l.received|, l.window[i])
    ensures forall x :: Count(l.dropped + freed, x) > 0 ==> x in l.received
  {
    forall x | Count(l.dropped + freed, x) > 0 ensures x in l.received {
      CountConcat(l.dropped, freed, x);
      CountedIffPresent(l.window, |l.window|, x);
    }
  }

  lemma {:induction false} Vm2VfKeepsOrder(c: Ctl, l: Lane, e: Event)
    requires InOrder(l) && (e.Vm2Vf? ==> NewPackets(l, e.burst))
    ensures InOrder(Vm2VfLane(c, l, e))
  {
    match e
    case Vm2Vf(burst, room) =>
      ReceiveKeepsOrder(l, burst);
      var a := if c.vio == VioReady then Receive(l, burst) else l;
      HandingOnKeepsOrder(a, Min(room, |a.window|));
      DropKeepsOrder(a);
      DropKeepsOrder(Vm2VfTraffic(c, l, burst, room));
    case Vf2Vm(_, _, _) =>
      DropKeepsOrder(l);
    case _ =>
  }

  lemma {:induction false} Vf2VmKeepsOrder(c: Ctl, l: Lane, e: Event)
    requires InOrder(l) && (e.Vf2Vm? ==> NewPackets(l, e.burst) && !Multiqueue(e.rxBits))
    ensures InOrder(Vf2VmLane(c, l, e))
  {
    match e
    case Vm2Vf(_, _) =>
      DropKeepsOrder(l);
    case Vf2Vm(burst, rxBits, accepted) =>
      ReceiveKeepsOrder(l, burst);
      var a := if c.vf == VfReady then Receive(l, burst) else l;
      HandingOnKeepsOrder(a, Accepted(accepted, |a.window|));
      DropKeepsOrder(a);
      DropKeepsOrder(Vf2VmTraffic(c, l, burst, rxBits, accepted));
    case _ =>
  }

  predicate SingleQueue(es: seq<Event>) {
    forall i :: 0 <= i < |es| && es[i].Vf2Vm? ==> !Multiqueue(es[i].rxBits)
  }

  lemma {:induction false} RunKeepsOrder(s: Relay, es: seq<Event>)
    requires InOrder(s.vm2vf) && CanRun(s, es)
    ensures InOrder(After(s, es).vm2vf)
    ensures InOrder(s.vf2vm) && SingleQueue(es) ==> InOrder(After(s, es).vf2vm)
    decreases |es|
  {
    if es != [] {
      Vm2VfKeepsOrder(s.ctl, s.vm2vf, es[0]);
      if InOrder(s.vf2vm) && SingleQueue(es) {
        assert es[0].Vf2Vm? ==> !Multiqueue(es[0].rxBits);
        Vf2VmKeepsOrder(s.ctl, s.vf2vm, es[0]);
      }
      RunKeepsOrder(Apply(s, es[0]), es[1..]);
    }
  }

  /** In every run packets reach the NIC in the order in which the VM sent them, none skipped except those
      that were freed; and the VM in the order in which the NIC received them, if only one queue is used. */
  lemma {:induction false} PacketsStayInOrder(es: seq<Event>)
    requires CanRun(Initial(), es)
    ensures InOrder(After(Initial(), es).vm2vf)
    ensures SingleQueue(es) ==> InOrder(After(Initial(), es).vf2vm)
  {
    RunKeepsOrder(Initial(), es);
  }
}
