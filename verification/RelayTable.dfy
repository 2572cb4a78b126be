/** The table of vhost-user sockets and the devices paired with them. Calls into DPDK and the file
    system succeed or fail as the outcome of an operation says. */
module RelayTable {
  import opened Common

  /** One relay: its socket, whether a VM is connected, whether a device is attached and the name kept
      for it. */
  datatype Slot = Slot(socket: Option<string>, vm: bool, attached: bool, dev: string)

  const FREE := Slot(None, false, false, "")

  /** What a call returns, or that it follows a null pointer. */
  datatype Result = Code(value: int) | NullPointer

  /** Registering a socket may fail before the table is written or after. */
  datatype Register = Registered | FailsEarly | FailsLate

  /** Whether the device is known to DPDK already, is a bond, can be attached and detached, whether the
      socket can be registered and released, and whether a connected VM is released in time. */
  datatype Outcome = Outcome(known: bool, bond: bool, attaches: bool, register: Register, detaches: bool, releases: bool, vmLeaves: bool)

  /** The name field has 20 bytes with its terminator. */
  function Shortened(dev: string): (r: string)
    ensures |r| <= 19 && |r| <= |dev| && r == dev[..|r|] && (|r| < 19 ==> r == dev)
  {
    if |dev| < 20 then dev else dev[..19]
  }

  predicate HasSocket(slots: seq<Slot>, i: nat, path: string) {
    i < |slots| && slots[i].socket == Some(path)
  }

  /** The first relay with this socket, from `i` on. */
  function Owner(slots: seq<Slot>, i: nat, path: string): (r: Option<nat>)
    ensures r.Some? ==> i <= r.value && HasSocket(slots, r.value, path)
    ensures forall j :: i <= j < (if r.Some? then r.value else |slots|) ==> !HasSocket(slots, j, path)
    decreases |slots| - i
  {
    if i >= |slots| then None else if slots[i].socket == Some(path) then Some(i) else Owner(slots, i + 1, path)
  }

  predicate IsFree(s: Slot) {
    !s.vm && !s.attached && s.socket.None?
  }

  function FirstFree(slots: seq<Slot>, i: nat): (r: Option<nat>)
    ensures r.Some? ==> i <= r.value < |slots| && IsFree(slots[r.value])
    ensures forall j :: i <= j < (if r.Some? then r.value else |slots|) ==> !IsFree(slots[j])
    decreases |slots| - i
  {
    if i >= |slots| then None else if IsFree(slots[i]) then Some(i) else FirstFree(slots, i + 1)
  }

  function FirstWithDevice(slots: seq<Slot>, i: nat, dev: string): (r: Option<nat>)
    ensures r.Some? ==> i <= r.value < |slots| && slots[r.value].dev == dev
    ensures forall j :: i <= j < (if r.Some? then r.value else |slots|) ==> slots[j].dev != dev
    decreases |slots| - i
  {
    if i >= |slots| then None else if slots[i].dev == dev then Some(i) else FirstWithDevice(slots, i + 1, dev)
  }

  // ---------------------------------------------------------------- the operations

  /** remove_vf2 on a relay that is attached or not; the names must match. */
  function Detach(s: Slot, dev: string, detaches: bool): Slot {
    if s.attached && s.dev == dev && detaches then s.(attached := false, dev := "") else s
  }

  /** deregister_socket empties the entry of the socket, whatever DPDK says. */
  function Deregister(slots: seq<Slot>, path: string): seq<Slot> {
    var owner := Owner(slots, 0, path);
    if owner.None? then slots else slots[owner.value := slots[owner.value].(socket := None)]
  }

  function AddPair(slots: seq<Slot>, path: string, dev: string, o: Outcome): (Result, seq<Slot>) {
    if o.known then (Code(-17), slots)
    else if Owner(slots, 0, path).Some? then (Code(1), slots)
    else if FirstFree(slots, 0).None? then (Code(2), slots)
    else if !o.attaches then (Code(if o.bond then 4 else 3), slots)
    else
      var id := FirstFree(slots, 0).value;
      var attached := slots[id := slots[id].(attached := true, dev := Shortened(dev))];
      var written := if o.register == FailsEarly then attached else attached[id := attached[id].(socket := Some(path))];
      if o.register == Registered then (Code(0), written)
      else (Code(5), Deregister(written[id := Detach(written[id], dev, o.detaches)], path))
  }

  /** The relay named by a socket path, or else by a device. */
  function Target(slots: seq<Slot>, path: Option<string>, dev: string): Option<nat> {
    if path.Some? then Owner(slots, 0, path.value) else FirstWithDevice(slots, 0, dev)
  }

  function RemoveFrom(slots: seq<Slot>, id: nat, dev: string, conditional: bool, o: Outcome): (Result, seq<Slot>)
    requires id < |slots|
  {
    var s := slots[id];
    var name := if dev == "" then s.dev else dev;
    if s.dev != name then (Code(2), slots)
    else if s.socket.None? then (NullPointer, slots)
    else
      var closed := Deregister(slots[id := s.(vm := s.vm && !o.vmLeaves)], s.socket.value);
      if !o.releases then (Code(3), closed)
      else if closed[id].attached then
        (Code(if o.detaches then 0 else 4), closed[id := Detach(closed[id], name, o.detaches)])
      else (Code(if conditional then 0 else 4), closed)
  }

  function RemovePair(slots: seq<Slot>, path: Option<string>, dev: string, conditional: bool, o: Outcome): (Result, seq<Slot>) {
    if path.None? && dev == "" then (Code(-1), slots)
    else
      var target := Target(slots, path, dev);
      if target.None? then (Code(1), slots) else RemoveFrom(slots, target.value, dev, conditional, o)
  }

  /** The table in place. */
  class Table {
    var slots: seq<Slot>

    constructor ()
      ensures slots == seq(MAX_RELAYS, _ => FREE)
    {
      slots := seq(MAX_RELAYS, _ => FREE);
    }

    /** get_relay_for_sock. */
    method GetRelayForSock(path: string) returns (id: int)
      ensures id == if Owner(slots, 0, path).Some? then Owner(slots, 0, path).value else -1
    {
      for i := 0 to |slots|
        invariant Owner(slots, i, path) == Owner(slots, 0, path)
      {
        if slots[i].socket == Some(path) {
          return i;
        }
      }
      id := -1;
    }

    /** virtio_get_free_relay_id. */
    method GetFreeRelayId() returns (id: int)
      ensures id == if FirstFree(slots, 0).Some? then FirstFree(slots, 0).value else -1
    {
      for i := 0 to |slots|
        invariant FirstFree(slots, i) == FirstFree(slots, 0)
      {
        if IsFree(slots[i]) {
          return i;
        }
      }
      id := -1;
    }

    method DeregisterSocket(path: string)
      modifies this
      ensures slots == Deregister(old(slots), path)
    {
      var id := GetRelayForSock(path);
      if id >= 0 {
        slots := slots[id := slots[id].(socket := None)];
      }
    }

    /** virtio_add_sock_dev_pair. */
    method AddSockDevPair(path: string, dev: string, o: Outcome) returns (r: Result)
      modifies this
      ensures (r, slots) == AddPair(old(slots), path, dev, o)
    {
      if o.known {
        return Code(-17);
      }
      var owner := GetRelayForSock(path);
      if owner >= 0 {
        return Code(1);
      }
      var id := GetFreeRelayId();
      if id < 0 {
        return Code(2);
      }
      if !o.attaches {
        return Code(if o.bond then 4 else 3);
      }
      slots := slots[id := slots[id].(attached := true, dev := Shortened(dev))];
      if o.register != FailsEarly {
        slots := slots[id := slots[id].(socket := Some(path))];
      }
      if o.register == Registered {
        return Code(0);
      }
      slots := slots[id := Detach(slots[id], dev, o.detaches)];
      DeregisterSocket(path);
      r := Code(5);
    }

    /** virtio_remove_sock_dev_pair once the relay is found. */
    method RemoveFound(id: nat, dev: string, conditional: bool, o: Outcome) returns (r: Result)
      requires id < |slots|
      modifies this
      ensures (r, slots) == RemoveFrom(old(slots), id, dev, conditional, o)
    {
      var name := if dev == "" then slots[id].dev else dev;
      if slots[id].dev != name {
        return Code(2);
      }
      var socket := slots[id].socket;
      if socket.None? {
        return NullPointer;
      }
      slots := slots[id := slots[id].(vm := slots[id].vm && !o.vmLeaves)];
      DeregisterSocket(socket.value);
      if !o.releases {
        return Code(3);
      }
      if !slots[id].attached {
        return Code(if conditional then 0 else 4);
      }
      slots := slots[id := Detach(slots[id], name, o.detaches)];
      r := Code(if o.detaches then 0 else 4);
    }

    /** The search for a relay by its device. */
    method GetRelayForDevice(dev: string) returns (id: int)
      ensures id == if FirstWithDevice(slots, 0, dev).Some? then FirstWithDevice(slots, 0, dev).value else -1
    {
      for i := 0 to |slots|
        invariant FirstWithDevice(slots, i, dev) == FirstWithDevice(slots, 0, dev)
      {
        if slots[i].dev == dev {
          return i;
        }
      }
      id := -1;
    }

    /** virtio_remove_sock_dev_pair. */
    method RemoveSockDevPair(path: Option<string>, dev: string, conditional: bool, o: Outcome) returns (r: Result)
      modifies this
      ensures (r, slots) == RemovePair(old(slots), path, dev, conditional, o)
    {
      if path.None? && dev == "" {
        return Code(-1);
      }
      var id;
      if path.Some? {
        id := GetRelayForSock(path.value);
      } else {
        id := GetRelayForDevice(dev);
      }
      if id < 0 {
        return Code(1);
      }
      r := RemoveFound(id, dev, conditional, o);
    }
  }

  // ---------------------------------------------------------------- one owner per socket

  /** No two relays share a socket. */
  ghost predicate Unique(slots: seq<Slot>) {
    forall i, j, path :: HasSocket(slots, i, path) && HasSocket(slots, j, path) ==> i == j
  }

  lemma {:induction false} LookupFindsOwner(slots: seq<Slot>, i: nat, path: string)
    requires Unique(slots)
    ensures Owner(slots, 0, path) == Some(i) <==> HasSocket(slots, i, path)
  {
    if HasSocket(slots, i, path) {
      assert Owner(slots, 0, path).Some?;
    }
  }

  lemma {:induction false} ClearingKeepsUnique(slots: seq<Slot>, after: seq<Slot>)
    requires Unique(slots) && |after| == |slots|
    requires forall i :: 0 <= i < |slots| ==> after[i].socket == None || after[i].socket == slots[i].socket
    ensures Unique(after)
  {
    forall i, j, path | HasSocket(after, i, path) && HasSocket(after, j, path) ensures i == j {
      assert HasSocket(slots, i, path) && HasSocket(slots, j, path);
    }
  }

  lemma {:induction false} RegisteringKeepsUnique(slots: seq<Slot>, id: nat, s: Slot, path: string)
    requires Unique(slots) && id < |slots| && Owner(slots, 0, path).None? && s.socket == Some(path)
    ensures Unique(slots[id := s])
  {
    var after := slots[id := s];
    forall i, j, p | HasSocket(after, i, p) && HasSocket(after, j, p) ensures i == j {
      assert i != id ==> HasSocket(slots, i, p);
      assert j != id ==> HasSocket(slots, j, p);
    }
  }

  lemma {:induction false} AddKeepsUnique(slots: seq<Slot>, path: string, dev: string, o: Outcome)
    requires Unique(slots)
    ensures Unique(AddPair(slots, path, dev, o).1)
  {
    var after := AddPair(slots, path, dev, o).1;
    if AddPair(slots, path, dev, o).0 == Code(0) {
      var id := FirstFree(slots, 0).value;
      RegisteringKeepsUnique(slots, id, slots[id].(attached := true, dev := Shortened(dev), socket := Some(path)), path);
      assert after == slots[id := slots[id].(attached := true, dev := Shortened(dev), socket := Some(path))];
    } else if AddPair(slots, path, dev, o).0 == Code(5) {
      RollbackSockets(slots, path, dev, o);
      ClearingKeepsUnique(slots, after);
    }
  }

  /** After a failed registration only the chosen relay may differ, and it has no socket. */
  lemma {:induction false} RollbackSockets(slots: seq<Slot>, path: string, dev: string, o: Outcome)
    requires AddPair(slots, path, dev, o).0 == Code(5)
    ensures var id := FirstFree(slots, 0).value;
      AddPair(slots, path, dev, o).1
      == slots[id := Detach(slots[id].(attached := true, dev := Shortened(dev), socket := None), dev, o.detaches)]
  {
    var id := FirstFree(slots, 0).value;
    var attached := slots[id := slots[id].(attached := true, dev := Shortened(dev))];
    var written := if o.register == FailsEarly then attached else attached[id := attached[id].(socket := Some(path))];
    var detached := written[id := Detach(written[id], dev, o.detaches)];
    forall j | 0 <= j < |slots| ensures HasSocket(detached, j, path) <==> j == id && o.register == FailsLate {
      assert !HasSocket(slots, j, path);
    }
    if o.register == FailsLate {
      assert HasSocket(detached, id, path);
    }
  }

  /** A slot that lost its socket, its VM or its device, or nothing. */
  predicate Reduced(a: Slot, b: Slot) {
    && (b.socket == None || b.socket == a.socket)
    && (b.dev == "" || (b.attached == a.attached && b.dev == a.dev))
  }

  predicate AllReduced(slots: seq<Slot>, after: seq<Slot>) {
    |slots| == |after| && forall i :: 0 <= i < |slots| ==> Reduced(slots[i], after[i])
  }

  lemma {:induction false} OneReduced(slots: seq<Slot>, id: nat, s: Slot)
    requires id < |slots| && Reduced(slots[id], s)
    ensures AllReduced(slots, slots[id := s])
  {
  }

  lemma {:induction false} ReducedTwice(a: seq<Slot>, b: seq<Slot>, c: seq<Slot>)
    requires AllReduced(a, b) && AllReduced(b, c)
    ensures AllReduced(a, c)
  {
    forall i | 0 <= i < |a| ensures Reduced(a[i], c[i]) {
      assert Reduced(a[i], b[i]) && Reduced(b[i], c[i]);
    }
  }

  lemma {:induction false} DeregisterReduces(slots: seq<Slot>, path: string)
    ensures AllReduced(slots, Deregister(slots, path))
  {
  }

  lemma {:induction false} RemoveFromReduces(slots: seq<Slot>, id: nat, dev: string, conditional: bool, o: Outcome)
    requires id < |slots|
    ensures AllReduced(slots, RemoveFrom(slots, id, dev, conditional, o).1)
  {
    var s := slots[id];
    if s.socket.Some? {
      var left := slots[id := s.(vm := s.vm && !o.vmLeaves)];
      var closed := Deregister(left, s.socket.value);
      var name := if dev == "" then s.dev else dev;
      OneReduced(slots, id, s.(vm := s.vm && !o.vmLeaves));
      DeregisterReduces(left, s.socket.value);
      ReducedTwice(slots, left, closed);
      OneReduced(closed, id, Detach(closed[id], name, o.detaches));
      ReducedTwice(slots, closed, closed[id := Detach(closed[id], name, o.detaches)]);
    }
  }

  lemma {:induction false} RemoveReduces(slots: seq<Slot>, path: Option<string>, dev: string, conditional: bool, o: Outcome)
    ensures AllReduced(slots, RemovePair(slots, path, dev, conditional, o).1)
  {
    var target := Target(slots, path, dev);
    if target.Some? {
      RemoveFromReduces(slots, target.value, dev, conditional, o);
    }
  }

  lemma {:induction false} RemoveKeepsUnique(slots: seq<Slot>, path: Option<string>, dev: string, conditional: bool, o: Outcome)
    requires Unique(slots)
    ensures Unique(RemovePair(slots, path, dev, conditional, o).1)
  {
    var after := RemovePair(slots, path, dev, conditional, o).1;
    RemoveReduces(slots, path, dev, conditional, o);
    forall i | 0 <= i < |slots| ensures after[i].socket == None || after[i].socket == slots[i].socket {
      assert Reduced(slots[i], after[i]);
    }
    ClearingKeepsUnique(slots, after);
  }

  datatype Operation =
    | Add(path: string, dev: string, o: Outcome)
    | Remove(oldPath: Option<string>, dev: string, conditional: bool, o: Outcome)
    | SetVm(relay: nat, connected: bool)

  function Step(slots: seq<Slot>, op: Operation): seq<Slot> {
    match op
    case Add(path, dev, o) => AddPair(slots, path, dev, o).1
    case Remove(path, dev, conditional, o) => RemovePair(slots, path, dev, conditional, o).1
    case SetVm(r, connected) => if r < |slots| then slots[r := slots[r].(vm := connected)] else slots
  }

  function Run(slots: seq<Slot>, ops: seq<Operation>): seq<Slot>
    decreases |ops|
  {
    if ops == [] then slots else Run(Step(slots, ops[0]), ops[1..])
  }

  /** In every run, whatever fails, a socket belongs to at most one relay. */
  lemma {:induction false} SocketsStayUnique(slots: seq<Slot>, ops: seq<Operation>)
    requires Unique(slots)
    ensures Unique(Run(slots, ops))
    decreases |ops|
  {
    if ops != [] {
      match ops[0] {
        case Add(path, dev, o) => AddKeepsUnique(slots, path, dev, o);
        case Remove(path, dev, conditional, o) => RemoveKeepsUnique(slots, path, dev, conditional, o);
        case SetVm(_, _) => ClearingKeepsUnique(slots, Step(slots, ops[0]));
      }
      SocketsStayUnique(Step(slots, ops[0]), ops[1..]);
    }
  }

  // ---------------------------------------------------------------- rollback and removal

  /** Names of devices that are not attached are empty. */
  predicate Tidy(slots: seq<Slot>) {
    forall i :: 0 <= i < |slots| ==> slots[i].attached || slots[i].dev == ""
  }

  lemma {:induction false} AddKeepsTidy(slots: seq<Slot>, path: string, dev: string, o: Outcome)
    requires Tidy(slots)
    ensures Tidy(AddPair(slots, path, dev, o).1)
  {
    if AddPair(slots, path, dev, o).0 == Code(5) {
      RollbackSockets(slots, path, dev, o);
    }
  }

  lemma {:induction false} ReducedKeepsTidy(slots: seq<Slot>, after: seq<Slot>)
    requires Tidy(slots) && AllReduced(slots, after)
    ensures Tidy(after)
  {
    forall i | 0 <= i < |after| ensures after[i].attached || after[i].dev == "" {
      assert Reduced(slots[i], after[i]);
    }
  }

  lemma {:induction false} StepKeepsTidy(slots: seq<Slot>, op: Operation)
    requires Tidy(slots)
    ensures Tidy(Step(slots, op))
  {
    match op
    case Add(path, dev, o) => AddKeepsTidy(slots, path, dev, o);
    case Remove(path, dev, conditional, o) =>
      RemoveReduces(slots, path, dev, conditional, o);
      ReducedKeepsTidy(slots, Step(slots, op));
    case SetVm(_, _) =>
  }

  lemma {:induction false} RunKeepsTidy(slots: seq<Slot>, ops: seq<Operation>)
    requires Tidy(slots)
    ensures Tidy(Run(slots, ops))
    decreases |ops|
  {
    if ops != [] {
      StepKeepsTidy(slots, ops[0]);
      RunKeepsTidy(Step(slots, ops[0]), ops[1..]);
    }
  }

  /** The add gets as far as the registration of the socket. */
  predicate TriesToRegister(slots: seq<Slot>, path: string, o: Outcome) {
    !o.known && Owner(slots, 0, path).None? && FirstFree(slots, 0).Some? && o.attaches
  }

  /** An add fails unless the registration is tried and succeeds. A failed add leaves the table as it
      was exactly when the registration was not tried, or the device could be detached again under its
      full name. */
  lemma {:induction false} FailedAddRestoresExactlyWhen(slots: seq<Slot>, path: string, dev: string, o: Outcome)
    requires Tidy(slots) && !(TriesToRegister(slots, path, o) && o.register == Registered)
    ensures AddPair(slots, path, dev, o).0 != Code(0)
    ensures AddPair(slots, path, dev, o).1 == slots <==> (TriesToRegister(slots, path, o) ==> o.detaches && |dev| < 20)
  {
    if TriesToRegister(slots, path, o) {
      RollbackSockets(slots, path, dev, o);
      var id := FirstFree(slots, 0).value;
      var s := Detach(slots[id].(attached := true, dev := Shortened(dev), socket := None), dev, o.detaches);
      assert slots[id := s][id] == s;
      assert s == slots[id] <==> o.detaches && |dev| < 20;
      assert slots[id := slots[id]] == slots;
    }
  }

  /** A pair that was added comes out again, leaving the table as before, exactly when the device is
      not named, or named by a name that the table could keep. */
  lemma {:induction false} AddThenRemoveRestoresExactlyWhen(slots: seq<Slot>, path: string, dev: string, o: Outcome,
                                                             named: bool, conditional: bool, o': Outcome)
    requires Tidy(slots) && dev != "" && AddPair(slots, path, dev, o).0 == Code(0) && o'.releases && o'.detaches
    ensures var added := AddPair(slots, path, dev, o).1;
      RemovePair(added, Some(path), if named then dev else "", conditional, o') == (Code(0), slots) <==> !named || |dev| < 20
  {
    var id, added := FirstFree(slots, 0).value, AddPair(slots, path, dev, o).1;
    var s := slots[id].(attached := true, dev := Shortened(dev), socket := Some(path));
    assert added == slots[id := s];
    OwnerAfterAdd(slots, id, s, path);
    assert slots[id := slots[id]] == slots && slots[id] == Slot(None, false, false, "");
    assert s.(vm := s.vm && !o'.vmLeaves) == s;
    if !named || |dev| < 20 {
      RemoveWhatWasAdded(slots, id, s, if named then dev else "", conditional, o');
    }
  }

  /** Named by the device alone, it comes out again exactly when the table could keep the name, given
      that no other relay has a device of that name. */
  lemma {:induction false} RemoveByNameRestoresExactlyWhen(slots: seq<Slot>, path: string, dev: string, o: Outcome,
                                                            conditional: bool, o': Outcome)
    requires Tidy(slots) && dev != "" && AddPair(slots, path, dev, o).0 == Code(0) && o'.releases && o'.detaches
    requires forall i :: 0 <= i < |slots| ==> slots[i].dev != dev
    ensures var added := AddPair(slots, path, dev, o).1;
      RemovePair(added, None, dev, conditional, o') == (Code(0), slots) <==> |dev| < 20
  {
    var id, added := FirstFree(slots, 0).value, AddPair(slots, path, dev, o).1;
    var s := slots[id].(attached := true, dev := Shortened(dev), socket := Some(path));
    assert added == slots[id := s];
    if |dev| < 20 {
      OwnerAfterAdd(slots, id, s, path);
      FoundByName(added, 0, id, dev);
      assert s.(vm := s.vm && !o'.vmLeaves) == s && slots[id] == Slot(None, false, false, "");
      RemoveWhatWasAdded(slots, id, s, dev, conditional, o');
      assert slots[id := slots[id]] == slots;
    } else {
      assert FirstWithDevice(added, 0, dev).None?;
    }
  }

  lemma {:induction false} FoundByName(slots: seq<Slot>, i: nat, id: nat, dev: string)
    requires i <= id < |slots| && slots[id].dev == dev
    requires forall j :: i <= j < |slots| && j != id ==> slots[j].dev != dev
    ensures FirstWithDevice(slots, i, dev) == Some(id)
    decreases id - i
  {
    if i < id {
      FoundByName(slots, i + 1, id, dev);
    }
  }

  lemma {:induction false} OwnerAfterAdd(slots: seq<Slot>, id: nat, s: Slot, path: string)
    requires id < |slots| && Owner(slots, 0, path).None? && s.socket == Some(path)
    ensures Owner(slots[id := s], 0, path) == Some(id)
  {
    var after := slots[id := s];
    assert HasSocket(after, id, path);
    forall j | 0 <= j < |slots| && j != id ensures !HasSocket(after, j, path) {
      assert !HasSocket(slots, j, path);
    }
  }

  /** Everything goes that the add brought, and the VM if it leaves in time. */
  lemma {:induction false} RemoveWhatWasAdded(slots: seq<Slot>, id: nat, s: Slot, dev: string, conditional: bool, o: Outcome)
    requires id < |slots| && o.releases && o.detaches
    requires s.socket.Some? && s.attached && (dev == "" || s.dev == dev)
    requires Owner(slots[id := s], 0, s.socket.value) == Some(id)
    requires Owner(slots[id := s.(vm := s.vm && !o.vmLeaves)], 0, s.socket.value) == Some(id)
    ensures RemoveFrom(slots[id := s], id, dev, conditional, o) == (Code(0), slots[id := Slot(None, s.vm && !o.vmLeaves, false, "")])
  {
    var added := slots[id := s];
    var left := added[id := s.(vm := s.vm && !o.vmLeaves)];
    assert left == slots[id := s.(vm := s.vm && !o.vmLeaves)];
    var closed := left[id := left[id].(socket := None)];
    assert Deregister(left, s.socket.value) == closed;
    assert closed[id := Slot(None, s.vm && !o.vmLeaves, false, "")] == slots[id := Slot(None, s.vm && !o.vmLeaves, false, "")];
  }

  /** The same with a VM connected in between: the table is as before exactly when the VM leaves in time and
      the device is not named or named by a name that the table could keep; if only the VM does not leave,
      only its mark stays. */
  lemma {:induction false} RemoveConnectedRestoresExactlyWhen(slots: seq<Slot>, path: string, dev: string, o: Outcome,
                                                               named: bool, conditional: bool, o': Outcome)
    requires Tidy(slots) && dev != "" && AddPair(slots, path, dev, o).0 == Code(0) && o'.releases && o'.detaches
    ensures var id := FirstFree(slots, 0).value;
      var connected := Step(AddPair(slots, path, dev, o).1, SetVm(id, true));
      var removed := RemovePair(connected, Some(path), if named then dev else "", conditional, o');
      && (removed == (Code(0), slots) <==> o'.vmLeaves && (!named || |dev| < 20))
      && (!o'.vmLeaves && (!named || |dev| < 20) ==> removed == (Code(0), slots[id := slots[id].(vm := true)]))
  {
    var id := FirstFree(slots, 0).value;
    var s := slots[id].(vm := true, attached := true, dev := Shortened(dev), socket := Some(path));
    var connected := Step(AddPair(slots, path, dev, o).1, SetVm(id, true));
    assert connected == slots[id := s];
    assert slots[id] == Slot(None, false, false, "");
    OwnerAfterAdd(slots, id, s, path);
    OwnerAfterAdd(slots, id, s.(vm := s.vm && !o'.vmLeaves), path);
    if !named || |dev| < 20 {
      RemoveWhatWasAdded(slots, id, s, if named then dev else "", conditional, o');
      assert slots[id := slots[id]] == slots;
      assert slots[id := Slot(None, true, false, "")][id] != slots[id];
    }
  }

  /** What the result code of an add says. */
  lemma {:induction false} AddReports(slots: seq<Slot>, path: string, dev: string, o: Outcome)
    ensures var r := AddPair(slots, path, dev, o).0;
      && (r == Code(-17) <==> o.known)
      && (r == Code(1) <==> !o.known && exists i: nat :: HasSocket(slots, i, path))
      && (r == Code(2) <==> !o.known && (forall i: nat :: !HasSocket(slots, i, path))
                            && forall i :: 0 <= i < |slots| ==> !IsFree(slots[i]))
      && (r == Code(0) <==> TriesToRegister(slots, path, o) && o.register == Registered)
      && (r == Code(5) <==> TriesToRegister(slots, path, o) && o.register != Registered)
  {
    var owner := Owner(slots, 0, path);
    if owner.Some? {
      assert HasSocket(slots, owner.value, path);
    }
  }

  /** What a removal returns and leaves, once it has found relay `i`: a device of another name is refused; the
      socket goes in any case, the VM if it leaves in time, and the device if the socket was released and the
      device can be detached. A relay without a device is a failure unless the removal is conditional. */
  lemma {:induction false} RemoveReports(slots: seq<Slot>, path: Option<string>, dev: string, conditional: bool, o: Outcome, i: nat)
    requires Unique(slots) && Target(slots, path, dev) == Some(i) && (path.Some? || dev != "")
    ensures i < |slots|
    ensures var (r, after) := RemovePair(slots, path, dev, conditional, o);
      var s := slots[i];
      if dev != "" && s.dev != dev then r == Code(2) && after == slots
      else if s.socket == None then r == NullPointer && after == slots
      else
        var detached := s.attached && o.releases && o.detaches;
        && r == Code(if !o.releases then 3 else if detached || (!s.attached && conditional) then 0 else 4)
        && after == slots[i := Slot(None, s.vm && !o.vmLeaves, s.attached && !detached, if detached then "" else s.dev)]
  {
    var s := slots[i];
    if s.socket.Some? {
      var left := slots[i := s.(vm := s.vm && !o.vmLeaves)];
      ClearingKeepsUnique(slots, left);
      LookupFindsOwner(left, i, s.socket.value);
      assert Owner(left, 0, s.socket.value) == Some(i);
    }
  }

  // ---------------------------------------------------------------- devices without a socket

  /** The removal follows a null pointer exactly when it is asked for by device alone and the first relay
      with a device of that name has no socket. */
  lemma {:induction false} RemovalFollowsNullExactlyWhen(slots: seq<Slot>, path: Option<string>, dev: string, conditional: bool, o: Outcome)
    ensures RemovePair(slots, path, dev, conditional, o).0 == NullPointer
            <==> path.None? && dev != "" && FirstWithDevice(slots, 0, dev).Some?
                 && slots[FirstWithDevice(slots, 0, dev).value].socket.None?
  {
    if path.Some? && Owner(slots, 0, path.value).Some? {
      assert HasSocket(slots, Owner(slots, 0, path.value).value, path.value);
    }
  }

  /** A failed add whose rollback cannot detach the device leads there: removing the device by the name
      that the table kept follows the null pointer. */
  lemma {:induction false} FailedRollbackThenNull(slots: seq<Slot>, path: string, dev: string, o: Outcome, conditional: bool, o': Outcome)
    requires TriesToRegister(slots, path, o) && o.register != Registered && !(o.detaches && |dev| < 20) && dev != ""
    requires forall i :: 0 <= i < |slots| ==> slots[i].dev != Shortened(dev)
    ensures RemovePair(AddPair(slots, path, dev, o).1, None, Shortened(dev), conditional, o').0 == NullPointer
  {
    RollbackSockets(slots, path, dev, o);
    FoundByName(AddPair(slots, path, dev, o).1, 0, FirstFree(slots, 0).value, Shortened(dev));
  }
}
