/** process_external_ids: how database changes become attach and detach calls, and when the attached
    VFs agree with the database. */
module OvsdbMirror {
  import opened Common
  import opened OvsdbMap
  import opened OvsdbRow

  /** PCI address and number of the VF behind a network device; its number selects the relay. */
  datatype Vf = Vf(dbdf: string, relay: nat)

  /** A message of the monitor: one row of its output, with the content of its row cell. */
  datatype Msg = Msg(row: string, action: string, name: string, config: PortConfig)

  /** VFs attached to relays, and the id carried from an `old` row to its `new` row. */
  datatype Mirror = Mirror(attached: map<nat, string>, change: int)

  /** Conversion of a long to an int. */
  function Truncate(x: int): (r: int)
    ensures -0x8000_0000 <= r < 0x8000_0000 && (r - x) % 0x1_0000_0000 == 0
  {
    (x + 0x8000_0000) % 0x1_0000_0000 - 0x8000_0000
  }

  /** virtio_forwarder_add_vf2, conditional: an occupied relay is left alone. */
  function Add(attached: map<nat, string>, vf: Vf): map<nat, string> {
    if vf.relay >= MAX_RELAYS || vf.relay in attached then attached else attached[vf.relay := vf.dbdf]
  }

  /** virtio_forwarder_remove_vf2, conditional: only the VF that is attached is removed. */
  function Remove(attached: map<nat, string>, vf: Vf): map<nat, string> {
    if vf.relay < MAX_RELAYS && vf.relay in attached && attached[vf.relay] == vf.dbdf then attached - {vf.relay} else attached
  }

  function Handle(m: Mirror, msg: Msg, lookup: string -> Option<Vf>): Mirror {
    var vf := lookup(msg.name);
    if msg.config.enabled && (msg.action == "insert" || msg.action == "initial") then
      if vf.Some? then m.(attached := Add(m.attached, vf.value)) else m
    else if msg.config.enabled && msg.action == "delete" then
      if vf.Some? then m.(attached := Remove(m.attached, vf.value)) else m
    else if msg.action == "old" then
      m.(change := if msg.config.enabled then Truncate(msg.config.id) else -1)
    else if msg.action == "new" && vf.Some? then
      var removed := if m.change != -1 then Remove(m.attached, vf.value) else m.attached;
      Mirror(if msg.config.enabled then Add(removed, vf.value) else removed, -1)
    else m
  }

  /** The state that process_external_ids works on. */
  class Monitor {
    var attached: map<nat, string>
    var virtioIdChange: int

    constructor ()
      ensures State() == Mirror(map[], -1)
    {
      attached, virtioIdChange := map[], -1;
    }

    function State(): Mirror
      reads this
    {
      Mirror(attached, virtioIdChange)
    }

    method AddVf(vf: Vf)
      modifies this`attached
      ensures attached == Add(old(attached), vf)
    {
      if vf.relay < MAX_RELAYS && vf.relay !in attached {
        attached := attached[vf.relay := vf.dbdf];
      }
    }

    method RemoveVf(vf: Vf)
      modifies this`attached
      ensures attached == Remove(old(attached), vf)
    {
      if vf.relay < MAX_RELAYS && vf.relay in attached && attached[vf.relay] == vf.dbdf {
        attached := attached - {vf.relay};
      }
    }

    method ProcessExternalIds(msg: Msg, lookup: string -> Option<Vf>)
      modifies this
      ensures State() == Handle(old(State()), msg, lookup)
    {
      var vf := lookup(msg.name);
      if msg.config.enabled && (msg.action == "insert" || msg.action == "initial") {
        if vf.Some? {
          AddVf(vf.value);
        }
      } else if msg.config.enabled && msg.action == "delete" {
        if vf.Some? {
          RemoveVf(vf.value);
        }
      } else if msg.action == "old" {
        virtioIdChange := if msg.config.enabled then Truncate(msg.config.id) else -1;
      } else if msg.action == "new" {
        if vf.Some? {
          if virtioIdChange != -1 {
            RemoveVf(vf.value);
            virtioIdChange := -1;
          }
          if msg.config.enabled {
            AddVf(vf.value);
          }
        }
      }
    }
  }

  // ---------------------------------------------------------------- the database

  datatype Entry = Entry(name: string, config: PortConfig)

  /** The old half of a change: the row, and what was read from the external_ids cell. */
  datatype OldHalf = OldHalf(row: string, config: PortConfig)

  /** The rows of the table by their ids, and the change of which the old half was announced. */
  datatype Db = Db(rows: map<string, Entry>, pending: Option<OldHalf>)

  /** What is read from the cell of a column that did not change. */
  const NO_CONFIG := PortConfig(false, 0)

  /** Interface names are unique in the table. */
  ghost predicate NamesUnique(db: Db) {
    forall a, b :: a in db.rows && b in db.rows && db.rows[a].name == db.rows[b].name ==> a == b
  }

  ghost predicate NameFree(db: Db, row: string, name: string) {
    forall r :: r in db.rows && r != row ==> db.rows[r].name != name
  }

  /** The row that a message is about. Of the two halves of a change only the old one names it; the row
      cell of the new one is empty in the monitor's output, and is not looked at here either. */
  function Changed(db: Db, msg: Msg): string {
    if db.pending.Some? then db.pending.value.row else msg.row
  }

  /** A well-formed stream (section 4.1.6 of RFC 7047): rows appear once and leave with their last
      values; a change is an `old` message followed by a `new` one. The old half has the former values of
      the changed columns only, so nothing is known about its name, and its external_ids cell is the
      stored one or empty, in which case they stay as they are. Other messages, such as a heading, say
      nothing. */
  ghost predicate Allowed(db: Db, msg: Msg) {
    match db.pending
    case Some(half) =>
      && msg.action == "new" && half.row in db.rows && NameFree(db, half.row, msg.name)
      && (half.config == db.rows[half.row].config || msg.config == db.rows[half.row].config)
    case None =>
      if msg.action == "insert" || msg.action == "initial" then msg.row !in db.rows && NameFree(db, msg.row, msg.name)
      else if msg.action == "delete" then msg.row in db.rows && db.rows[msg.row] == Entry(msg.name, msg.config)
      else if msg.action == "old" then
        msg.row in db.rows && (msg.config == db.rows[msg.row].config || msg.config == NO_CONFIG)
      else msg.action != "new"
  }

  function DbStep(db: Db, msg: Msg): Db {
    if msg.action == "insert" || msg.action == "initial" then db.(rows := db.rows[msg.row := Entry(msg.name, msg.config)])
    else if msg.action == "delete" then db.(rows := db.rows - {msg.row})
    else if msg.action == "old" then db.(pending := Some(OldHalf(msg.row, msg.config)))
    else if msg.action == "new" then Db(db.rows[Changed(db, msg) := Entry(msg.name, msg.config)], None)
    else db
  }

  // ---------------------------------------------------------------- agreement

  /** The network device has a VF, and its number is one of a relay. */
  predicate Attachable(lookup: string -> Option<Vf>, name: string) {
    lookup(name).Some? && lookup(name).value.relay < MAX_RELAYS
  }

  ghost predicate OneToOne(lookup: string -> Option<Vf>) {
    forall a, b :: Attachable(lookup, a) && Attachable(lookup, b) && lookup(a).value.relay == lookup(b).value.relay ==> a == b
  }

  predicate EnabledRow(db: Db, row: string, name: string) {
    row in db.rows && db.rows[row].name == name && db.rows[row].config.enabled
  }

  /** The row of this interface carries a usable forwarder key. */
  ghost predicate Enabled(db: Db, name: string) {
    exists row :: EnabledRow(db, row, name)
  }

  predicate IsAttached(m: Mirror, vf: Vf) {
    vf.relay in m.attached && m.attached[vf.relay] == vf.dbdf
  }

  /** The VF of a device is attached exactly when its row carries a usable forwarder key. */
  ghost predicate Mirrors(m: Mirror, db: Db, lookup: string -> Option<Vf>, name: string) {
    Attachable(lookup, name) ==> (IsAttached(m, lookup(name).value) <==> Enabled(db, name))
  }

  predicate Owns(lookup: string -> Option<Vf>, name: string, relay: nat) {
    Attachable(lookup, name) && lookup(name).value.relay == relay
  }

  /** An occupied relay holds the VF of the device it belongs to. */
  predicate HoldsItsVf(m: Mirror, lookup: string -> Option<Vf>, name: string) {
    Attachable(lookup, name) && lookup(name).value.relay in m.attached ==> IsAttached(m, lookup(name).value)
  }

  ghost predicate NoStrays(m: Mirror, lookup: string -> Option<Vf>) {
    forall relay: nat :: relay in m.attached ==> exists name :: Owns(lookup, name, relay)
  }

  /** The id carried over is the one of the old half. */
  predicate Carries(m: Mirror, db: Db) {
    match db.pending
    case None => true
    case Some(half) =>
      && half.row in db.rows && (half.config == db.rows[half.row].config || half.config == NO_CONFIG)
      && m.change == if half.config.enabled then Truncate(half.config.id) else -1
  }

  ghost predicate Agrees(m: Mirror, db: Db, lookup: string -> Option<Vf>) {
    && (forall name :: Mirrors(m, db, lookup, name))
    && (forall name :: HoldsItsVf(m, lookup, name))
    && NoStrays(m, lookup)
    && Carries(m, db)
  }

  /** What agreement means: the occupied relays are exactly those of enabled rows. */
  lemma {:induction false} AgreementMeans(m: Mirror, db: Db, lookup: string -> Option<Vf>, relay: nat)
    requires Agrees(m, db, lookup)
    ensures relay in m.attached <==> exists name :: Owns(lookup, name, relay) && Enabled(db, name)
    ensures forall name :: Owns(lookup, name, relay) && relay in m.attached ==> m.attached[relay] == lookup(name).value.dbdf
  {
    if relay in m.attached {
      var name :| Owns(lookup, name, relay);
      assert HoldsItsVf(m, lookup, name) && Mirrors(m, db, lookup, name);
    }
    forall name | Owns(lookup, name, relay) && relay in m.attached ensures m.attached[relay] == lookup(name).value.dbdf {
      assert HoldsItsVf(m, lookup, name);
    }
    if name :| Owns(lookup, name, relay) && Enabled(db, name) {
      assert Mirrors(m, db, lookup, name);
    }
  }

  /** A change to a row whose VF is attached must not rename the interface, and must not take away a key
      whose id, as an int, is the marker for no id. */
  predicate Safe(db: Db, msg: Msg, lookup: string -> Option<Vf>) {
    db.pending.Some? && Changed(db, msg) in db.rows ==>
      var before := db.rows[Changed(db, msg)];
      before.config.enabled && Attachable(lookup, before.name) ==>
        msg.name == before.name && (Truncate(before.config.id) == -1 ==> msg.config.enabled)
  }

  /** The interface that a message renames. */
  predicate Renames(db: Db, msg: Msg, name: string) {
    msg.action == "new" && Changed(db, msg) in db.rows && db.rows[Changed(db, msg)].name == name && name != msg.name
  }

  lemma {:induction false} EnabledOther(db: Db, msg: Msg, name: string)
    requires NamesUnique(db) && Allowed(db, msg) && name != msg.name
    ensures Renames(db, msg, name) ==> !Enabled(DbStep(db, msg), name)
    ensures Renames(db, msg, name) ==> (Enabled(db, name) <==> db.rows[Changed(db, msg)].config.enabled)
    ensures !Renames(db, msg, name) ==> (Enabled(DbStep(db, msg), name) <==> Enabled(db, name))
  {
    var db' := DbStep(db, msg);
    if Renames(db, msg, name) {
      assert EnabledRow(db, Changed(db, msg), name) <==> db.rows[Changed(db, msg)].config.enabled;
    } else {
      forall row ensures EnabledRow(db', row, name) <==> EnabledRow(db, row, name) {
      }
    }
  }

  /** Whether the named interface is enabled after the message. */
  lemma {:induction false} EnabledSame(db: Db, msg: Msg)
    requires NamesUnique(db) && Allowed(db, msg)
    ensures var now := Enabled(DbStep(db, msg), msg.name);
      if msg.action == "insert" || msg.action == "initial" then (now <==> msg.config.enabled) && !Enabled(db, msg.name)
      else if msg.action == "delete" then !now && (Enabled(db, msg.name) <==> msg.config.enabled)
      else if msg.action == "new" then
        (now <==> msg.config.enabled)
        && (Enabled(db, msg.name) <==> db.rows[Changed(db, msg)].name == msg.name && db.rows[Changed(db, msg)].config.enabled)
      else now <==> Enabled(db, msg.name)
  {
    var db', name := DbStep(db, msg), msg.name;
    if msg.action == "insert" || msg.action == "initial" || msg.action == "new" {
      assert EnabledRow(db', Changed(db, msg), name) <==> msg.config.enabled;
    }
    if msg.action == "delete" || msg.action == "new" {
      assert EnabledRow(db, Changed(db, msg), name) <==> db.rows[Changed(db, msg)].name == name && db.rows[Changed(db, msg)].config.enabled;
    }
    forall row | row != Changed(db, msg) || db'.rows == db.rows ensures EnabledRow(db', row, name) <==> EnabledRow(db, row, name) {
    }
  }

  /** A device that the message does not name agrees as before, unless the message renames it away. */
  lemma {:induction false} OtherDevice(m: Mirror, db: Db, msg: Msg, lookup: string -> Option<Vf>, name: string)
    requires OneToOne(lookup) && NamesUnique(db) && Allowed(db, msg) && name != msg.name
    requires Mirrors(m, db, lookup, name) && HoldsItsVf(m, lookup, name)
    ensures HoldsItsVf(Handle(m, msg, lookup), lookup, name)
    ensures Mirrors(Handle(m, msg, lookup), DbStep(db, msg), lookup, name)
            <==> !(Renames(db, msg, name) && Attachable(lookup, name) && db.rows[Changed(db, msg)].config.enabled)
  {
    EnabledOther(db, msg, name);
  }

  lemma {:induction false} SameDevice(m: Mirror, db: Db, msg: Msg, lookup: string -> Option<Vf>)
    requires NamesUnique(db) && Allowed(db, msg) && Carries(m, db)
    requires Mirrors(m, db, lookup, msg.name) && HoldsItsVf(m, lookup, msg.name)
    ensures HoldsItsVf(Handle(m, msg, lookup), lookup, msg.name)
    ensures Mirrors(Handle(m, msg, lookup), DbStep(db, msg), lookup, msg.name)
            <==> (msg.action == "new" && db.rows[Changed(db, msg)].name == msg.name ==> Safe(db, msg, lookup))
  {
    EnabledSame(db, msg);
  }

  lemma {:induction false} StillNoStrays(m: Mirror, msg: Msg, lookup: string -> Option<Vf>)
    requires NoStrays(m, lookup)
    ensures NoStrays(Handle(m, msg, lookup), lookup)
  {
    forall relay: nat | relay in Handle(m, msg, lookup).attached ensures exists name :: Owns(lookup, name, relay) {
      assert Owns(lookup, msg.name, relay) || relay in m.attached;
    }
  }

  /** One message keeps the agreement exactly when it is safe. */
  lemma {:induction false} StepAgreesExactlyWhen(m: Mirror, db: Db, msg: Msg, lookup: string -> Option<Vf>)
    requires OneToOne(lookup) && NamesUnique(db) && Allowed(db, msg) && Agrees(m, db, lookup)
    ensures Agrees(Handle(m, msg, lookup), DbStep(db, msg), lookup) <==> Safe(db, msg, lookup)
  {
    assert Mirrors(m, db, lookup, msg.name) && HoldsItsVf(m, lookup, msg.name);
    SameDevice(m, db, msg, lookup);
    StillNoStrays(m, msg, lookup);
    var m', db' := Handle(m, msg, lookup), DbStep(db, msg);
    if Safe(db, msg, lookup) {
      forall name ensures Mirrors(m', db', lookup, name) && HoldsItsVf(m', lookup, name) {
        assert Mirrors(m, db, lookup, name) && HoldsItsVf(m, lookup, name);
        if name != msg.name {
          OtherDevice(m, db, msg, lookup, name);
        }
      }
    } else {
      var before := db.rows[Changed(db, msg)].name;
      assert Mirrors(m, db, lookup, before) && HoldsItsVf(m, lookup, before);
      if before != msg.name {
        OtherDevice(m, db, msg, lookup, before);
      }
      assert !Mirrors(m', db', lookup, before);
    }
  }

  // ---------------------------------------------------------------- whole streams

  function HandleAll(m: Mirror, msgs: seq<Msg>, lookup: string -> Option<Vf>): Mirror {
    if msgs == [] then m else Handle(HandleAll(m, msgs[..|msgs| - 1], lookup), msgs[|msgs| - 1], lookup)
  }

  function DbAfter(db: Db, msgs: seq<Msg>): Db {
    if msgs == [] then db else DbStep(DbAfter(db, msgs[..|msgs| - 1]), msgs[|msgs| - 1])
  }

  ghost predicate AllAllowed(db: Db, msgs: seq<Msg>) {
    msgs == [] || (AllAllowed(db, msgs[..|msgs| - 1]) && Allowed(DbAfter(db, msgs[..|msgs| - 1]), msgs[|msgs| - 1]))
  }

  predicate AllSafe(db: Db, msgs: seq<Msg>, lookup: string -> Option<Vf>) {
    msgs == [] || (AllSafe(db, msgs[..|msgs| - 1], lookup) && Safe(DbAfter(db, msgs[..|msgs| - 1]), msgs[|msgs| - 1], lookup))
  }

  /** The mirror agrees with the database after every message. */
  ghost predicate AlwaysAgrees(m: Mirror, db: Db, msgs: seq<Msg>, lookup: string -> Option<Vf>) {
    && Agrees(HandleAll(m, msgs, lookup), DbAfter(db, msgs), lookup)
    && (msgs == [] || AlwaysAgrees(m, db, msgs[..|msgs| - 1], lookup))
  }

  const EMPTY_MIRROR := Mirror(map[], -1)
  const EMPTY_DB := Db(map[], None)

  lemma {:induction false} NamesStayUnique(msgs: seq<Msg>)
    requires AllAllowed(EMPTY_DB, msgs)
    ensures NamesUnique(DbAfter(EMPTY_DB, msgs))
  {
    if msgs != [] {
      NamesStayUnique(msgs[..|msgs| - 1]);
    }
  }

  /** Over any well-formed stream, the mirror agrees with the database throughout exactly when every
      message is safe. */
  lemma {:induction false} MirrorAgreesExactlyWhen(msgs: seq<Msg>, lookup: string -> Option<Vf>)
    requires OneToOne(lookup) && AllAllowed(EMPTY_DB, msgs)
    ensures AlwaysAgrees(EMPTY_MIRROR, EMPTY_DB, msgs, lookup) <==> AllSafe(EMPTY_DB, msgs, lookup)
  {
    if msgs != [] {
      var before, last := msgs[..|msgs| - 1], msgs[|msgs| - 1];
      MirrorAgreesExactlyWhen(before, lookup);
      var m, db := HandleAll(EMPTY_MIRROR, before, lookup), DbAfter(EMPTY_DB, before);
      if AlwaysAgrees(EMPTY_MIRROR, EMPTY_DB, before, lookup) {
        assert Agrees(m, db, lookup);
        NamesStayUnique(before);
        StepAgreesExactlyWhen(m, db, last, lookup);
      }
    }
  }

  lemma {:induction false} OneMoreMsg(m: Mirror, db: Db, msgs: seq<Msg>, msg: Msg, lookup: string -> Option<Vf>)
    ensures HandleAll(m, msgs + [msg], lookup) == Handle(HandleAll(m, msgs, lookup), msg, lookup)
    ensures DbAfter(db, msgs + [msg]) == DbStep(DbAfter(db, msgs), msg)
    ensures AllAllowed(db, msgs + [msg]) <==> AllAllowed(db, msgs) && Allowed(DbAfter(db, msgs), msg)
    ensures AllSafe(db, msgs + [msg], lookup) <==> AllSafe(db, msgs, lookup) && Safe(DbAfter(db, msgs), msg, lookup)
  {
    assert (msgs + [msg])[..|msgs|] == msgs;
  }

  /** A non-negative id is not enough: 4294967295 becomes the marker, and a row that loses its key
      leaves its VF attached. The old half carries no name, the new one no row id. */
  lemma {:induction false} LargeIdIsMissed(row: string, name: string, lookup: string -> Option<Vf>) returns (msgs: seq<Msg>)
    requires Attachable(lookup, name)
    ensures AllAllowed(EMPTY_DB, msgs) && !AllSafe(EMPTY_DB, msgs, lookup)
    ensures forall i :: 0 <= i < |msgs| ==> msgs[i].config.id >= 0
    ensures IsAttached(HandleAll(EMPTY_MIRROR, msgs, lookup), lookup(name).value) && !Enabled(DbAfter(EMPTY_DB, msgs), name)
  {
    var keyed := PortConfig(true, 0xFFFF_FFFF);
    var a, b, c := Msg(row, "insert", name, keyed), Msg(row, "old", "", keyed), Msg("", "new", name, NO_CONFIG);
    OneMoreMsg(EMPTY_MIRROR, EMPTY_DB, [], a, lookup);
    OneMoreMsg(EMPTY_MIRROR, EMPTY_DB, [] + [a], b, lookup);
    OneMoreMsg(EMPTY_MIRROR, EMPTY_DB, [] + [a] + [b], c, lookup);
    assert Truncate(0xFFFF_FFFF) == -1;
    msgs := [] + [a] + [b] + [c];
  }

  /** Renaming an interface with a key attaches the VF of the new name and leaves the one of the old
      name attached. */
  lemma {:induction false} RenameIsMissed(row: string, name: string, name': string, id: int, lookup: string -> Option<Vf>)
    returns (msgs: seq<Msg>)
    requires Attachable(lookup, name) && OneToOne(lookup) && name != name'
    ensures AllAllowed(EMPTY_DB, msgs) && !AllSafe(EMPTY_DB, msgs, lookup)
    ensures IsAttached(HandleAll(EMPTY_MIRROR, msgs, lookup), lookup(name).value) && !Enabled(DbAfter(EMPTY_DB, msgs), name)
  {
    var keyed := PortConfig(true, id);
    var a, b, c := Msg(row, "insert", name, keyed), Msg(row, "old", name, NO_CONFIG), Msg("", "new", name', keyed);
    OneMoreMsg(EMPTY_MIRROR, EMPTY_DB, [], a, lookup);
    OneMoreMsg(EMPTY_MIRROR, EMPTY_DB, [] + [a], b, lookup);
    OneMoreMsg(EMPTY_MIRROR, EMPTY_DB, [] + [a] + [b], c, lookup);
    msgs := [] + [a] + [b] + [c];
  }
}
