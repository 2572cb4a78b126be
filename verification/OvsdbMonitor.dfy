/** From the bytes the monitor reads to the VFs it attaches: the line reader, the row parser and the
    mirror put together. */
module OvsdbMonitor {
  import opened Common
  import opened OvsdbText
  import opened OvsdbMap
  import opened OvsdbRow
  import opened OvsdbMirror
  import Lines = OvsdbLines

  function MsgOf(row: Row, strtol: string -> Number): Msg {
    Msg(row.id, row.action, row.name, ConfigOf(row.pairs, strtol))
  }

  function HandleLine(m: Mirror, line: string, lookup: string -> Option<Vf>, strtol: string -> Number): Mirror {
    match ParseRow(line)
    case None => m
    case Some(row) => Handle(m, MsgOf(row, strtol), lookup)
  }

  function Handler(lookup: string -> Option<Vf>, strtol: string -> Number): (Mirror, string) -> Mirror {
    (m: Mirror, line: string) => HandleLine(m, line, lookup, strtol)
  }

  /** parse_ovsdb_client: every row of the stream is parsed and processed, in order; the state it leaves
      depends on the stream alone, not on how it is read. */
  method ParseOvsdbClient(monitor: Monitor, stream: string, lookup: string -> Option<Vf>, strtol: string -> Number)
    requires '\0' !in stream
    modifies monitor
    ensures monitor.State() == Lines.Fold(Handler(lookup, strtol), old(monitor.State()), Lines.Rows(stream))
  {
    var rows, _ := Lines.ReadRows(stream, 0, (n, _) => n);
    for i := 0 to |rows|
      invariant monitor.State() == Lines.Fold(Handler(lookup, strtol), old(monitor.State()), rows[..i])
    {
      assert rows[..i + 1][..i] == rows[..i];
      var parsed := ParseLine(rows[i], strtol);
      if parsed.Some? {
        var (id, action, name, config) := parsed.value;
        monitor.ProcessExternalIds(Msg(id, action, name, config), lookup);
      }
    }
    assert rows[..|rows|] == rows;
  }

  // ---------------------------------------------------------------- what printed rows tell

  /** Item `j` is the last one with a forwarder key. */
  predicate LastKey(items: seq<Item>, j: nat) {
    && j < |items| && IsKey(items[j].key.text)
    && forall k :: j < k < |items| ==> !IsKey(items[k].key.text)
  }

  predicate IsKey(key: string) {
    key == "virtio_forwarder" || key == "virtio_relay"
  }

  /** The port configuration that the first `k` items tell: the last one with a forwarder key counts, and
      the port is enabled if its value is a number. */
  function ToldBy(items: seq<Item>, k: nat, strtol: string -> Number): PortConfig
    requires k <= |items|
  {
    if k == 0 then PortConfig(false, 0)
    else if IsKey(items[k - 1].key.text) then
      var n := strtol(items[k - 1].val.text);
      if n.bad then PortConfig(false, n.value) else PortConfig(true, n.value)
    else ToldBy(items, k - 1, strtol)
  }

  function CellTells(c: Cell, strtol: string -> Number): PortConfig {
    if c.Empty? then PortConfig(false, 0) else ToldBy(c.items, |c.items|, strtol)
  }

  /** The message that a printed row stands for. */
  function Told(row: Printed, strtol: string -> Number): Msg {
    Msg(row.id.text, row.action.text, row.name.text, CellTells(row.cell, strtol))
  }

  /** Item `j` is the last one with a forwarder key, and its value is the number `n`. */
  predicate Enables(items: seq<Item>, strtol: string -> Number, j: nat, n: int) {
    LastKey(items, j) && strtol(items[j].val.text) == Number(n, false)
  }

  lemma {:induction false} ToldUpTo(items: seq<Item>, k: nat, strtol: string -> Number, n: int)
    requires k <= |items| && forall j :: k <= j < |items| ==> !IsKey(items[j].key.text)
    ensures ToldBy(items, k, strtol) == PortConfig(true, n) <==> exists j: nat :: Enables(items, strtol, j, n)
  {
    if k > 0 {
      if IsKey(items[k - 1].key.text) {
        assert LastKey(items, k - 1);
        forall j: nat | LastKey(items, j) ensures j == k - 1 {
        }
        assert Enables(items, strtol, k - 1, n) <==> strtol(items[k - 1].val.text) == Number(n, false);
      } else {
        ToldUpTo(items, k - 1, strtol, n);
      }
    }
  }

  /** A row is enabled with id `n` exactly if its last item with the key virtio_forwarder or virtio_relay
      has the number `n` as its value. */
  lemma {:induction false} ToldExactlyWhen(items: seq<Item>, strtol: string -> Number, n: int)
    ensures ToldBy(items, |items|, strtol) == PortConfig(true, n) <==> exists j: nat :: Enables(items, strtol, j, n)
  {
    ToldUpTo(items, |items|, strtol, n);
  }

  lemma {:induction false} ToldIsParsed(items: seq<Item>, k: nat, strtol: string -> Number)
    requires k <= |items|
    ensures ToldBy(items, k, strtol) == ConfigOf(PairsUpTo(items, k), strtol)
  {
    if k > 0 {
      ToldIsParsed(items, k - 1, strtol);
      var before, last := PairsUpTo(items, k - 1), PairOf(items[k - 1]);
      assert (before + [last])[..|before|] == before;
    }
  }

  /** Parsing a printed row gives the message it stands for. */
  lemma {:induction false} ToldRow(row: Printed, strtol: string -> Number)
    ensures MsgOf(RowOf(row), strtol) == Told(row, strtol)
  {
    if row.cell.Braced? {
      ToldIsParsed(row.cell.items, |row.cell.items|, strtol);
    }
  }

  /** The lines that print the rows, one each. */
  ghost predicate Prints(lines: seq<string>, rows: seq<Printed>) {
    |lines| == |rows| && forall i: nat :: PrintsAt(lines, rows, i)
  }

  ghost predicate PrintsAt(lines: seq<string>, rows: seq<Printed>, i: nat) {
    i < |rows| && i < |lines| ==> PrintsOne(lines[i], rows[i])
  }

  /** A printed row is one line that fits the buffer. */
  ghost predicate PrintsOne(line: string, row: Printed) {
    ValidPrinted(row) && line == PrintRow(row) && '\n' !in line && Lines.Fits(line)
  }

  /** The messages that printed rows stand for. */
  function MsgsOf(rows: seq<Printed>, strtol: string -> Number): (r: seq<Msg>)
    ensures |r| == |rows|
  {
    if rows == [] then [] else MsgsOf(rows[..|rows| - 1], strtol) + [Told(rows[|rows| - 1], strtol)]
  }

  lemma {:induction false} AllWanted(lines: seq<string>)
    requires forall i :: 0 <= i < |lines| ==> Lines.Fits(lines[i])
    ensures Lines.Wanted(lines) == lines
  {
    if lines != [] {
      AllWanted(lines[..|lines| - 1]);
      assert lines == lines[..|lines| - 1] + [lines[|lines| - 1]];
    }
  }

  /** The rows of a stream that holds the lines and then an unfinished one are those lines. */
  lemma {:induction false} RowsComeBack(lines: seq<string>, tail: string)
    requires forall i :: 0 <= i < |lines| ==> '\n' !in lines[i] && Lines.Fits(lines[i])
    requires '\n' !in tail
    ensures Lines.Rows(Lines.Join(lines) + tail) == lines
  {
    var text := Lines.Join(lines);
    var stream := text + tail;
    Lines.LinesComeBack(lines);
    Lines.SplitDependsOnPrefix(text, tail, |text|);
    Lines.WithoutNewline(stream, |text|, |stream|);
    AllWanted(lines);
  }

  lemma {:induction false} HandledLine(m: Mirror, line: string, row: Printed, lookup: string -> Option<Vf>, strtol: string -> Number)
    requires PrintsOne(line, row)
    ensures Handler(lookup, strtol)(m, line) == Handle(m, Told(row, strtol), lookup)
  {
    RowComesBack(row);
    ToldRow(row, strtol);
  }

  lemma {:induction false} PrintsPrefix(lines: seq<string>, rows: seq<Printed>, n: nat)
    requires Prints(lines, rows) && n < |rows|
    ensures Prints(lines[..n], rows[..n]) && PrintsOne(lines[n], rows[n])
  {
    assert PrintsAt(lines, rows, n);
    forall i: nat ensures PrintsAt(lines[..n], rows[..n], i) {
      assert PrintsAt(lines, rows, i);
    }
  }

  lemma {:induction false} LastMsg(rows: seq<Printed>, n: nat, strtol: string -> Number)
    requires |rows| == n + 1
    ensures MsgsOf(rows, strtol) == MsgsOf(rows[..n], strtol) + [Told(rows[n], strtol)]
  {
  }

  lemma {:induction false} LastLine(lines: seq<string>, n: nat, handle: (Mirror, string) -> Mirror)
    requires |lines| == n + 1
    ensures Lines.Fold(handle, EMPTY_MIRROR, lines) == handle(Lines.Fold(handle, EMPTY_MIRROR, lines[..n]), lines[n])
  {
  }

  lemma {:induction false} HandledRows(lines: seq<string>, rows: seq<Printed>, lookup: string -> Option<Vf>, strtol: string -> Number)
    requires Prints(lines, rows)
    ensures Lines.Fold(Handler(lookup, strtol), EMPTY_MIRROR, lines) == HandleAll(EMPTY_MIRROR, MsgsOf(rows, strtol), lookup)
    decreases |rows|
  {
    if |rows| > 0 {
      var n := |rows| - 1;
      var handle, before, last := Handler(lookup, strtol), MsgsOf(rows[..n], strtol), Told(rows[n], strtol);
      PrintsPrefix(lines, rows, n);
      HandledRows(lines[..n], rows[..n], lookup, strtol);
      LastLine(lines, n, handle);
      HandledLine(Lines.Fold(handle, EMPTY_MIRROR, lines[..n]), lines[n], rows[n], lookup, strtol);
      LastMsg(rows, n, strtol);
      OneMoreMsg(EMPTY_MIRROR, EMPTY_DB, before, last, lookup);
    }
  }

  lemma {:induction false} SafeMeansAgreement(msgs: seq<Msg>, lookup: string -> Option<Vf>)
    requires OneToOne(lookup) && AllAllowed(EMPTY_DB, msgs) && AllSafe(EMPTY_DB, msgs, lookup)
    ensures Agrees(HandleAll(EMPTY_MIRROR, msgs, lookup), DbAfter(EMPTY_DB, msgs), lookup)
  {
    MirrorAgreesExactlyWhen(msgs, lookup);
  }

  /** End to end: print the rows of a well-formed and safe stream with any quoting and spacing, read
      them in any pieces, and the attached VFs are those of the rows that carry the forwarder key. */
  lemma {:induction false} MonitorMirrorsDatabase(rows: seq<Printed>, lines: seq<string>, tail: string,
                                                   lookup: string -> Option<Vf>, strtol: string -> Number)
    requires Prints(lines, rows) && '\n' !in tail && OneToOne(lookup)
    requires AllAllowed(EMPTY_DB, MsgsOf(rows, strtol)) && AllSafe(EMPTY_DB, MsgsOf(rows, strtol), lookup)
    ensures Agrees(Lines.Fold(Handler(lookup, strtol), EMPTY_MIRROR, Lines.Rows(Lines.Join(lines) + tail)),
                   DbAfter(EMPTY_DB, MsgsOf(rows, strtol)), lookup)
  {
    forall i | 0 <= i < |lines| ensures '\n' !in lines[i] && Lines.Fits(lines[i]) {
      assert PrintsAt(lines, rows, i);
    }
    RowsComeBack(lines, tail);
    HandledRows(lines, rows, lookup, strtol);
    SafeMeansAgreement(MsgsOf(rows, strtol), lookup);
  }
}
