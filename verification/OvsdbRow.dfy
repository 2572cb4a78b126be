/** A row of the monitor's output: row id, action, interface name and external_ids. */
module OvsdbRow {
  import opened Common
  import opened OvsdbText
  import opened OvsdbMap

  datatype Row = Row(id: string, action: string, name: string, pairs: seq<Pair>)

  /** The four fields of a line; a badly quoted one makes the row unusable. */
  function ParseRow(line: string): Option<Row> {
    var id := ExtractField(line, 0);
    var action := ExtractField(line, id.next);
    var name := ExtractField(line, action.next);
    var ids := ExtractField(line, name.next);
    if id.Field? && action.Field? && name.Field? && ids.Field?
    then Some(Row(id.text, action.text, Unquote(name.text), PairsOf(ids.text)))
    else None
  }

  /** The parsing part of the line loop; the map is read only as far as the port configuration. */
  method ParseLine(line: string, strtol: string -> Number) returns (r: Option<(string, string, string, PortConfig)>)
    ensures r == match ParseRow(line)
                 case None => None
                 case Some(row) => Some((row.id, row.action, row.name, ConfigOf(row.pairs, strtol)))
  {
    var id := ExtractFieldLoop(line, 0);
    var action := ExtractFieldLoop(line, id.next);
    var name := ExtractFieldLoop(line, action.next);
    var ids := ExtractFieldLoop(line, name.next);
    if id.BadlyQuoted? || action.BadlyQuoted? || name.BadlyQuoted? || ids.BadlyQuoted? {
      return None;
    }
    var text := UnquoteLoop(name.text);
    var config := ParseMap(ids.text, strtol);
    r := Some((id.text, action.text, text, config));
  }

  /** The cell of the map column: empty, if the column did not change, or a map with any spacing. */
  datatype Cell = Empty | Braced(before: string, items: seq<Item>, inside: string)

  /** How a row may be printed: any valid quoting of its fields and words. */
  datatype Printed = Printed(id: Csv, action: Csv, name: Word, nameInQuotes: bool, cell: Cell, mapInQuotes: bool)

  function PrintCell(c: Cell): string {
    match c
    case Empty => ""
    case Braced(before, items, inside) => PrintMap(before, items, inside)
  }

  ghost predicate ValidCell(c: Cell) {
    c.Braced? ==> Blank(c.before) && Blank(c.inside) && ValidItems(c.items)
  }

  function PairsOfCell(c: Cell): seq<Pair> {
    match c
    case Empty => []
    case Braced(_, items, _) => PairsUpTo(items, |items|)
  }

  lemma {:induction false} CellComesBack(c: Cell)
    requires ValidCell(c)
    ensures PairsOf(PrintCell(c)) == PairsOfCell(c)
  {
    match c
    case Empty =>
    case Braced(before, items, inside) => MapComesBack(before, items, inside);
  }

  function AsCsv(inQuotes: bool, text: string): Csv {
    if inQuotes then InQuotes(text) else Plain(text)
  }

  function NameField(p: Printed): Csv {
    AsCsv(p.nameInQuotes, PrintWord(p.name))
  }

  function MapField(p: Printed): Csv {
    AsCsv(p.mapInQuotes, PrintCell(p.cell))
  }

  function PrintRow(p: Printed): string {
    PrintCsv(p.id) + ([','] + (PrintCsv(p.action) + ([','] + (PrintCsv(NameField(p)) + ([','] + PrintCsv(MapField(p)))))))
  }

  ghost predicate ValidPrinted(p: Printed) {
    && ValidCsv(p.id) && ValidCsv(p.action) && ValidCsv(NameField(p)) && ValidCsv(MapField(p))
    && '\0' !in p.name.text && (p.name.Bare? ==> CharAt(p.name.text, 0) != '"')
    && ValidCell(p.cell)
  }

  function RowOf(p: Printed): Row {
    Row(p.id.text, p.action.text, p.name.text, PairsOfCell(p.cell))
  }

  /** A field followed by a comma and more text. */
  lemma {:induction false} FieldThenMore(s: string, i: nat, f: Csv, rest: string) returns (next: nat)
    requires ValidCsv(f) && At(s, i, PrintCsv(f) + ([','] + rest))
    ensures ExtractField(s, i) == Field(f.text, next) && At(s, next, rest) && next == i + |PrintCsv(f)| + 1
  {
    var e := AtConcat(s, i, PrintCsv(f), [','] + rest);
    next := AtConcat(s, e, [','], rest);
    AtIndex(s, e, [','], 0);
    FieldComesBack(s, i, f);
  }

  lemma {:induction false} FourFieldsComeBack(s: string, a: Csv, b: Csv, c: Csv, d: Csv) returns (i: nat, j: nat, k: nat, l: nat)
    requires ValidCsv(a) && ValidCsv(b) && ValidCsv(c) && ValidCsv(d)
    requires s == PrintCsv(a) + ([','] + (PrintCsv(b) + ([','] + (PrintCsv(c) + ([','] + PrintCsv(d))))))
    ensures ExtractField(s, 0) == Field(a.text, i) && ExtractField(s, i) == Field(b.text, j)
    ensures ExtractField(s, j) == Field(c.text, k) && ExtractField(s, k) == Field(d.text, l)
  {
    i := FieldThenMore(s, 0, a, PrintCsv(b) + ([','] + (PrintCsv(c) + ([','] + PrintCsv(d)))));
    j := FieldThenMore(s, i, b, PrintCsv(c) + ([','] + PrintCsv(d)));
    k := FieldThenMore(s, j, c, PrintCsv(d));
    l := k + |PrintCsv(d)| + 1;
    FieldComesBack(s, k, d);
  }

  /** Row round trip: however a row is printed, its id, action, name and pairs come back. */
  lemma {:induction false} RowComesBack(p: Printed)
    requires ValidPrinted(p)
    ensures ParseRow(PrintRow(p)) == Some(RowOf(p))
  {
    var i, j, k, l := FourFieldsComeBack(PrintRow(p), p.id, p.action, NameField(p), MapField(p));
    WordComesBack(p.name);
    CellComesBack(p.cell);
  }
}
