/** parse_map: a six-state machine over the text of a map column, proved against a recursive-descent
    reading, and the round trip of well-formed map text. */
module OvsdbMap {
  import opened OvsdbText

  datatype Pair = Pair(key: string, val: string)

  /** What strtol with base 0 makes of a value; `bad` if it reports a range error or no digits. */
  datatype Number = Number(value: int, bad: bool)
  datatype PortConfig = PortConfig(enabled: bool, id: int)

  const FORWARDER := "virtio_forwarder"
  const RELAY_ID := "virtio_relay"

  predicate IsSpace(c: char) {
    c == ' ' || c == '\t' || c == '\n' || c == '\r' || c == '\U{0B}' || c == '\U{0C}'
  }

  // ---------------------------------------------------------------- words inside a map

  function SkipSpace(s: string, i: nat): (r: nat)
    ensures i <= r && (IsSpace(CharAt(s, i)) ==> i < r) && !IsSpace(CharAt(s, r))
    decreases |s| - i
  {
    if IsSpace(CharAt(s, i)) then SkipSpace(s, i + 1) else i
  }

  /** The text of a word, where it ends, and whether its closing quote was found. */
  datatype Scan = Scan(text: string, next: nat, closed: bool)

  function QuotedWord(s: string, i: nat, acc: string): (r: Scan)
    ensures r.next >= i && (r.closed ==> i < r.next)
    decreases |s| - i
  {
    if CharAt(s, i) == '\0' then Scan(acc, i, false)
    else if s[i] == '"' then Scan(acc, i + 1, true)
    else if s[i] == '\\' then QuotedWord(s, i + 2, acc + [CharAt(s, i + 1)])
    else QuotedWord(s, i + 1, acc + [s[i]])
  }

  function BareWord(s: string, i: nat, a: char, b: char, acc: string): (r: Scan)
    ensures r.next >= i && r.closed
    decreases |s| - i
  {
    if IsSpace(CharAt(s, i)) || CharAt(s, i) == '\0' || Stops(CharAt(s, i), a, b) then Scan(acc, i, true)
    else BareWord(s, i + 1, a, b, acc + [s[i]])
  }

  function ScanWord(s: string, i: nat, a: char, b: char): (r: Scan)
    ensures r.next >= i
  {
    if CharAt(s, i) == '"' then QuotedWord(s, i + 1, []) else BareWord(s, i, a, b, [])
  }

  // ---------------------------------------------------------------- recursive descent

  function Left(s: string, i: nat): nat {
    if i < |s| then |s| - i else 0
  }

  /** The position of the expected character, or of the first one after an unexpected character. */
  function Expect(s: string, i: nat, a: char, b: char): (r: nat)
    ensures i <= r
  {
    if Stops(CharAt(s, i), a, b) then i else SkipTo(s, i + 1, a, b)
  }

  /** One pair of the map: none, the last one, or one with the position behind its comma. */
  datatype Piece = Nothing | Last(pair: Pair) | More(pair: Pair, next: nat)

  function FromSep(s: string, i0: nat, pair: Pair): (p: Piece)
    ensures p.More? ==> Left(s, p.next) < Left(s, i0)
  {
    var i := Expect(s, SkipSpace(s, i0), ',', '}');
    if CharAt(s, i) == ',' then More(pair, i + 1) else Last(pair)
  }

  function FromVal(s: string, i0: nat, key: string): (p: Piece)
    ensures p.More? ==> Left(s, p.next) < Left(s, i0)
  {
    var v := ScanWord(s, SkipSpace(s, i0), ',', '}');
    if v.closed then FromSep(s, v.next, Pair(key, v.text)) else Last(Pair(key, v.text))
  }

  function FromEq(s: string, i0: nat, key: string): (p: Piece)
    ensures p.More? ==> Left(s, p.next) < Left(s, i0)
  {
    var i := Expect(s, SkipSpace(s, i0), '=', '=');
    if CharAt(s, i) == '=' then FromVal(s, i + 1, key) else Nothing
  }

  function FromKey(s: string, i0: nat): (p: Piece)
    ensures p.More? ==> Left(s, p.next) < Left(s, i0)
  {
    var i := SkipSpace(s, i0);
    if CharAt(s, i) == '}' then Nothing
    else
      var k := ScanWord(s, i, '=', '=');
      if k.closed then FromEq(s, k.next, k.text) else Nothing
  }

  function PairsFrom(s: string, i: nat, acc: seq<Pair>): seq<Pair>
    decreases Left(s, i)
  {
    match FromKey(s, i)
    case Nothing => acc
    case Last(p) => acc + [p]
    case More(p, next) => PairsFrom(s, next, acc + [p])
  }

  /** The pairs of a map column. */
  function PairsOf(s: string): seq<Pair> {
    var i := Expect(s, SkipSpace(s, 0), '{', '{');
    if CharAt(s, i) == '{' then PairsFrom(s, i + 1, []) else []
  }

  // ---------------------------------------------------------------- what the pairs mean

  predicate IsToken(key: string) {
    key == FORWARDER || key == RELAY_ID
  }

  function Update(c: PortConfig, p: Pair, strtol: string -> Number): PortConfig {
    if IsToken(p.key) then PortConfig(!strtol(p.val).bad, strtol(p.val).value) else c
  }

  function ConfigOf(pairs: seq<Pair>, strtol: string -> Number): PortConfig {
    if pairs == [] then PortConfig(false, 0)
    else Update(ConfigOf(pairs[..|pairs| - 1], strtol), pairs[|pairs| - 1], strtol)
  }

  /** The last pair with a forwarder key decides; without one, the port is not enabled. */
  lemma {:induction false} LastKeyDecides(pairs: seq<Pair>, strtol: string -> Number, last: int)
    requires -1 <= last < |pairs| && (last >= 0 ==> IsToken(pairs[last].key))
    requires forall i :: last < i < |pairs| ==> !IsToken(pairs[i].key)
    ensures ConfigOf(pairs, strtol)
            == if last < 0 then PortConfig(false, 0)
               else PortConfig(!strtol(pairs[last].val).bad, strtol(pairs[last].val).value)
  {
    if |pairs| > 0 && last < |pairs| - 1 {
      LastKeyDecides(pairs[..|pairs| - 1], strtol, last);
    }
  }

  // ---------------------------------------------------------------- the state machine

  datatype State = START | KEY | EQ | VAL | SEP | DONE

  method SkipSpaceLoop(s: string, from: nat) returns (i: nat)
    ensures i == SkipSpace(s, from)
  {
    i := from;
    while IsSpace(CharAt(s, i))
      invariant SkipSpace(s, i) == SkipSpace(s, from)
      decreases |s| - i
    {
      i := i + 1;
    }
  }

  method ExpectLoop(s: string, from: nat, a: char, b: char) returns (i: nat)
    ensures i == Expect(s, from, a, b)
  {
    i := from;
    if !Stops(CharAt(s, i), a, b) {
      i := SkipToLoop(s, i + 1, a, b);
    }
  }

  method ScanWordLoop(s: string, from: nat, a: char, b: char) returns (r: Scan)
    ensures r == ScanWord(s, from, a, b)
  {
    var i, text := from, [];
    if CharAt(s, from) == '"' {
      i := i + 1;
      while true
        invariant QuotedWord(s, i, text) == ScanWord(s, from, a, b)
        decreases |s| - i
      {
        if CharAt(s, i) == '\0' {
          return Scan(text, i, false);
        }
        if CharAt(s, i) == '"' {
          return Scan(text, i + 1, true);
        } else if CharAt(s, i) == '\\' {
          i := i + 1;
        }
        text := text + [CharAt(s, i)];
        i := i + 1;
      }
    }
    while !IsSpace(CharAt(s, i)) && CharAt(s, i) != '\0' && !Stops(CharAt(s, i), a, b)
      invariant BareWord(s, i, a, b, text) == ScanWord(s, from, a, b)
      decreases |s| - i
    {
      text := text + [CharAt(s, i)];
      i := i + 1;
    }
    r := Scan(text, i, true);
  }

  ghost function Finish(s: string, p: Piece, acc: seq<Pair>): seq<Pair> {
    match p
    case Nothing => acc
    case Last(pair) => acc + [pair]
    case More(pair, next) => PairsFrom(s, next, acc + [pair])
  }

  ghost function AfterSep(s: string, i: nat, acc: seq<Pair>): seq<Pair> {
    if CharAt(s, i) == ',' then PairsFrom(s, i + 1, acc) else acc
  }

  /** What recursive descent would still read from this state on. */
  ghost function Rest(state: State, s: string, i: nat, key: string, acc: seq<Pair>): seq<Pair> {
    match state
    case START => PairsOf(s)
    case KEY => PairsFrom(s, i, acc)
    case EQ => Finish(s, FromEq(s, i, key), acc)
    case VAL => Finish(s, FromVal(s, i, key), acc)
    case SEP => AfterSep(s, Expect(s, SkipSpace(s, i), ',', '}'), acc)
    case DONE => acc
  }

  function Rank(state: State): nat {
    match state case START => 4 case KEY => 3 case EQ => 2 case VAL => 1 case SEP => 0 case DONE => 0
  }

  /** The states that look for a character: whether `a` was found, and the position behind it. */
  method FindDelimiter(s: string, from: nat, a: char, b: char) returns (found: bool, i: nat)
    requires a != '\0'
    ensures i == Expect(s, SkipSpace(s, from), a, b) + 1
    ensures found <==> CharAt(s, i - 1) == a
    ensures found ==> Left(s, i) < Left(s, from)
  {
    i := SkipSpaceLoop(s, from);
    i := ExpectLoop(s, i, a, b);
    found := CharAt(s, i) == a;
    i := i + 1;
  }

  method FindBrace(s: string) returns (state: State, i: nat)
    ensures state == DONE || (state == KEY && Left(s, i) < Left(s, 0))
    ensures Rest(state, s, i, [], []) == PairsOf(s)
  {
    var found;
    found, i := FindDelimiter(s, 0, '{', '{');
    state := if found then KEY else DONE;
  }

  method FindEquals(s: string, from: nat, ghost key: string, ghost acc: seq<Pair>) returns (state: State, i: nat)
    ensures state == DONE || (state == VAL && Left(s, i) < Left(s, from))
    ensures Rest(state, s, i, key, acc) == Finish(s, FromEq(s, from, key), acc)
  {
    var found;
    found, i := FindDelimiter(s, from, '=', '=');
    state := if found then VAL else DONE;
  }

  method FindSeparator(s: string, from: nat, ghost key: string, ghost acc: seq<Pair>) returns (state: State, i: nat)
    ensures state == DONE || (state == KEY && Left(s, i) < Left(s, from))
    ensures Rest(state, s, i, key, acc) == Rest(SEP, s, from, key, acc)
  {
    var found;
    found, i := FindDelimiter(s, from, ',', '}');
    state := if found then KEY else DONE;
  }

  method ReadKey(s: string, from: nat, ghost acc: seq<Pair>) returns (state: State, i: nat, key: string)
    ensures Left(s, i) <= Left(s, from) && (state == EQ || state == DONE)
    ensures Rest(state, s, i, key, acc) == PairsFrom(s, from, acc)
  {
    i := SkipSpaceLoop(s, from);
    state, key := DONE, [];
    if CharAt(s, i) != '}' {
      var k := ScanWordLoop(s, i, '=', '=');
      state, i, key := if k.closed then EQ else DONE, k.next, k.text;
    }
  }

  method ReadVal(s: string, from: nat, key: string, ghost acc: seq<Pair>) returns (state: State, i: nat, val: string)
    ensures Left(s, i) <= Left(s, from) && (state == SEP || state == DONE)
    ensures Rest(state, s, i, key, acc + [Pair(key, val)]) == Finish(s, FromVal(s, from, key), acc)
  {
    i := SkipSpaceLoop(s, from);
    var v := ScanWordLoop(s, i, ',', '}');
    state, i, val := if v.closed then SEP else DONE, v.next, v.text;
  }

  /** parse_map. */
  method ParseMap(s: string, strtol: string -> Number) returns (config: PortConfig)
    ensures config == ConfigOf(PairsOf(s), strtol)
  {
    var state, i: nat, key := START, 0, [];
    config := PortConfig(false, 0);
    ghost var pairs: seq<Pair> := [];
    while state != DONE
      invariant Rest(state, s, i, key, pairs) == PairsOf(s) && (state == START ==> i == 0 && key == [] && pairs == [])
      invariant config == ConfigOf(pairs, strtol)
      decreases state != DONE, Left(s, i), Rank(state)
    {
      match state {
        case START =>
          state, i := FindBrace(s);
        case KEY =>
          state, i, key := ReadKey(s, i, pairs);
        case EQ =>
          state, i := FindEquals(s, i, key, pairs);
        case VAL =>
          var val;
          state, i, val := ReadVal(s, i, key, pairs);
          pairs := pairs + [Pair(key, val)];
          if key == FORWARDER || key == RELAY_ID {
            config := PortConfig(!strtol(val).bad, strtol(val).value);
          }
        case SEP =>
          state, i := FindSeparator(s, i, key, pairs);
      }
    }
  }

  // ---------------------------------------------------------------- printed maps

  /** A pair with the white space before its key, its equals sign, its value and what follows. */
  datatype Item = Item(beforeKey: string, key: Word, beforeEq: string, beforeVal: string, val: Word, afterVal: string)

  /** Blank, tab, newline, vertical tab, form feed, carriage return. */
  predicate White(c: char) {
    c == ' ' || '\t' <= c <= '\r'
  }

  predicate BlankAt(w: string, i: nat) {
    i < |w| ==> White(w[i])
  }

  ghost predicate Blank(w: string) {
    forall i: nat :: BlankAt(w, i)
  }

  /** Character `i` may stand in a bare word that ends at white space, `a` or `b`. */
  predicate OrdinaryAt(t: string, i: nat, a: char, b: char) {
    i < |t| ==> t[i] != '\0' && !White(t[i]) && !Stops(t[i], a, b)
  }

  ghost predicate Ordinary(t: string, a: char, b: char) {
    forall i: nat :: OrdinaryAt(t, i, a, b)
  }

  /** A bare word has only ordinary characters and does not look like a quoted one. */
  ghost predicate ValidWord(w: Word, a: char, b: char) {
    match w
    case Bare(t) => Ordinary(t, a, b) && |t| > 0 && t[0] != '"'
    case Quoted(t, _) => '\0' !in t
  }

  ghost predicate ValidItem(it: Item) {
    && Blank(it.beforeKey) && Blank(it.beforeEq) && Blank(it.beforeVal) && Blank(it.afterVal)
    && ValidWord(it.key, '=', '=') && (it.key.Bare? ==> it.key.text[0] != '}')
    && ValidWord(it.val, ',', '}')
  }

  function PrintKey(it: Item): string {
    it.beforeKey + (PrintWord(it.key) + (it.beforeEq + ['=']))
  }

  function PrintVal(it: Item, sep: char): string {
    it.beforeVal + (PrintWord(it.val) + (it.afterVal + [sep]))
  }

  function PrintItems(items: seq<Item>, k: nat): string
    requires k < |items|
    decreases |items| - k
  {
    if k + 1 == |items| then PrintKey(items[k]) + PrintVal(items[k], '}')
    else PrintKey(items[k]) + (PrintVal(items[k], ',') + PrintItems(items, k + 1))
  }

  /** A map: blanks, an opening brace, the items, a closing brace; anything may follow. */
  function PrintMap(before: string, items: seq<Item>, inside: string): string {
    before + (['{'] + (if items == [] then inside + ['}'] else PrintItems(items, 0)))
  }

  function PairOf(it: Item): Pair {
    Pair(it.key.text, it.val.text)
  }

  /** The pairs of the first `k` items. */
  function PairsUpTo(items: seq<Item>, k: nat): seq<Pair>
    requires k <= |items|
  {
    if k == 0 then [] else PairsUpTo(items, k - 1) + [PairOf(items[k - 1])]
  }

  // ---------------------------------------------------------------- round trip

  lemma {:induction false} BlanksSkipped(s: string, i: nat, w: string, k: nat)
    requires k <= |w| && Blank(w) && At(s, i, w) && !IsSpace(CharAt(s, i + |w|))
    ensures SkipSpace(s, i + k) == i + |w|
    decreases |w| - k
  {
    if k < |w| {
      AtIndex(s, i, w, k);
      assert BlankAt(w, k);
      BlanksSkipped(s, i, w, k + 1);
    }
  }

  /** After blanks comes the text `t`. */
  lemma {:induction false} SkipBefore(s: string, i: nat, w: string, t: string) returns (j: nat)
    requires Blank(w) && At(s, i, w + t) && |t| > 0 && !IsSpace(t[0])
    ensures j == i + |w| && SkipSpace(s, i) == j && At(s, j, t) && CharAt(s, j) == t[0]
  {
    j := AtConcat(s, i, w, t);
    AtIndex(s, j, t, 0);
    BlanksSkipped(s, i, w, 0);
  }

  lemma {:induction false} QuotedWordComesBack(s: string, i: nat, t: string, k: nat, extra: set<nat>)
    requires k <= |t| && At(s, i, Escaped(t, k, extra) + ['"']) && '\0' !in t
    ensures QuotedWord(s, i, t[..k]) == Scan(t, i + |Escaped(t, k, extra)| + 1, true)
    decreases |t| - k
  {
    if k < |t| {
      var n, j := EscapedHead(s, i, t, k, extra);
      assert t[k] in t && t[..k + 1] == t[..k] + [t[k]];
      QuotedWordComesBack(s, j, t, k + 1, extra);
    } else {
      AtIndex(s, i, Escaped(t, k, extra) + ['"'], 0);
      assert t[..k] == t;
    }
  }

  lemma {:induction false} BareWordComesBack(s: string, i: nat, t: string, k: nat, a: char, b: char)
    requires k <= |t| && At(s, i, t) && Ordinary(t, a, b)
    requires IsSpace(CharAt(s, i + |t|)) || Stops(CharAt(s, i + |t|), a, b)
    ensures BareWord(s, i + k, a, b, t[..k]) == Scan(t, i + |t|, true)
    decreases |t| - k
  {
    if k < |t| {
      AtIndex(s, i, t, k);
      assert OrdinaryAt(t, k, a, b);
      assert t[..k + 1] == t[..k] + [t[k]];
      BareWordComesBack(s, i, t, k + 1, a, b);
    } else {
      assert t[..k] == t;
    }
  }

  /** A printed word, followed by white space or by `a` or `b`, comes back. */
  lemma {:induction false} ScanComesBack(s: string, i: nat, e: nat, w: Word, a: char, b: char)
    requires ValidWord(w, a, b) && At(s, i, PrintWord(w)) && e == i + |PrintWord(w)|
    requires IsSpace(CharAt(s, e)) || Stops(CharAt(s, e), a, b)
    ensures ScanWord(s, i, a, b) == Scan(w.text, e, true)
  {
    AtIndex(s, i, PrintWord(w), 0);
    assert w.text[..0] == [];
    if w.Bare? {
      BareWordComesBack(s, i, w.text, 0, a, b);
    } else {
      var j := AtConcat(s, i, ['"'], Escaped(w.text, 0, w.extra) + ['"']);
      QuotedWordComesBack(s, j, w.text, 0, w.extra);
    }
  }

  lemma {:induction false} WordStart(w: Word, a: char, b: char)
    requires ValidWord(w, a, b)
    ensures |PrintWord(w)| > 0 && !IsSpace(PrintWord(w)[0])
    ensures w.Quoted? ==> PrintWord(w)[0] == '"'
  {
    assert w.Bare? ==> OrdinaryAt(w.text, 0, a, b);
  }

  /** Blanks, a word, blanks and one of the stop characters: both words of a pair are read this way. */
  lemma {:induction false} WordThenStop(s: string, i: nat, before: string, w: Word, after: string, stop: char, a: char, b: char)
    returns (j: nat, e: nat, z: nat)
    requires Blank(before) && Blank(after) && ValidWord(w, a, b) && Stops(stop, a, b) && !IsSpace(stop)
    requires At(s, i, before + (PrintWord(w) + (after + [stop])))
    ensures z == i + |before| + |PrintWord(w)| + |after|
    ensures SkipSpace(s, i) == j && |PrintWord(w)| > 0 && CharAt(s, j) == PrintWord(w)[0]
    ensures ScanWord(s, j, a, b) == Scan(w.text, e, true)
    ensures SkipSpace(s, e) == z && CharAt(s, z) == stop
  {
    WordStart(w, a, b);
    j := SkipBefore(s, i, before, PrintWord(w) + (after + [stop]));
    e := AtConcat(s, j, PrintWord(w), after + [stop]);
    AtIndex(s, e, after + [stop], 0);
    assert after != [] ==> BlankAt(after, 0);
    z := SkipBefore(s, e, after, [stop]);
    ScanComesBack(s, j, e, w, a, b);
  }

  lemma {:induction false} KeyComesBack(s: string, i: nat, v: nat, it: Item)
    requires ValidItem(it) && At(s, i, PrintKey(it)) && v == i + |PrintKey(it)|
    ensures FromKey(s, i) == FromVal(s, v, it.key.text)
  {
    WordStart(it.key, '=', '=');
    var j, e, z := WordThenStop(s, i, it.beforeKey, it.key, it.beforeEq, '=', '=', '=');
    assert v == z + 1;
  }

  lemma {:induction false} ValComesBack(s: string, v: nat, next: nat, it: Item, sep: char)
    requires ValidItem(it) && (sep == ',' || sep == '}') && At(s, v, PrintVal(it, sep)) && next == v + |PrintVal(it, sep)|
    ensures FromVal(s, v, it.key.text) == if sep == ',' then More(PairOf(it), next) else Last(PairOf(it))
  {
    var j, e, z := WordThenStop(s, v, it.beforeVal, it.val, it.afterVal, sep, ',', '}');
    assert next == z + 1;
  }

  ghost predicate ValidItems(items: seq<Item>) {
    forall j :: 0 <= j < |items| ==> ValidItem(items[j])
  }

  lemma {:induction false} PairComesBack(s: string, i: nat, v: nat, next: nat, it: Item, sep: char)
    requires ValidItem(it) && (sep == ',' || sep == '}')
    requires At(s, i, PrintKey(it)) && v == i + |PrintKey(it)| && At(s, v, PrintVal(it, sep)) && next == v + |PrintVal(it, sep)|
    ensures FromKey(s, i) == if sep == ',' then More(PairOf(it), next) else Last(PairOf(it))
  {
    KeyComesBack(s, i, v, it);
    ValComesBack(s, v, next, it, sep);
  }

  lemma {:induction false} SplitItems(s: string, i: nat, items: seq<Item>, k: nat) returns (v: nat, next: nat)
    requires k < |items| && At(s, i, PrintItems(items, k))
    ensures var it, sep := items[k], if k + 1 == |items| then '}' else ',';
      At(s, i, PrintKey(it)) && v == i + |PrintKey(it)| && At(s, v, PrintVal(it, sep)) && next == v + |PrintVal(it, sep)|
    ensures k + 1 < |items| ==> At(s, next, PrintItems(items, k + 1))
  {
    if k + 1 == |items| {
      v := AtConcat(s, i, PrintKey(items[k]), PrintVal(items[k], '}'));
      next := v + |PrintVal(items[k], '}')|;
    } else {
      v := AtConcat(s, i, PrintKey(items[k]), PrintVal(items[k], ',') + PrintItems(items, k + 1));
      next := AtConcat(s, v, PrintVal(items[k], ','), PrintItems(items, k + 1));
    }
  }

  lemma {:induction false} ItemsComeBack(s: string, i: nat, items: seq<Item>, k: nat)
    requires k < |items| && At(s, i, PrintItems(items, k)) && ValidItems(items)
    ensures PairsFrom(s, i, PairsUpTo(items, k)) == PairsUpTo(items, |items|)
    decreases |items| - k
  {
    var v, next := SplitItems(s, i, items, k);
    PairComesBack(s, i, v, next, items[k], if k + 1 == |items| then '}' else ',');
    if k + 1 < |items| {
      ItemsComeBack(s, next, items, k + 1);
    }
  }

  lemma {:induction false} EmptyMapComesBack(s: string, i: nat, inside: string)
    requires Blank(inside) && At(s, i, inside + ['}'])
    ensures PairsFrom(s, i, []) == []
  {
    var _ := SkipBefore(s, i, inside, ['}']);
  }

  lemma {:induction false} OpeningBrace(before: string, body: string) returns (j: nat)
    requires Blank(before)
    ensures var s := before + (['{'] + body);
      j == |before| + 1 && At(s, j, body) && PairsOf(s) == PairsFrom(s, j, [])
  {
    var s := before + (['{'] + body);
    var i := SkipBefore(s, 0, before, ['{'] + body);
    j := AtConcat(s, i, ['{'], body);
  }

  /** Whatever its spacing and quoting, a printed map gives back its pairs in order. */
  lemma {:induction false} MapComesBack(before: string, items: seq<Item>, inside: string)
    requires Blank(before) && Blank(inside) && ValidItems(items)
    ensures PairsOf(PrintMap(before, items, inside)) == PairsUpTo(items, |items|)
  {
    var s := PrintMap(before, items, inside);
    var j := OpeningBrace(before, if items == [] then inside + ['}'] else PrintItems(items, 0));
    if items == [] {
      EmptyMapComesBack(s, j, inside);
    } else {
      assert PairsUpTo(items, 0) == [];
      ItemsComeBack(s, j, items, 0);
    }
  }
}
