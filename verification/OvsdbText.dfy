/** CSV fields and quoted words as the OVSDB monitor reads them, and how they are printed.

    A terminated string is a `string`; positions at or past its end read as NUL. */
module OvsdbText {

  function CharAt(s: string, i: nat): char {
    if i < |s| then s[i] else '\0'
  }

  predicate SameAt(s: string, i: nat, t: string, k: nat) {
    k < |t| ==> i + k < |s| && s[i + k] == t[k]
  }

  /** `t` stands in `s` at position `i`. */
  ghost predicate At(s: string, i: nat, t: string) {
    i + |t| <= |s| && forall k: nat :: SameAt(s, i, t, k)
  }

  lemma {:induction false} AtConcat(s: string, i: nat, t: string, u: string) returns (j: nat)
    requires At(s, i, t + u)
    ensures At(s, i, t) && At(s, j, u) && j == i + |t|
  {
    j := i + |t|;
    forall k: nat ensures SameAt(s, i, t, k) {
      assert SameAt(s, i, t + u, k);
    }
    forall k: nat ensures SameAt(s, j, u, k) {
      assert SameAt(s, i, t + u, |t| + k);
    }
  }

  lemma {:induction false} AtIndex(s: string, i: nat, t: string, k: nat)
    requires At(s, i, t) && k < |t|
    ensures s[i + k] == t[k]
  {
    assert SameAt(s, i, t, k);
  }

  predicate Stops(c: char, a: char, b: char) {
    c == a || c == b
  }

  /** The first position from `i` on whose character is `a` or `b`, or where the string ends. */
  function SkipTo(s: string, i: nat, a: char, b: char): (r: nat)
    ensures i <= r && (CharAt(s, r) == '\0' || Stops(CharAt(s, r), a, b))
    decreases |s| - i
  {
    if CharAt(s, i) == '\0' || Stops(CharAt(s, i), a, b) then i else SkipTo(s, i + 1, a, b)
  }

  method SkipToLoop(s: string, from: nat, a: char, b: char) returns (i: nat)
    ensures i == SkipTo(s, from, a, b)
  {
    i := from;
    while CharAt(s, i) != '\0' && !Stops(CharAt(s, i), a, b)
      invariant SkipTo(s, i, a, b) == SkipTo(s, from, a, b)
      decreases |s| - i
    {
      i := i + 1;
    }
  }

  lemma {:induction false} SkippedTo(s: string, i: nat, end: nat, a: char, b: char)
    requires i <= end && (CharAt(s, end) == '\0' || Stops(CharAt(s, end), a, b))
    requires forall k :: i <= k < end ==> CharAt(s, k) != '\0' && !Stops(CharAt(s, k), a, b)
    ensures SkipTo(s, i, a, b) == end
    decreases end - i
  {
    if i < end {
      assert CharAt(s, i) != '\0';
      SkippedTo(s, i + 1, end, a, b);
    }
  }

  // ---------------------------------------------------------------- CSV fields

  /** A field and where the next one starts, or a quote followed by neither quote, comma nor end. */
  datatype Field = Field(text: string, next: nat) | BadlyQuoted(next: nat)

  function QuotedField(s: string, i: nat, acc: string): Field
    decreases |s| - i
  {
    if i >= |s| then Field(acc, i + 1)
    else if s[i] != '"' then QuotedField(s, i + 1, acc + [s[i]])
    else if CharAt(s, i + 1) == '"' then QuotedField(s, i + 2, acc + ['"'])
    else if CharAt(s, i + 1) == '\0' || CharAt(s, i + 1) == ',' then Field(acc, i + 2)
    else BadlyQuoted(SkipTo(s, i, ',', ',') + 1)
  }

  function ExtractField(s: string, start: nat): Field {
    if CharAt(s, start) == '"' then QuotedField(s, start + 1, [])
    else
      var end := SkipTo(s, start, ',', ',');
      Field(if end <= |s| then s[start..end] else [], end + 1)
  }

  /** extract_field. */
  method ExtractFieldLoop(s: string, start: nat) returns (f: Field)
    ensures f == ExtractField(s, start)
  {
    if CharAt(s, start) != '"' {
      var end := SkipToLoop(s, start, ',', ',');
      return Field(if end <= |s| then s[start..end] else [], end + 1);
    }
    var i, text := start + 1, [];
    while i < |s|
      invariant i >= start + 1 && QuotedField(s, i, text) == ExtractField(s, start)
      decreases |s| - i
    {
      if s[i] == '"' {
        if CharAt(s, i + 1) == '"' {
          text := text + ['"'];
          i := i + 2;
        } else if CharAt(s, i + 1) == '\0' || CharAt(s, i + 1) == ',' {
          return Field(text, i + 2);
        } else {
          var end := SkipToLoop(s, i, ',', ',');
          return BadlyQuoted(end + 1);
        }
      } else {
        text := text + [s[i]];
        i := i + 1;
      }
    }
    f := Field(text, i + 1);
  }

  /** Characters from `k` on, with every quote doubled. */
  function Doubled(t: string, k: nat): string
    decreases |t| - k
  {
    if k >= |t| then []
    else (if t[k] == '"' then ['"', '"'] else [t[k]]) + Doubled(t, k + 1)
  }

  /** A field printed as it is or in quotes (section 2 of RFC 4180). */
  datatype Csv = Plain(text: string) | InQuotes(text: string)

  function PrintCsv(f: Csv): string {
    match f
    case Plain(t) => t
    case InQuotes(t) => ['"'] + (Doubled(t, 0) + ['"'])
  }

  predicate ValidCsv(f: Csv) {
    f.Plain? ==> ',' !in f.text && '\0' !in f.text && CharAt(f.text, 0) != '"'
  }

  lemma {:induction false} DoubledHead(s: string, i: nat, t: string, k: nat) returns (n: nat, j: nat)
    requires k < |t| && At(s, i, Doubled(t, k) + ['"'])
    ensures n == if t[k] == '"' then 2 else 1
    ensures |Doubled(t, k)| == n + |Doubled(t, k + 1)| && j == i + n && At(s, j, Doubled(t, k + 1) + ['"'])
    ensures n == 2 ==> i + 1 < |s| && s[i] == '"' && s[i + 1] == '"'
    ensures n == 1 ==> i < |s| && s[i] == t[k]
  {
    var first := if t[k] == '"' then ['"', '"'] else [t[k]];
    n := |first|;
    assert Doubled(t, k) + ['"'] == first + (Doubled(t, k + 1) + ['"']);
    j := AtConcat(s, i, first, Doubled(t, k + 1) + ['"']);
    AtIndex(s, i, first, 0);
    AtIndex(s, i, first, n - 1);
  }

  lemma {:induction false} QuotedFieldComesBack(s: string, i: nat, t: string, k: nat)
    requires k <= |t| && At(s, i, Doubled(t, k) + ['"'])
    requires var end := i + |Doubled(t, k)| + 1; end == |s| || CharAt(s, end) == ','
    ensures QuotedField(s, i, t[..k]) == Field(t, i + |Doubled(t, k)| + 2)
    decreases |t| - k
  {
    if k < |t| {
      var n, j := DoubledHead(s, i, t, k);
      assert t[..k + 1] == t[..k] + [t[k]];
      QuotedFieldComesBack(s, j, t, k + 1);
    } else {
      AtIndex(s, i, Doubled(t, k) + ['"'], 0);
      assert t[..k] == t;
    }
  }

  /** A printed field followed by a comma or the end of the line comes back. */
  lemma {:induction false} FieldComesBack(s: string, i: nat, f: Csv)
    requires ValidCsv(f) && At(s, i, PrintCsv(f))
    requires i + |PrintCsv(f)| == |s| || CharAt(s, i + |PrintCsv(f)|) == ','
    ensures ExtractField(s, i) == Field(f.text, i + |PrintCsv(f)| + 1)
  {
    match f
    case Plain(t) =>
      var end := i + |t|;
      forall k | i <= k < end ensures CharAt(s, k) == t[k - i] {
        AtIndex(s, i, t, k - i);
      }
      SkippedTo(s, i, end, ',', ',');
      forall k | 0 <= k < |t| ensures s[i..end][k] == t[k] {
        assert CharAt(s, i + k) == t[(i + k) - i];
      }
      assert s[i..end] == t;
    case InQuotes(t) =>
      var j := AtConcat(s, i, ['"'], Doubled(t, 0) + ['"']);
      AtIndex(s, i, ['"'], 0);
      assert t[..0] == [];
      QuotedFieldComesBack(s, j, t, 0);
  }

  lemma {:induction false} AtJoin(s: string, i: nat, t: string, u: string)
    requires At(s, i, t) && At(s, i + |t|, u)
    ensures At(s, i, t + u)
  {
    forall k: nat ensures SameAt(s, i, t + u, k) {
      if k < |t| {
        assert SameAt(s, i, t, k);
      } else {
        assert SameAt(s, i + |t|, u, k - |t|);
      }
    }
  }

  lemma {:induction false} DoubledBehind(c: char, t: string, k: nat)
    ensures Doubled([c] + t, k + 1) == Doubled(t, k)
    decreases |t| - k
  {
    if k < |t| {
      DoubledBehind(c, t, k + 1);
    }
  }

  /** `n` is the position behind the next comma, or behind the end, from `i` on. */
  ghost predicate NextFieldAt(s: string, i: nat, n: nat) {
    && i < n && (CharAt(s, n - 1) == ',' || CharAt(s, n - 1) == '\0')
    && forall k :: i <= k < n - 1 ==> CharAt(s, k) != ',' && CharAt(s, k) != '\0'
  }

  lemma {:induction false} SkipFindsNext(s: string, i: nat)
    ensures NextFieldAt(s, i, SkipTo(s, i, ',', ',') + 1)
    decreases |s| - i
  {
    if CharAt(s, i) != '\0' && CharAt(s, i) != ',' {
      SkipFindsNext(s, i + 1);
    }
  }

  /** The quoted text `t` ends at `e`: with the line, with a quote in front of a comma or the end, or with any
      other quote, which is an error. */
  ghost predicate QuotedForm(s: string, e: nat, text: string, f: Field) {
    || (e == |s| && f == Field(text, e + 1))
    || (e < |s| && s[e] == '"' && CharAt(s, e + 1) in {',', '\0'} && f == Field(text, e + 2))
    || (e < |s| && s[e] == '"' && CharAt(s, e + 1) !in {'"', ',', '\0'} && f.BadlyQuoted? && NextFieldAt(s, e, f.next))
  }

  lemma {:induction false} QuotedFieldForms(s: string, i: nat, acc: string) returns (t: string)
    requires i <= |s|
    ensures At(s, i, Doubled(t, 0)) && QuotedForm(s, i + |Doubled(t, 0)|, acc + t, QuotedField(s, i, acc))
    decreases |s| - i
  {
    t := [];
    if i < |s| && (s[i] != '"' || CharAt(s, i + 1) == '"') {
      var first := if s[i] == '"' then ['"', '"'] else [s[i]];
      var rest := QuotedFieldForms(s, i + |first|, acc + [s[i]]);
      t := [s[i]] + rest;
      DoubledBehind(s[i], rest, 0);
      assert Doubled(t, 0) == first + Doubled(rest, 0);
      AtJoin(s, i, first, Doubled(rest, 0));
      assert (acc + [s[i]]) + rest == acc + t;
    } else {
      assert acc + t == acc;
      SkipFindsNext(s, i);
    }
  }

  /** What is extracted from any text: up to the next comma or the end if there is no quote in front, and
      otherwise the text whose doubled form stands there, as far as the first quote that is not doubled. */
  lemma {:induction false} FieldForms(s: string, start: nat) returns (t: string)
    requires start <= |s|
    ensures CharAt(s, start) == '"' ==>
              At(s, start + 1, Doubled(t, 0)) && QuotedForm(s, start + 1 + |Doubled(t, 0)|, t, ExtractField(s, start))
    ensures CharAt(s, start) != '"' && '\0' !in s ==>
              ExtractField(s, start).Field? && NextFieldAt(s, start, ExtractField(s, start).next)
              && At(s, start, ExtractField(s, start).text) && start + |ExtractField(s, start).text| + 1 == ExtractField(s, start).next
  {
    t := [];
    if CharAt(s, start) == '"' {
      t := QuotedFieldForms(s, start + 1, []);
      assert [] + t == t;
    } else {
      SkipFindsNext(s, start);
      var end := SkipTo(s, start, ',', ',');
      if '\0' !in s {
        assert CharAt(s, |s|) == '\0';
        assert end <= |s|;
        forall k: nat ensures SameAt(s, start, s[start..end], k) {
        }
      }
    }
  }

  // ---------------------------------------------------------------- words

  /** Quotes and backslashes have to be escaped, other characters may be. */
  predicate NeedsEscape(t: string, k: nat, extra: set<nat>)
    requires k < |t|
  {
    t[k] == '"' || t[k] == '\\' || k in extra
  }

  /** Characters from `k` on, escaped where they have to be and at the positions `extra`. */
  function Escaped(t: string, k: nat, extra: set<nat>): string
    decreases |t| - k
  {
    if k >= |t| then []
    else (if NeedsEscape(t, k, extra) then ['\\', t[k]] else [t[k]]) + Escaped(t, k + 1, extra)
  }

  datatype Word = Bare(text: string) | Quoted(text: string, extra: set<nat>)

  function PrintWord(w: Word): string {
    match w
    case Bare(t) => t
    case Quoted(t, extra) => ['"'] + (Escaped(t, 0, extra) + ['"'])
  }

  function UnquoteFrom(s: string, i: nat, acc: string): string
    decreases |s| - i
  {
    if i >= |s| || s[i] == '"' then acc
    else if s[i] != '\\' then UnquoteFrom(s, i + 1, acc + [s[i]])
    else if CharAt(s, i + 1) == '\0' then acc
    else UnquoteFrom(s, i + 2, acc + [CharAt(s, i + 1)])
  }

  function Unquote(s: string): string {
    if CharAt(s, 0) == '"' then UnquoteFrom(s, 1, []) else s
  }

  /** unquote. */
  method UnquoteLoop(s: string) returns (r: string)
    ensures r == Unquote(s)
  {
    if CharAt(s, 0) != '"' {
      return s;
    }
    var i := 1;
    r := [];
    while i < |s|
      invariant i >= 1 && UnquoteFrom(s, i, r) == Unquote(s)
      decreases |s| - i
    {
      if s[i] == '"' {
        break;
      } else if s[i] == '\\' {
        if CharAt(s, i + 1) == '\0' {
          break;
        }
        i := i + 1;
      }
      r := r + [s[i]];
      i := i + 1;
    }
  }

  /** The first step into an escaped text that stands at `i`. */
  lemma {:induction false} EscapedHead(s: string, i: nat, t: string, k: nat, extra: set<nat>) returns (n: nat, j: nat)
    requires k < |t| && At(s, i, Escaped(t, k, extra) + ['"'])
    ensures n == if NeedsEscape(t, k, extra) then 2 else 1
    ensures |Escaped(t, k, extra)| == n + |Escaped(t, k + 1, extra)| && j == i + n && At(s, j, Escaped(t, k + 1, extra) + ['"'])
    ensures n == 2 ==> i + 1 < |s| && s[i] == '\\' && s[i + 1] == t[k]
    ensures n == 1 ==> i < |s| && s[i] == t[k]
  {
    var first := if NeedsEscape(t, k, extra) then ['\\', t[k]] else [t[k]];
    n := |first|;
    assert Escaped(t, k, extra) + ['"'] == first + (Escaped(t, k + 1, extra) + ['"']);
    j := AtConcat(s, i, first, Escaped(t, k + 1, extra) + ['"']);
    AtIndex(s, i, first, 0);
    AtIndex(s, i, first, n - 1);
  }

  lemma {:induction false} UnquoteFromComesBack(s: string, i: nat, t: string, k: nat, extra: set<nat>)
    requires k <= |t| && At(s, i, Escaped(t, k, extra) + ['"']) && '\0' !in t
    ensures UnquoteFrom(s, i, t[..k]) == t
    decreases |t| - k
  {
    if k < |t| {
      var n, j := EscapedHead(s, i, t, k, extra);
      assert t[k] in t && t[..k + 1] == t[..k] + [t[k]];
      UnquoteFromComesBack(s, j, t, k + 1, extra);
    } else {
      AtIndex(s, i, Escaped(t, k, extra) + ['"'], 0);
      assert t[..k] == t;
    }
  }

  /** A printed word comes back from unquote. */
  lemma {:induction false} WordComesBack(w: Word)
    requires '\0' !in w.text && (w.Bare? ==> CharAt(w.text, 0) != '"')
    ensures Unquote(PrintWord(w)) == w.text
  {
    if w.Quoted? {
      var s := PrintWord(w);
      var j := AtConcat(s, 0, ['"'], Escaped(w.text, 0, w.extra) + ['"']);
      assert w.text[..0] == [];
      UnquoteFromComesBack(s, j, w.text, 0, w.extra);
    }
  }
}
