/** Decimal numbers in names: default socket names and the list of worker CPUs. */
module Names {
  import opened Common
  import opened OvsdbText
  import opened Queues
  import Table = RelayTable

  predicate IsDigit(c: char) {
    '0' <= c <= '9'
  }

  function Digit(d: nat): (c: char)
    requires d < 10
    ensures IsDigit(c) && Value(c) == d
  {
    '0' + d as char
  }

  function Value(c: char): nat
    requires IsDigit(c)
  {
    (c - '0') as nat
  }

  /** %u. */
  function Digits(n: nat): string {
    if n < 10 then [Digit(n)] else Digits(n / 10) + [Digit(n % 10)]
  }

  /** The number that the digits from `i` on continue. */
  function ReadDigits(s: string, i: nat, acc: nat): nat
    decreases |s| - i
  {
    if i < |s| && IsDigit(s[i]) then ReadDigits(s, i + 1, acc * 10 + Value(s[i])) else acc
  }

  function DigitsEnd(s: string, i: nat): (e: nat)
    ensures i <= e
    decreases |s| - i
  {
    if i < |s| && IsDigit(s[i]) then DigitsEnd(s, i + 1) else i
  }

  lemma {:induction false} OneDigit(s: string, i: nat, d: nat, acc: nat)
    requires d < 10 && At(s, i, [Digit(d)])
    ensures ReadDigits(s, i, acc) == ReadDigits(s, i + 1, acc * 10 + d) && DigitsEnd(s, i) == DigitsEnd(s, i + 1)
  {
    AtIndex(s, i, [Digit(d)], 0);
  }

  lemma {:induction false} DigitsStart(n: nat)
    ensures |Digits(n)| > 0 && IsDigit(Digits(n)[0])
  {
    if n >= 10 {
      DigitsStart(n / 10);
    }
  }

  /** Printed digits are read as their number, and reading goes on behind them. */
  lemma {:induction false} DigitsAreRead(s: string, i: nat, n: nat) returns (e: nat)
    requires At(s, i, Digits(n))
    ensures e == i + |Digits(n)| && |Digits(n)| > 0 && IsDigit(Digits(n)[0])
    ensures ReadDigits(s, i, 0) == ReadDigits(s, e, n) && DigitsEnd(s, i) == DigitsEnd(s, e)
  {
    DigitsStart(n);
    if n < 10 {
      OneDigit(s, i, n, 0);
      e := i + 1;
    } else {
      var j := AtConcat(s, i, Digits(n / 10), [Digit(n % 10)]);
      var k := DigitsAreRead(s, i, n / 10);
      OneDigit(s, k, n % 10, n / 10);
      e := k + 1;
    }
  }

  // ---------------------------------------------------------------- socket names

  /** virtio_vhostuser_id_to_name. */
  function IdToName(prefix: string, id: nat, suffix: string): string {
    prefix + (Digits(id) + suffix)
  }

  function SkipBlanks(s: string, i: nat): nat
    decreases |s| - i
  {
    if i < |s| && (s[i] == ' ' || '\t' <= s[i] <= '\r') then SkipBlanks(s, i + 1) else i
  }

  /** atoi of the text from `i` on. */
  function Atoi(s: string, i: nat): int {
    var j := SkipBlanks(s, i);
    if CharAt(s, j) == '-' then 0 - ReadDigits(s, j + 1, 0)
    else if CharAt(s, j) == '+' then ReadDigits(s, j + 1, 0)
    else ReadDigits(s, j, 0)
  }

  /** virtio_vhostuser_name_to_id. */
  function NameToId(prefix: string, suffix: string, name: string): int {
    if |name| < |prefix| + |suffix| + 1 then -1
    else if name[..|prefix|] != prefix then -1
    else if |suffix| > 0 && name[|name| - |suffix|..] != suffix then -1
    else
      var id := Atoi(name, |prefix|);
      if 0 <= id < MAX_RELAYS then id else -1
  }

  /** What start-up demands of the part of the socket name behind the number. */
  predicate ValidSuffix(suffix: string) {
    |suffix| > 0 ==> !IsDigit(suffix[0])
  }

  lemma {:induction false} NumberComesBack(prefix: string, id: nat, suffix: string)
    requires ValidSuffix(suffix)
    ensures Atoi(IdToName(prefix, id, suffix), |prefix|) == id
  {
    var name := IdToName(prefix, id, suffix);
    var i := AtConcat(name, 0, prefix, Digits(id) + suffix);
    var j := AtConcat(name, i, Digits(id), suffix);
    var e := DigitsAreRead(name, i, id);
    AtIndex(name, i, Digits(id), 0);
    if |suffix| > 0 {
      AtIndex(name, j, suffix, 0);
    }
  }

  /** The id comes back from its name if it is the id of a relay, and is refused otherwise. */
  lemma {:induction false} NameRoundTrip(prefix: string, id: nat, suffix: string)
    requires ValidSuffix(suffix)
    ensures NameToId(prefix, suffix, IdToName(prefix, id, suffix)) == if id < MAX_RELAYS then id else -1
  {
    var name := IdToName(prefix, id, suffix);
    NumberComesBack(prefix, id, suffix);
    var i := AtConcat(name, 0, prefix, Digits(id) + suffix);
    var e := DigitsAreRead(name, i, id) by {
      var j := AtConcat(name, i, Digits(id), suffix);
    }
    assert name[..|prefix|] == prefix;
    assert name[|name| - |suffix|..] == suffix;
  }

  lemma {:induction false} PartsOfName(prefix: string, number: string, suffix: string, name: string)
    requires name == prefix + number + suffix
    ensures name[..|prefix|] == prefix && |prefix| <= |name| - |suffix| && name[|name| - |suffix|..] == suffix
  {
  }

  /** `name` is something between the prefix and the suffix. */
  ghost predicate Framed(prefix: string, suffix: string, name: string) {
    exists number :: |number| > 0 && name == prefix + number + suffix
  }

  lemma {:induction false} FramedExactlyWhen(prefix: string, suffix: string, name: string)
    ensures Framed(prefix, suffix, name)
            <==> && |name| >= |prefix| + |suffix| + 1
                 && name[..|prefix|] == prefix && name[|name| - |suffix|..] == suffix
  {
    if |name| >= |prefix| + |suffix| + 1 && name[..|prefix|] == prefix && name[|name| - |suffix|..] == suffix {
      var number := name[|prefix|..|name| - |suffix|];
      assert name == prefix + number + suffix;
    }
    if Framed(prefix, suffix, name) {
      var number :| |number| > 0 && name == prefix + number + suffix;
      PartsOfName(prefix, number, suffix, name);
    }
  }

  /** An id is read exactly from the names with the prefix, the suffix and something in between that atoi turns
      into the id of a relay; any other name is refused. */
  lemma {:induction false} NameIsReadExactlyWhen(prefix: string, suffix: string, name: string, id: nat)
    ensures NameToId(prefix, suffix, name) == id
            <==> id < MAX_RELAYS && Framed(prefix, suffix, name) && Atoi(name, |prefix|) == id
  {
    FramedExactlyWhen(prefix, suffix, name);
    assert |suffix| == 0 ==> name[|name| - |suffix|..] == suffix;
  }

  lemma {:induction false} NamesAreDistinct(prefix: string, a: nat, b: nat, suffix: string)
    requires ValidSuffix(suffix) && IdToName(prefix, a, suffix) == IdToName(prefix, b, suffix)
    ensures a == b
  {
    NumberComesBack(prefix, a, suffix);
    NumberComesBack(prefix, b, suffix);
  }

  /** The table after start-up with default sockets. */
  function DefaultTable(prefix: string, suffix: string): (slots: seq<Table.Slot>)
    ensures |slots| == MAX_RELAYS
    ensures forall i :: 0 <= i < |slots| ==> slots[i] == Table.FREE.(socket := Some(IdToName(prefix, i, suffix)))
  {
    seq(MAX_RELAYS, i requires 0 <= i < MAX_RELAYS => Table.FREE.(socket := Some(IdToName(prefix, i, suffix))))
  }

  /** No two relays share a socket at start-up nor at any time later. */
  lemma {:induction false} DefaultSocketsStayUnique(prefix: string, suffix: string, ops: seq<Table.Operation>)
    requires ValidSuffix(suffix)
    ensures Table.Unique(Table.Run(DefaultTable(prefix, suffix), ops))
    ensures Table.Tidy(Table.Run(DefaultTable(prefix, suffix), ops))
  {
    var slots := DefaultTable(prefix, suffix);
    forall i: nat, j: nat, path | Table.HasSocket(slots, i, path) && Table.HasSocket(slots, j, path) ensures i == j {
      NamesAreDistinct(prefix, i, j, suffix);
    }
    Table.SocketsStayUnique(slots, ops);
    Table.RunKeepsTidy(slots, ops);
  }

  // ---------------------------------------------------------------- the list of worker CPUs

  /** The set of CPUs in a comma list from `i` on; no value may be 64 or more. */
  function ParseCpus(s: string, i: nat, bits: set<nat>): Option<set<nat>>
    decreases |s| - i
  {
    if i >= |s| then Some(bits)
    else if s[i] == ',' then ParseCpus(s, i + 1, bits)
    else if !IsDigit(s[i]) then None
    else
      var v := ReadDigits(s, i, 0);
      if v >= 64 then None
      else ParseCpus(s, DigitsEnd(s, i + 1), bits + {v})
  }

  /** The loop of cmdline_set_cpus over the tokens of a list; `ok` is false for an empty bitmap too. */
  method SetCpus(arg: string) returns (ok: bool, bits: set<nat>)
    ensures ok == (ParseCpus(arg, 0, {}).Some? && ParseCpus(arg, 0, {}).value != {})
    ensures ok ==> bits == ParseCpus(arg, 0, {}).value
  {
    var i := 0;
    bits := {};
    while i < |arg|
      invariant ParseCpus(arg, i, bits) == ParseCpus(arg, 0, {})
      decreases |arg| - i
    {
      if arg[i] == ',' {
        i := i + 1;
      } else if !IsDigit(arg[i]) || ReadDigits(arg, i, 0) >= 64 {
        return false, {};
      } else {
        bits := bits + {ReadDigits(arg, i, 0)};
        i := DigitsEnd(arg, i + 1);
      }
    }
    ok := bits != {};
  }

  /** The number that the digits from `i` to `j` form. */
  function Number(s: string, i: nat, j: nat): nat
    requires i <= j <= |s| && forall k :: i <= k < j ==> IsDigit(s[k])
    decreases j - i
  {
    if i == j then 0 else 10 * Number(s, i, j - 1) + Value(s[j - 1])
  }

  /** Between two commas, or a comma and an end, there are digits only. */
  predicate Token(s: string, i: nat, j: nat) {
    && i < j <= |s| && (i == 0 || s[i - 1] == ',') && (j == |s| || s[j] == ',')
    && forall k :: i <= k < j ==> IsDigit(s[k])
  }

  predicate Clean(s: string, i: nat) {
    forall k :: i <= k < |s| ==> s[k] == ',' || IsDigit(s[k])
  }

  ghost predicate SmallFrom(s: string, i: nat) {
    forall a: nat, b: nat :: i <= a && Token(s, a, b) ==> Number(s, a, b) < 64
  }

  ghost predicate NamedFrom(s: string, i: nat, v: nat) {
    exists a: nat, b: nat :: i <= a && Token(s, a, b) && Number(s, a, b) == v
  }

  lemma {:induction false} DigitsForm(s: string, i: nat, k: nat, acc: nat)
    requires i <= k <= |s| && (forall j :: i <= j < k ==> IsDigit(s[j])) && acc == Number(s, i, k)
    ensures var e := DigitsEnd(s, k);
      && k <= e <= |s| && (forall j :: i <= j < e ==> IsDigit(s[j])) && (e < |s| ==> !IsDigit(s[e]))
      && ReadDigits(s, k, acc) == Number(s, i, e)
    decreases |s| - k
  {
    if k < |s| && IsDigit(s[k]) {
      DigitsForm(s, i, k + 1, acc * 10 + Value(s[k]));
    }
  }

  /** Nothing that begins at a comma is a token. */
  lemma {:induction false} CommaIsNoToken(s: string, i: nat, v: nat)
    requires i < |s| && s[i] == ','
    ensures NamedFrom(s, i, v) <==> NamedFrom(s, i + 1, v)
    ensures SmallFrom(s, i) <==> SmallFrom(s, i + 1)
  {
  }

  /** The tokens from `i` on are the one that begins there and those behind it. */
  lemma {:induction false} FirstToken(s: string, i: nat, e: nat, v: nat)
    requires Token(s, i, e)
    ensures NamedFrom(s, i, v) <==> v == Number(s, i, e) || NamedFrom(s, e, v)
    ensures SmallFrom(s, i) <==> Number(s, i, e) < 64 && SmallFrom(s, e)
  {
    forall a: nat, b: nat | i <= a && Token(s, a, b) ensures (a, b) == (i, e) || e <= a {
    }
  }

  lemma {:induction false} ListIsReadFrom(s: string, i: nat, bits: set<nat>)
    requires i <= |s| && (i < |s| && IsDigit(s[i]) ==> i == 0 || s[i - 1] == ',')
    ensures ParseCpus(s, i, bits).Some? <==> Clean(s, i) && SmallFrom(s, i)
    ensures ParseCpus(s, i, bits).Some? ==> forall v: nat :: v in ParseCpus(s, i, bits).value <==> v in bits || NamedFrom(s, i, v)
    decreases |s| - i
  {
    if i < |s| && s[i] == ',' {
      ListIsReadFrom(s, i + 1, bits);
      assert Clean(s, i) <==> Clean(s, i + 1);
      forall v: nat ensures (NamedFrom(s, i, v) <==> NamedFrom(s, i + 1, v)) && (SmallFrom(s, i) <==> SmallFrom(s, i + 1)) {
        CommaIsNoToken(s, i, v);
      }
    } else if i < |s| && IsDigit(s[i]) {
      DigitsForm(s, i, i, 0);
      var e := DigitsEnd(s, i);
      ListIsReadFrom(s, e, bits + {Number(s, i, e)});
      if e == |s| || s[e] == ',' {
        assert Token(s, i, e);
        assert Clean(s, i) <==> Clean(s, e);
        forall v: nat
          ensures NamedFrom(s, i, v) <==> v == Number(s, i, e) || NamedFrom(s, e, v)
          ensures SmallFrom(s, i) <==> Number(s, i, e) < 64 && SmallFrom(s, e)
        {
          FirstToken(s, i, e, v);
        }
      } else {
        assert !Clean(s, i) && !Clean(s, e);
      }
    }
  }

  /** The list is accepted exactly if it has digits and commas only, every number between them is below 64, and
      there is one; the set is that of the numbers. */
  lemma {:induction false} ListIsReadExactlyWhen(s: string)
    ensures ParseCpus(s, 0, {}).Some? <==> Clean(s, 0) && SmallFrom(s, 0)
    ensures ParseCpus(s, 0, {}).Some? ==> forall v: nat :: v in ParseCpus(s, 0, {}).value <==> NamedFrom(s, 0, v)
  {
    ListIsReadFrom(s, 0, {});
  }

  function PrintCpus(cpus: seq<nat>, k: nat): string
    requires k < |cpus|
    decreases |cpus| - k
  {
    if k + 1 == |cpus| then Digits(cpus[k]) else Digits(cpus[k]) + ([','] + PrintCpus(cpus, k + 1))
  }

  function Elements(cpus: seq<nat>, k: nat): set<nat>
    requires k <= |cpus|
  {
    set i | 0 <= i < k :: cpus[i]
  }

  /** One number of the list. */
  lemma {:induction false} CpuIsRead(s: string, i: nat, n: nat, bits: set<nat>) returns (e: nat)
    requires At(s, i, Digits(n)) && n < 64
    requires i + |Digits(n)| == |s| || CharAt(s, i + |Digits(n)|) == ','
    ensures e == i + |Digits(n)| && ParseCpus(s, i, bits) == ParseCpus(s, e, bits + {n})
  {
    e := DigitsAreRead(s, i, n);
    AtIndex(s, i, Digits(n), 0);
    assert DigitsEnd(s, i) == e;
  }

  lemma {:induction false} CpusComeBackFrom(s: string, i: nat, cpus: seq<nat>, k: nat)
    requires k < |cpus| && At(s, i, PrintCpus(cpus, k)) && i + |PrintCpus(cpus, k)| == |s|
    requires forall j :: 0 <= j < |cpus| ==> cpus[j] < 64
    ensures ParseCpus(s, i, Elements(cpus, k)) == Some(Elements(cpus, |cpus|))
    decreases |cpus| - k
  {
    assert Elements(cpus, k + 1) == Elements(cpus, k) + {cpus[k]};
    if k + 1 == |cpus| {
      var e := CpuIsRead(s, i, cpus[k], Elements(cpus, k));
    } else {
      var c := AtConcat(s, i, Digits(cpus[k]), [','] + PrintCpus(cpus, k + 1));
      var next := AtConcat(s, c, [','], PrintCpus(cpus, k + 1));
      AtIndex(s, c, [','], 0);
      var e := CpuIsRead(s, i, cpus[k], Elements(cpus, k));
      CpusComeBackFrom(s, next, cpus, k + 1);
    }
  }

  /** GET_EAL_CORES: the set bits, lowest first. */
  method ListCores(bitmap: set<nat>) returns (cores: seq<nat>)
    requires forall b :: b in bitmap ==> b < 64
    ensures Lists(cores, bitmap)
  {
    cores := [];
    var bits := bitmap;
    while bits != {}
      invariant bits <= bitmap && Increasing(cores)
      invariant forall x :: x in cores <==> x in bitmap - bits
      invariant forall x, y :: x in cores && y in bits ==> x < y
      decreases |bits|
    {
      var w := FirstSet(bits, 0, 64);
      AppendIncreasing(cores, w);
      bits := bits - {w};
      cores := cores + [w];
    }
  }

  /** A list of CPUs below 64, in any order and with repetitions, is read as the set of its elements,
      which GET_EAL_CORES then lists in increasing order. */
  lemma {:induction false} CpusComeBack(cpus: seq<nat>, cores: seq<nat>)
    requires |cpus| > 0 && forall j :: 0 <= j < |cpus| ==> cpus[j] < 64
    ensures ParseCpus(PrintCpus(cpus, 0), 0, {}) == Some(Elements(cpus, |cpus|)) && Elements(cpus, |cpus|) != {}
    ensures Lists(cores, Elements(cpus, |cpus|)) <==> Increasing(cores) && forall x :: x in cores <==> x in cpus
  {
    assert Elements(cpus, 0) == {};
    CpusComeBackFrom(PrintCpus(cpus, 0), 0, cpus, 0);
    assert cpus[0] in Elements(cpus, |cpus|);
    forall x ensures x in Elements(cpus, |cpus|) <==> x in cpus {
    }
  }
}
