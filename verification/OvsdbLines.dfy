/** The line reader of the OVSDB monitor: a fixed buffer filled by reads of arbitrary size, proved
    against a character-by-character definition of the lines of the stream. */
module OvsdbLines {
  const MAX_READ := 65535

  // ---------------------------------------------------------------- lines of a stream

  /** What follows the last newline among the first `n` characters. */
  function Partial(s: string, n: nat): string
    requires n <= |s|
  {
    if n == 0 || s[n - 1] == '\n' then [] else Partial(s, n - 1) + [s[n - 1]]
  }

  /** The lines that are complete after `n` characters. */
  function Complete(s: string, n: nat): seq<string>
    requires n <= |s|
  {
    if n == 0 then []
    else if s[n - 1] == '\n' then Complete(s, n - 1) + [Partial(s, n - 1)]
    else Complete(s, n - 1)
  }

  /** A row must not be empty and must fit the buffer together with its newline and a terminator. */
  predicate Fits(line: string) {
    0 < |line| <= 65533
  }

  function Wanted(lines: seq<string>): seq<string> {
    if lines == [] then []
    else
      var last := lines[|lines| - 1];
      Wanted(lines[..|lines| - 1]) + (if Fits(last) then [last] else [])
  }

  /** The rows of a stream: its complete lines of admissible length, in order. */
  function Rows(s: string): seq<string> {
    Wanted(Complete(s, |s|))
  }

  function Fold<S>(handle: (S, string) -> S, s: S, rows: seq<string>): S {
    if rows == [] then s else handle(Fold(handle, s, rows[..|rows| - 1]), rows[|rows| - 1])
  }

  // ---------------------------------------------------------------- the definition is the right one

  function Join(lines: seq<string>): string {
    if lines == [] then [] else Join(lines[..|lines| - 1]) + lines[|lines| - 1] + ['\n']
  }

  /** Splitting loses nothing: the lines, each with its newline, and the partial line are the text. */
  lemma {:induction false} LinesAreTheText(s: string, n: nat)
    requires n <= |s|
    ensures Join(Complete(s, n)) + Partial(s, n) == s[..n]
    ensures '\n' !in Partial(s, n)
    ensures forall i :: 0 <= i < |Complete(s, n)| ==> '\n' !in Complete(s, n)[i]
  {
    if n > 0 {
      LinesAreTheText(s, n - 1);
      assert s[..n] == s[..n - 1] + [s[n - 1]];
      var lines := Complete(s, n - 1);
      if s[n - 1] == '\n' {
        assert (lines + [Partial(s, n - 1)])[..|lines|] == lines;
      }
    }
  }

  lemma {:induction false} WithoutNewline(s: string, a: nat, b: nat)
    requires a <= b <= |s| && forall i :: a <= i < b ==> s[i] != '\n'
    ensures Complete(s, b) == Complete(s, a) && Partial(s, b) == Partial(s, a) + s[a..b]
  {
    if a < b {
      WithoutNewline(s, a, b - 1);
      assert s[a..b] == s[a..b - 1] + [s[b - 1]];
    }
  }

  /** The line that begins at `start` and ends before the newline at `end`. */
  lemma {:induction false} OneLine(stream: string, start: nat, end: nat)
    requires start <= end < |stream| && |Partial(stream, start)| == 0
    requires stream[end] == '\n' && forall i :: start <= i < end ==> stream[i] != '\n'
    ensures |Partial(stream, end + 1)| == 0
    ensures Complete(stream, end + 1) == Complete(stream, start) + [stream[start..end]]
    ensures Wanted(Complete(stream, end + 1))
            == Wanted(Complete(stream, start)) + (if Fits(stream[start..end]) then [stream[start..end]] else [])
  {
    WithoutNewline(stream, start, end);
    assert Partial(stream, end) == stream[start..end];
  }

  lemma {:induction false} SplitDependsOnPrefix(s: string, t: string, n: nat)
    requires n <= |s|
    ensures Complete(s + t, n) == Complete(s, n) && Partial(s + t, n) == Partial(s, n)
  {
    if n > 0 {
      SplitDependsOnPrefix(s, t, n - 1);
    }
  }

  /** Lines without newlines come back from their concatenation. */
  lemma {:induction false} LinesComeBack(lines: seq<string>)
    requires forall i :: 0 <= i < |lines| ==> '\n' !in lines[i]
    ensures Complete(Join(lines), |Join(lines)|) == lines && Partial(Join(lines), |Join(lines)|) == []
  {
    if lines != [] {
      var before, last := lines[..|lines| - 1], lines[|lines| - 1];
      LinesComeBack(before);
      LastLineComesBack(Join(before), last);
      assert Join(lines) == Join(before) + (last + ['\n']);
      assert lines == before + [last];
    }
  }

  lemma {:induction false} LastLineComesBack(s: string, last: string)
    requires '\n' !in last && Partial(s, |s|) == []
    ensures var t := s + (last + ['\n']);
      Complete(t, |t|) == Complete(s, |s|) + [last] && Partial(t, |t|) == []
  {
    var t := s + (last + ['\n']);
    SplitDependsOnPrefix(s, last + ['\n'], |s|);
    OneLine(t, |s|, |s| + |last|);
    assert t[|s|..|s| + |last|] == last;
  }

  // ---------------------------------------------------------------- the reader

  /** The first `n` slots hold the stream from position `start` on. */
  ghost predicate Window(buf: array<char>, stream: string, start: nat, n: nat)
    reads buf
  {
    && start + n <= |stream| && n < buf.Length
    && forall j :: 0 <= j < n ==> buf[j] == stream[start + j]
  }

  /** `start` begins a line, and the wanted lines before it have been handled. */
  ghost predicate Synced<S>(stream: string, start: nat, handle: (S, string) -> S, s0: S, rows: seq<string>, s: S) {
    && start <= |stream| && |Partial(stream, start)| == 0
    && rows == Wanted(Complete(stream, start)) && s == Fold(handle, s0, rows)
  }

  /** read(2): at least one character unless the stream has ended or none was asked for. */
  method Read(stream: string, pos: nat, buf: array<char>, at: nat, n: nat) returns (count: nat)
    requires pos <= |stream| && at + n <= buf.Length
    modifies buf
    ensures count <= n && pos + count <= |stream| && (count == 0 <==> n == 0 || pos == |stream|)
    ensures forall j :: at <= j < at + count ==> buf[j] == stream[pos + (j - at)]
    ensures forall j :: 0 <= j < buf.Length && !(at <= j < at + n) ==> buf[j] == old(buf[j])
  {
    if n == 0 || pos == |stream| {
      return 0;
    }
    count :| 1 <= count <= n && pos + count <= |stream|;
    for i := 0 to count
      invariant forall j :: at <= j < at + i ==> buf[j] == stream[pos + (j - at)]
      invariant forall j :: 0 <= j < buf.Length && !(at <= j < at + n) ==> buf[j] == old(buf[j])
    {
      buf[at + i] := stream[pos + i];
    }
  }

  /** strchr: the first `c` in the terminated string that starts at `from`, or where it ends. */
  method StrChr(buf: array<char>, from: nat, ghost end: nat, c: char) returns (i: nat)
    requires from <= end < buf.Length && buf[end] == '\0' && forall j :: from <= j < end ==> buf[j] != '\0'
    ensures from <= i <= end && (i < end ==> buf[i] == c) && (i == end || c == buf[i])
    ensures forall j :: from <= j < i ==> buf[j] != c
  {
    i := from;
    while buf[i] != '\0' && buf[i] != c
      invariant from <= i <= end && forall j :: from <= j < i ==> buf[j] != c
      decreases end - i
    {
      i := i + 1;
    }
  }

  /** Moves the terminated string at `from` to the start of the buffer. */
  method MoveToFront(buf: array<char>, from: nat, len: nat)
    requires from + len < buf.Length
    modifies buf
    ensures forall j :: 0 <= j <= len ==> buf[j] == old(buf[from + j])
  {
    for i := 0 to len + 1
      invariant forall j :: 0 <= j < i ==> buf[j] == old(buf[from + j])
      invariant forall j :: i <= j < buf.Length ==> buf[j] == old(buf[j])
    {
      buf[i] := buf[from + i];
    }
  }

  function Text(buf: array<char>, n: nat): (r: string)
    requires n <= buf.Length
    reads buf
    ensures |r| == n && forall j :: 0 <= j < n ==> r[j] == buf[j]
  {
    seq(n, j requires 0 <= j < n reads buf => buf[j])
  }

  /** Handling the line that ends at `end` keeps the reader in step. */
  lemma {:induction false} LineHandled<S>(stream: string, start: nat, end: nat, handle: (S, string) -> S, s0: S, rows: seq<string>, s: S)
    requires Synced(stream, start, handle, s0, rows, s) && start <= end < |stream| && end - start <= MAX_READ - 2
    requires stream[end] == '\n' && forall i :: start <= i < end ==> stream[i] != '\n'
    ensures var line := stream[start..end];
      if |line| > 0 then Synced(stream, end + 1, handle, s0, rows + [line], handle(s, line))
      else Synced(stream, end + 1, handle, s0, rows, s)
  {
    OneLine(stream, start, end);
  }

  /** Handles the line that ends at `nl` and moves what follows it to the start of the buffer. */
  method TakeLine<S>(buf: array<char>, len: nat, nl: nat, stream: string, ghost start: nat, handle: (S, string) -> S,
                     ghost s0: S, rows: seq<string>, s: S)
    returns (remain: nat, rows': seq<string>, s': S)
    requires '\0' !in stream && buf.Length == MAX_READ
    requires Window(buf, stream, start, len) && buf[len] == '\0' && Synced(stream, start, handle, s0, rows, s)
    requires nl < len && buf[nl] == '\n' && forall j :: 0 <= j < nl ==> buf[j] != '\n'
    modifies buf
    ensures remain == len - (nl + 1) && Window(buf, stream, start + nl + 1, remain) && buf[remain] == '\0'
    ensures Synced(stream, start + nl + 1, handle, s0, rows', s')
  {
    var line := Text(buf, nl);
    assert line == stream[start..start + nl];
    LineHandled(stream, start, start + nl, handle, s0, rows, s);
    rows', s' := rows, s;
    if |line| > 0 {
      s' := handle(s, line);
      rows' := rows + [line];
    }
    var last := StrChr(buf, nl + 1, len, '\0');
    remain := last - (nl + 1);
    MoveToFront(buf, nl + 1, remain);
  }

  /** Handles every complete line in the buffer and leaves the partial one at its start. */
  method DrainLines<S>(buf: array<char>, len: nat, stream: string, ghost start: nat, handle: (S, string) -> S,
                       ghost s0: S, rows: seq<string>, s: S)
    returns (remain: nat, rows': seq<string>, s': S, ghost start': nat)
    requires '\0' !in stream && buf.Length == MAX_READ
    requires Window(buf, stream, start, len) && Synced(stream, start, handle, s0, rows, s)
    modifies buf
    ensures start' + remain == start + len && Window(buf, stream, start', remain)
    ensures Synced(stream, start', handle, s0, rows', s')
    ensures forall i :: start' <= i < start' + remain ==> stream[i] != '\n'
  {
    buf[len] := '\0';
    remain, rows', s', start' := len, rows, s, start;
    var nl := StrChr(buf, 0, remain, '\n');
    while buf[nl] == '\n'
      invariant start' + remain == start + len && Window(buf, stream, start', remain) && buf[remain] == '\0'
      invariant Synced(stream, start', handle, s0, rows', s')
      invariant nl <= remain && forall j :: 0 <= j < nl ==> buf[j] != '\n'
      invariant buf[nl] == '\n' || nl == remain
      decreases remain
    {
      remain, rows', s' := TakeLine(buf, remain, nl, stream, start', handle, s0, rows', s');
      start' := start' + nl + 1;
      nl := StrChr(buf, 0, remain, '\n');
    }
    forall i | start' <= i < start' + remain ensures stream[i] != '\n' {
      assert buf[i - start'] == stream[i];
    }
  }

  /** Reads single characters up to and including the next newline; `found` is false at the end of the
      stream. */
  method SkipLine(stream: string, pos: nat, buf: array<char>) returns (found: bool, pos': nat)
    requires pos <= |stream| && buf.Length == MAX_READ
    modifies buf
    ensures pos <= pos' <= |stream|
    ensures found ==> pos < pos' && stream[pos' - 1] == '\n' && forall i :: pos <= i < pos' - 1 ==> stream[i] != '\n'
    ensures !found ==> pos' == |stream| && forall i :: pos <= i < pos' ==> stream[i] != '\n'
  {
    pos' := pos;
    var count := Read(stream, pos', buf, 0, 1);
    pos' := pos' + count;
    while count > 0
      invariant count <= 1 && pos + count <= pos' <= |stream| && (count == 0 ==> pos' == |stream|)
      invariant count == 1 ==> buf[0] == stream[pos' - 1]
      invariant forall i :: pos <= i < pos' - count ==> stream[i] != '\n'
      decreases |stream| - pos' + count
    {
      if buf[0] == '\n' {
        return true, pos';
      }
      count := Read(stream, pos', buf, 0, 1);
      pos' := pos' + count;
    }
    found := false;
  }

  lemma {:induction false} LineTooLong<S>(stream: string, start: nat, pos: nat, handle: (S, string) -> S, s0: S, rows: seq<string>, s: S)
    requires Synced(stream, start, handle, s0, rows, s) && start + MAX_READ - 1 < pos <= |stream|
    requires stream[pos - 1] == '\n' && forall i :: start <= i < pos - 1 ==> stream[i] != '\n'
    ensures Synced(stream, pos, handle, s0, rows, s)
  {
    OneLine(stream, start, pos - 1);
  }

  lemma {:induction false} AllRead<S>(stream: string, start: nat, handle: (S, string) -> S, s0: S, rows: seq<string>, s: S)
    requires Synced(stream, start, handle, s0, rows, s) && forall i :: start <= i < |stream| ==> stream[i] != '\n'
    ensures rows == Rows(stream) && s == Fold(handle, s0, rows)
  {
    WithoutNewline(stream, start, |stream|);
  }

  /** The loop of parse_ovsdb_client. However the stream is cut into reads, exactly the rows of the
      stream are handled, in order. */
  method ReadRows<S>(stream: string, s0: S, handle: (S, string) -> S) returns (rows: seq<string>, s: S)
    requires '\0' !in stream
    ensures rows == Rows(stream) && s == Fold(handle, s0, rows)
  {
    var buf := new char[MAX_READ];
    rows, s := [], s0;
    ghost var start: nat := 0;
    var remain: nat := 0;
    var count := Read(stream, 0, buf, remain, MAX_READ - remain - 1);
    var pos := count;
    while remain + count > 0
      invariant pos == start + remain + count <= |stream| && remain + count <= MAX_READ - 1
      invariant Window(buf, stream, start, remain + count) && Synced(stream, start, handle, s0, rows, s)
      invariant count == 0 ==> remain == 0 && pos == |stream|
      decreases |stream| - pos + (if count > 0 then 1 else 0)
    {
      remain, rows, s, start := DrainLines(buf, remain + count, stream, start, handle, s0, rows, s);
      if remain == MAX_READ - 1 {
        var found;
        found, pos := SkipLine(stream, pos, buf);
        if !found {
          break;
        }
        LineTooLong(stream, start, pos, handle, s0, rows, s);
        remain, start := 0, pos;
      }
      count := Read(stream, pos, buf, remain, MAX_READ - remain - 1);
      if count < 1 {
        break;
      }
      pos := pos + count;
    }
    AllRead(stream, start, handle, s0, rows, s);
  }
}
