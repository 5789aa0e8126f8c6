/** Searching one file (internal/agent/grep_scan.go): the whole-buffer scan with
    its literal and case-folding shortcuts, and the streaming reader.  Both are
    proved to produce the collector's result for the file's lines. */
module GrepFile {
  import opened Strings
  import opened Wrappers
  import opened GrepCollect

  /** A Go byte slice; each character stands for one byte. */
  type Bytes = string

  // ---------------------------------------------------------------------
  // Lines

  /** The length of the first line: the index of the first newline, or the end. */
  function LineEnd(s: Bytes): (n: nat)
    ensures n <= |s| && '\n' !in s[..n]
    ensures forall i :: 0 <= i < n ==> s[i] != '\n'
    ensures n < |s| ==> s[n] == '\n'
  {
    if s == [] || s[0] == '\n' then 0
    else
      var n := 1 + LineEnd(s[1..]);
      assert s[..n] == [s[0]] + s[1..][..n - 1];
      n
  }

  /** The lines of a file: newline-terminated pieces, and a last piece that may
      lack its newline; a trailing newline opens no further line. */
  function SplitLines(s: Bytes): seq<Bytes> {
    if s == [] then []
    else
      var n := LineEnd(s);
      [s[..n]] + (if n == |s| then [] else SplitLines(s[n + 1..]))
  }

  function Marked(ls: seq<Bytes>, re: Bytes -> bool): (r: seq<Line>)
    ensures |r| == |ls|
    ensures forall i :: 0 <= i < |r| ==> r[i] == Line(ls[i], re(ls[i]))
  {
    seq(|ls|, i requires 0 <= i < |ls| => Line(ls[i], re(ls[i])))
  }

  /** The file as the query sees it. */
  function FileLines(data: Bytes, re: Bytes -> bool): seq<Line> {
    Marked(SplitLines(data), re)
  }

  lemma LineEndIs(s: Bytes, n: nat)
    requires n <= |s| && '\n' !in s[..n] && (n < |s| ==> s[n] == '\n')
    ensures LineEnd(s) == n
  {
    assert forall i :: 0 <= i < n ==> s[i] in s[..n];
  }

  /** The file's lines, when its first line is known. */
  lemma SplitFirst(s: Bytes, n: nat)
    requires 0 < |s| && n <= |s| && '\n' !in s[..n] && (n < |s| ==> s[n] == '\n')
    ensures SplitLines(s) == [s[..n]] + (if n == |s| then [] else SplitLines(s[n + 1..]))
  {
    LineEndIs(s, n);
  }

  lemma FileLinesFirst(s: Bytes, n: nat, re: Bytes -> bool)
    requires 0 < |s| && n <= |s| && '\n' !in s[..n] && (n < |s| ==> s[n] == '\n')
    ensures FileLines(s, re) == [Line(s[..n], re(s[..n]))] + (if n == |s| then [] else FileLines(s[n + 1..], re))
  {
    hide SplitLines;
    SplitFirst(s, n);
    var rest := if n == |s| then [] else SplitLines(s[n + 1..]);
    assert Marked([s[..n]] + rest, re) == [Line(s[..n], re(s[..n]))] + Marked(rest, re);
  }

  lemma NthLine(s: Bytes, k: nat)
    requires k < |SplitLines(s)|
    ensures k == 0 ==> SplitLines(s)[k] == s[0..LineEnd(s)]
    ensures k > 0 ==> LineEnd(s) < |s| && k - 1 < |SplitLines(s[LineEnd(s) + 1..])|
    ensures k > 0 ==> SplitLines(s)[k] == SplitLines(s[LineEnd(s) + 1..])[k - 1]
  {
    hide LineEnd;
  }

  /** Every line is a slice of the file without a newline. */
  lemma {:induction false} LineIsSlice(s: Bytes, k: nat) returns (a: nat, b: nat)
    requires k < |SplitLines(s)|
    ensures a <= b <= |s| && SplitLines(s)[k] == s[a..b]
    ensures forall i :: a <= i < b ==> s[i] != '\n'
  {
    hide LineEnd, SplitLines;
    var n := LineEnd(s);
    NthLine(s, k);
    if k == 0 {
      a, b := 0, n;
    } else {
      var rest := s[n + 1..];
      var c, d := LineIsSlice(rest, k - 1);
      SliceOfRest(s, n + 1, c, d);
      a, b := n + 1 + c, n + 1 + d;
      forall i | a <= i < b ensures s[i] != '\n' { assert rest[i - (n + 1)] == s[i]; }
    }
  }

  lemma SliceOfRest(s: Bytes, n: nat, a: nat, b: nat)
    requires n <= |s| && a <= b <= |s| - n
    ensures s[n..][a..b] == s[n + a..n + b]
  {
  }

  // ---------------------------------------------------------------------
  // Matchers

  function LowerByte(c: char): char {
    if 'A' <= c <= 'Z' then c - 'A' + 'a' else c
  }

  function Lower(s: Bytes): (r: Bytes)
    ensures |r| == |s| && forall i :: 0 <= i < |s| ==> r[i] == LowerByte(s[i])
  {
    seq(|s|, i requires 0 <= i < |s| => LowerByte(s[i]))
  }

  /** The UTF-8 bytes of the Kelvin sign and of the long s, which `(?i)` also
      takes for k and s. */
  const KELVIN: Bytes := "\U{E2}\U{84}\U{AA}"
  const LONG_S: Bytes := "\U{C5}\U{BF}"

  /** `(?i)lit` matches `s` at its start, for a lower-cased ASCII `lit`. */
  predicate FoldPrefix(lit: Bytes, s: Bytes) {
    lit == [] ||
    (s != [] && LowerByte(s[0]) == lit[0] && FoldPrefix(lit[1..], s[1..])) ||
    (lit[0] == 'k' && KELVIN <= s && FoldPrefix(lit[1..], s[3..])) ||
    (lit[0] == 's' && LONG_S <= s && FoldPrefix(lit[1..], s[2..]))
  }

  /** What `(?i)lit` means on a text. */
  predicate FoldMatch(lit: Bytes, s: Bytes) {
    exists i :: 0 <= i <= |s| && FoldPrefix(lit, s[i..])
  }

  /** How the query decides: by its regexp, or by a shortcut for it. */
  datatype Matcher = Matcher(re: Bytes -> bool, whole: Option<Bytes -> bool>,
                             literal: Option<Bytes>, foldLiteral: Option<Bytes>, foldRisky: bool)

  /** What the matcher's construction establishes: the shortcuts stand for the
      regexp, and the multi-line form accepts every file with a matching line. */
  ghost predicate Sound(m: Matcher) {
    && (m.literal.Some? ==> forall l :: '\n' !in l ==> (m.re(l) <==> Contains(l, m.literal.value)))
    && (m.foldLiteral.Some? ==>
          && (forall l :: '\n' !in l ==> (m.re(l) <==> FoldMatch(m.foldLiteral.value, l)))
          && (!m.foldRisky ==> 'k' !in m.foldLiteral.value && 's' !in m.foldLiteral.value))
    && (m.whole.Some? ==> forall data, k :: 0 <= k < |SplitLines(data)| && m.re(SplitLines(data)[k]) ==> m.whole.value(data))
  }

  lemma ContainsInSlice(s: Bytes, a: nat, b: nat, pat: Bytes)
    requires a <= b <= |s| && Contains(s[a..b], pat)
    ensures Contains(s, pat)
  {
    var i :| 0 <= i <= b - a && OccursAt(s[a..b], pat, i);
    forall j | 0 <= j < |pat| ensures s[a + i..a + i + |pat|][j] == pat[j] {
      assert s[a..b][i..i + |pat|][j] == pat[j];
    }
    assert OccursAt(s, pat, a + i);
  }

  /** Folding this literal on this text is lower-casing: either the literal holds
      no k or s, or the text holds none of their partners. */
  predicate PlainFold(lit: Bytes, s: Bytes) {
    ('k' !in lit && 's' !in lit) || (!Contains(s, KELVIN) && !Contains(s, LONG_S))
  }

  lemma PlainFoldOnSlice(lit: Bytes, s: Bytes, a: nat, b: nat)
    requires a <= b <= |s| && PlainFold(lit, s)
    ensures PlainFold(lit, s[a..b])
  {
    if Contains(s[a..b], KELVIN) { ContainsInSlice(s, a, b, KELVIN); }
    if Contains(s[a..b], LONG_S) { ContainsInSlice(s, a, b, LONG_S); }
  }

  lemma {:induction false} FoldPrefixIsLower(lit: Bytes, s: Bytes)
    requires PlainFold(lit, s)
    ensures FoldPrefix(lit, s) <==> lit <= Lower(s)
  {
    if lit != [] {
      assert KELVIN <= s ==> OccursAt(s, KELVIN, 0);
      assert LONG_S <= s ==> OccursAt(s, LONG_S, 0);
      assert FoldPrefix(lit, s) <==> s != [] && LowerByte(s[0]) == lit[0] && FoldPrefix(lit[1..], s[1..]);
      if s != [] {
        PlainFoldOnSlice(lit, s, 1, |s|);
        assert s[1..|s|] == s[1..];
        FoldPrefixIsLower(lit[1..], s[1..]);
        assert Lower(s) == [LowerByte(s[0])] + Lower(s[1..]);
        assert lit == [lit[0]] + lit[1..];
      }
    }
  }

  lemma FoldIsLower(lit: Bytes, s: Bytes)
    requires PlainFold(lit, s)
    ensures FoldMatch(lit, s) <==> Contains(Lower(s), lit)
  {
    forall i | 0 <= i <= |s|
      ensures FoldPrefix(lit, s[i..]) <==> OccursAt(Lower(s), lit, i)
    {
      PlainFoldOnSlice(lit, s, i, |s|);
      assert s[i..|s|] == s[i..];
      FoldPrefixIsLower(lit, s[i..]);
      assert Lower(s[i..]) == Lower(s)[i..];
      if i + |lit| <= |s| { assert Lower(s)[i..][..|lit|] == Lower(s)[i..i + |lit|]; }
    }
  }

  /** Lower-cases a buffer in place of the scratch one. */
  method LowerASCII(src: Bytes) returns (dst: array<char>)
    ensures fresh(dst) && dst[..] == Lower(src)
  {
    dst := new char[|src|];
    for i := 0 to |src|
      invariant forall j :: 0 <= j < i ==> dst[j] == LowerByte(src[j])
    {
      var c := src[i];
      if 'A' <= c <= 'Z' { c := c - 'A' + 'a'; }
      dst[i] := c;
    }
  }

  /** One file prepared for matching. */
  datatype FileScan = FileScan(lower: Bytes, useRegex: bool)

  /** The preparation fits the file. */
  ghost predicate Prepared(m: Matcher, fs: FileScan, data: Bytes) {
    m.literal.None? && m.foldLiteral.Some? && !fs.useRegex ==>
      fs.lower == Lower(data) && PlainFold(m.foldLiteral.value, data)
  }

  /** Decides whether the file can match at all; if not, no line of it does. */
  method Prepare(m: Matcher, data: Bytes) returns (fs: FileScan, can: bool)
    requires Sound(m)
    ensures !can ==> forall k :: 0 <= k < |SplitLines(data)| ==> !m.re(SplitLines(data)[k])
    ensures Prepared(m, fs, data)
  {
    fs := FileScan([], false);
    if m.literal.Some? {
      can := Contains(data, m.literal.value);
      forall k | 0 <= k < |SplitLines(data)| && m.re(SplitLines(data)[k]) ensures can {
        var a, b := LineIsSlice(data, k);
        ContainsInSlice(data, a, b, m.literal.value);
      }
    } else if m.foldLiteral.Some? {
      if m.foldRisky && (Contains(data, KELVIN) || Contains(data, LONG_S)) {
        fs := fs.(useRegex := true);
        can := m.whole.None? || m.whole.value(data);
      } else {
        var lower := LowerASCII(data);
        fs := fs.(lower := lower[..]);
        can := Contains(fs.lower, m.foldLiteral.value);
        forall k | 0 <= k < |SplitLines(data)| && m.re(SplitLines(data)[k]) ensures can {
          var a, b := LineIsSlice(data, k);
          FoldOnSlice(m, data, a, b);
          ContainsInSlice(Lower(data), a, b, m.foldLiteral.value);
        }
      }
    } else {
      can := m.whole.None? || m.whole.value(data);
    }
  }

  lemma FoldOnSlice(m: Matcher, data: Bytes, a: nat, b: nat)
    requires Sound(m) && m.foldLiteral.Some? && a <= b <= |data| && '\n' !in data[a..b]
    requires PlainFold(m.foldLiteral.value, data)
    ensures m.re(data[a..b]) <==> Contains(Lower(data)[a..b], m.foldLiteral.value)
  {
    PlainFoldOnSlice(m.foldLiteral.value, data, a, b);
    FoldIsLower(m.foldLiteral.value, data[a..b]);
    assert Lower(data[a..b]) == Lower(data)[a..b];
  }

  /** Tests the line data[start..end]. */
  method MatchLine(m: Matcher, fs: FileScan, data: Bytes, start: nat, end: nat) returns (hit: bool)
    requires Sound(m) && start <= end <= |data| && '\n' !in data[start..end] && Prepared(m, fs, data)
    ensures hit == m.re(data[start..end])
  {
    if m.literal.Some? {
      hit := Contains(data[start..end], m.literal.value);
    } else if m.foldLiteral.Some? && !fs.useRegex {
      FoldOnSlice(m, data, start, end);
      hit := Contains(fs.lower[start..end], m.foldLiteral.value);
    } else {
      hit := m.re(data[start..end]);
    }
  }

  // ---------------------------------------------------------------------
  // The two scans

  lemma {:induction false} NoHitsNoCount(ls: seq<Line>)
    requires forall i :: 0 <= i < |ls| ==> !ls[i].hit
    ensures MatchCount(ls) == 0
  {
    if ls != [] { NoHitsNoCount(ls[..|ls| - 1]); }
  }

  /** `seen` are the lines tested so far, `rest` is the untested part of the file,
      and the scan was not done before. */
  ghost predicate Scanning(q: Query, ls: seq<Line>, budget: int, seen: seq<Line>, rest: seq<Line>) {
    ls == seen + rest && StopFrom(q, ls, budget, 0) == StopFrom(q, ls, budget, |seen|)
  }

  /** One more line tested: the scan either goes on or has its result. */
  lemma ScanStep(q: Query, ls: seq<Line>, budget: int, seen: seq<Line>, x: Line, tail: seq<Line>)
    requires Scanning(q, ls, budget, seen, [x] + tail)
    ensures Done(q, seen + [x], budget) ==> Report(q, seen + [x]) == Result(q, ls, budget)
    ensures !Done(q, seen + [x], budget) ==> Scanning(q, ls, budget, seen + [x], tail)
  {
    assert ls[..|seen| + 1] == seen + [x];
  }

  lemma ScanEnds(q: Query, ls: seq<Line>, budget: int, seen: seq<Line>)
    requires Scanning(q, ls, budget, seen, [])
    ensures Report(q, seen) == Result(q, ls, budget)
  {
    assert ls[..|seen|] == seen;
  }

  /** Tests one line: either the scan goes on, or the collector holds the result. */
  method Feed(c: GrepCollector, num: nat, line: Bytes, hit: bool, ghost ls: seq<Line>, ghost tail: seq<Line>)
      returns (done: bool)
    requires c.Valid() && num == |c.seen| + 1
    requires Scanning(c.q, ls, c.budget, c.seen, [Line(line, hit)] + tail)
    modifies c
    ensures c.Valid() && |c.seen| == num
    ensures done ==> FileResult(c.count, c.lines) == Result(c.q, ls, c.budget)
    ensures !done ==> Scanning(c.q, ls, c.budget, c.seen, tail)
  {
    ScanStep(c.q, ls, c.budget, c.seen, Line(line, hit), tail);
    done := c.Add(num, line, hit);
  }

  /** The whole-buffer scan of a walked file. */
  method SearchFile(m: Matcher, q: Query, data: Bytes, budget: int) returns (fr: FileResult, ok: bool)
    requires Sound(m)
    ensures ok <==> Result(q, FileLines(data, m.re), budget).count > 0
    ensures ok ==> fr == Result(q, FileLines(data, m.re), budget)
  {
    ghost var ls := FileLines(data, m.re);
    var fs, can := Prepare(m, data);
    if !can {
      NoHitsNoCount(ls[..StopFrom(q, ls, budget, 0)]);
      return FileResult(0, []), false;
    }
    var c := new GrepCollector(q, budget);
    var start, num, done := 0, 1, false;
    assert data[0..] == data;
    while start < |data| && !done
      invariant fresh(c) && c.Valid() && c.q == q && c.budget == budget
      invariant start <= |data|
      invariant !done ==> num == |c.seen| + 1 && Scanning(q, ls, budget, c.seen, FileLines(data[start..], m.re))
      invariant done ==> FileResult(c.count, c.lines) == Result(q, ls, budget)
      decreases |data| - start, !done
    {
      var end := start + LineEnd(data[start..]);
      var next := if end < |data| then end + 1 else end;
      LineAt(data, start, end, m.re);
      var hit := MatchLine(m, fs, data, start, end);
      done := Feed(c, num, data[start..end], hit, ls, FileLines(data[next..], m.re));
      if !done {
        start := next;
        num := num + 1;
      }
    }
    if !done { ScanEnds(q, ls, budget, c.seen); }
    fr, ok := FileResult(c.count, c.lines), c.count > 0;
  }

  lemma LineAt(data: Bytes, start: nat, end: nat, re: Bytes -> bool)
    requires start < |data| && end == start + LineEnd(data[start..])
    ensures start <= end <= |data| && '\n' !in data[start..end]
    ensures var next := if end < |data| then end + 1 else end;
            FileLines(data[start..], re) == [Line(data[start..end], re(data[start..end]))] + FileLines(data[next..], re)
  {
    var rest, n := data[start..], end - start;
    assert rest[..n] == data[start..end];
    FileLinesFirst(rest, n, re);
    if n < |rest| {
      assert rest[n + 1..] == data[end + 1..];
    } else {
      assert data[end..] == [];
    }
  }

  /** How a buffered read of up to a newline ends. */
  datatype ReadStatus = Found | BufferFull | EndOfFile

  /** bufio's ReadSlice on the unread input: up to and including the next newline
      when it lies within the buffer, else a full buffer, else the rest. */
  method ReadSlice(rest: Bytes, size: nat) returns (chunk: Bytes, status: ReadStatus)
    requires size > 0
    ensures chunk <= rest
    ensures status.Found? ==> |chunk| == LineEnd(rest) + 1
    ensures status.BufferFull? ==> |chunk| == size && '\n' !in chunk
    ensures status.EndOfFile? ==> chunk == rest && '\n' !in rest
  {
    var n := LineEnd(rest);
    if n < |rest| && n < size { return rest[..n + 1], Found; }
    if |rest| >= size {
      assert forall i :: 0 <= i < size ==> rest[..n][i] == rest[i];
      return rest[..size], BufferFull;
    }
    assert rest[..n] == rest;
    return rest, EndOfFile;
  }

  /** The streaming search of a named file, whatever the reader's buffer size:
      the same result as the whole-buffer scan. */
  method GrepStream(re: Bytes -> bool, q: Query, data: Bytes, budget: int, size: nat) returns (fr: FileResult, ok: bool)
    requires size > 0
    ensures fr == Result(q, FileLines(data, re), budget)
    ensures ok <==> fr.count > 0
  {
    hide FileLines, Result, Report, StopFrom;
    ghost var ls := FileLines(data, re);
    var c := new GrepCollector(q, budget);
    var rest, num, long, done := data, 1, [], false;
    assert [] + rest == data;
    while !done
      invariant fresh(c) && c.Valid() && c.q == q && c.budget == budget && '\n' !in long
      invariant !done ==> num == |c.seen| + 1 && Scanning(q, ls, budget, c.seen, FileLines(long + rest, re))
      invariant done ==> FileResult(c.count, c.lines) == Result(q, ls, budget)
      decreases |rest|, !done
    {
      var chunk, status := ReadSlice(rest, size);
      if status.BufferFull? {
        ChunkFull(long, rest, chunk);
        long := long + chunk;
      } else if status.EndOfFile? {
        ChunkLast(long, rest, re);
        var line := long + chunk;
        if |line| != 0 { done := Feed(c, num, line, re(line), ls, []); }
        if !done { ScanEnds(q, ls, budget, c.seen); }
        done := true;
      } else {
        ChunkFound(long, rest, chunk, re);
        var line := long + chunk;
        line := line[..|line| - 1];
        long := [];
        done := Feed(c, num, line, re(line), ls, FileLines(rest[|chunk|..], re));
        num := num + 1;
        assert [] + rest[|chunk|..] == rest[|chunk|..];
      }
      rest := rest[|chunk|..];
    }
    fr, ok := FileResult(c.count, c.lines), c.count > 0;
  }

  /** A full buffer with no newline: the line goes on. */
  lemma ChunkFull(long: Bytes, rest: Bytes, chunk: Bytes)
    requires '\n' !in long && chunk <= rest && '\n' !in chunk
    ensures '\n' !in long + chunk && long + chunk + rest[|chunk|..] == long + rest
  {
    assert rest == chunk + rest[|chunk|..];
  }

  /** A chunk that ends with the newline completes the line. */
  lemma ChunkFound(long: Bytes, rest: Bytes, chunk: Bytes, re: Bytes -> bool)
    requires '\n' !in long && chunk <= rest && |chunk| == LineEnd(rest) + 1
    ensures var line := (long + chunk)[..|long + chunk| - 1];
            FileLines(long + rest, re) == [Line(line, re(line))] + FileLines(rest[|chunk|..], re)
  {
    hide FileLines;
    var n := LineEnd(rest);
    var line, tail := long + rest[..n], rest[|chunk|..];
    assert (long + chunk)[..|long + chunk| - 1] == line;
    assert long + rest == line + ['\n'] + tail;
    LineThenRest(line, tail, re);
  }

  lemma LineThenRest(line: Bytes, tail: Bytes, re: Bytes -> bool)
    requires '\n' !in line
    ensures FileLines(line + ['\n'] + tail, re) == [Line(line, re(line))] + FileLines(tail, re)
  {
    hide FileLines, SplitLines;
    var unread := line + ['\n'] + tail;
    assert unread[..|line|] == line;
    assert unread[|line| + 1..] == tail;
    FileLinesFirst(unread, |line|, re);
  }

  /** The rest of the file is the last line. */
  lemma ChunkLast(long: Bytes, rest: Bytes, re: Bytes -> bool)
    requires '\n' !in long && '\n' !in rest
    ensures long + rest == [] ==> FileLines(long + rest, re) == []
    ensures long + rest != [] ==> FileLines(long + rest, re) == [Line(long + rest, re(long + rest))] + []
  {
    var unread := long + rest;
    if unread != [] {
      assert unread[..|unread|] == unread;
      FileLinesFirst(unread, |unread|, re);
    }
  }
}
