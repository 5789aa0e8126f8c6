/** Matches by whole lines (internal/agent/fuzzy_edit.go, newEditMatcher, lineSpan and
    blockSpans): their spans lie on line borders, in order, and miss no window. */
module LineBlocks {
  import opened EditSpans

  /** The content's lines, each without its break and one "\r" before it, and where they
      start. */
  datatype Table = Table(lines: seq<string>, starts: seq<nat>)

  function TrimCR(s: string): string {
    if s != "" && s[|s| - 1] == '\r' then s[..|s| - 1] else s
  }

  /** Where line `i` ends, its break excluded; the last one ends at `total`. */
  function EndOf(t: Table, i: nat, total: int): int
    requires i < |t.starts|
  {
    if i + 1 < |t.starts| then t.starts[i + 1] - 1 else total
  }

  predicate IsLine(content: string, t: Table, i: nat, total: int)
    requires i < |t.starts| == |t.lines|
  {
    var end := EndOf(t, i, total);
    t.starts[i] <= end <= |content| && '\n' !in content[t.starts[i]..end] && t.lines[i] == TrimCR(content[t.starts[i]..end])
  }

  predicate Breaks(content: string, t: Table, i: nat, total: int)
    requires i < |t.starts|
  {
    0 <= EndOf(t, i, total) < |content| && content[EndOf(t, i, total)] == '\n'
  }

  predicate IsTable(content: string, t: Table) {
    && |t.lines| == |t.starts| > 0 && t.starts[0] == 0
    && (forall i :: 0 <= i < |t.starts| ==> IsLine(content, t, i, |content|))
    && (forall i :: 0 <= i < |t.starts| - 1 ==> Breaks(content, t, i, |content|))
  }

  /** All lines before `start`, where the next one begins. */
  predicate TableSoFar(content: string, t: Table, start: nat) {
    && |t.lines| == |t.starts| && start <= |content| && (if t.starts == [] then start == 0 else t.starts[0] == 0)
    && BrokenLines(content, t, start - 1)
  }

  predicate BrokenLines(content: string, t: Table, total: int)
    requires |t.lines| == |t.starts|
  {
    forall i :: 0 <= i < |t.starts| ==> IsLine(content, t, i, total) && Breaks(content, t, i, total)
  }

  lemma EmptyTable(content: string)
    ensures TableSoFar(content, Table([], []), 0)
  {
  }

  method NewEditMatcher(content: string) returns (t: Table)
    ensures IsTable(content, t) && t == TableOf(content)
  {
    hide IsTable, TableSoFar, LineEnd;
    t := Table([], []);
    var start: nat := 0;
    EmptyTable(content);
    while true
      invariant TableSoFar(content, t, start) && TableFrom(content, t, start) == TableOf(content)
      decreases |content| - start
    {
      var i: nat := start;
      while i < |content| && content[i] != '\n'
        invariant start <= i <= |content| && '\n' !in content[start..i]
      {
        i := i + 1;
      }
      FirstBreak(content, start, i);
      AddLine(content, t, start, i);
      t := Table(t.lines + [TrimCR(content[start..i])], t.starts + [start]);
      if i == |content| { return; }
      start := i + 1;
    }
  }

  /** Where the line that starts at `start` ends. */
  function LineEnd(content: string, start: nat): (end: nat)
    requires start <= |content|
    ensures start <= end <= |content| && '\n' !in content[start..end]
    ensures end < |content| ==> content[end] == '\n'
    decreases |content| - start
  {
    if start == |content| || content[start] == '\n' then start
    else
      var end := LineEnd(content, start + 1);
      assert content[start..end] == [content[start]] + content[start + 1..end];
      end
  }

  lemma {:induction false} FirstBreak(content: string, start: nat, end: nat)
    requires start <= end <= |content| && '\n' !in content[start..end] && (end < |content| ==> content[end] == '\n')
    ensures LineEnd(content, start) == end
    decreases |content| - start
  {
    if start < end {
      assert content[start..end] == [content[start]] + content[start + 1..end];
      FirstBreak(content, start + 1, end);
    }
  }

  /** The same table as a function, from the line that starts at `start` on. */
  function TableFrom(content: string, t: Table, start: nat): (r: Table)
    requires TableSoFar(content, t, start)
    ensures IsTable(content, r)
    decreases |content| - start
  {
    var end := LineEnd(content, start);
    AddLine(content, t, start, end);
    var t' := Table(t.lines + [TrimCR(content[start..end])], t.starts + [start]);
    if end == |content| then t' else TableFrom(content, t', end + 1)
  }

  function TableOf(content: string): (t: Table)
    ensures IsTable(content, t)
  {
    TableFrom(content, Table([], []), 0)
  }

  lemma AddLine(content: string, t: Table, start: nat, end: nat)
    requires TableSoFar(content, t, start) && start <= end <= |content| && '\n' !in content[start..end]
    requires end < |content| ==> content[end] == '\n'
    ensures var t' := Table(t.lines + [TrimCR(content[start..end])], t.starts + [start]);
            if end == |content| then IsTable(content, t') else TableSoFar(content, t', end + 1)
  {
    var t' := Table(t.lines + [TrimCR(content[start..end])], t.starts + [start]);
    forall i | 0 <= i < |t.starts| ensures IsLine(content, t', i, end) && Breaks(content, t', i, end) {
      assert IsLine(content, t, i, start - 1) && Breaks(content, t, i, start - 1);
    }
    assert IsLine(content, t', |t.starts|, end);
  }

  lemma {:induction false} StartsGrow(content: string, t: Table, i: nat, j: nat)
    requires IsTable(content, t) && i <= j < |t.starts|
    ensures t.starts[i] <= t.starts[j]
    ensures i < j ==> t.starts[i + 1] <= t.starts[j]
    decreases j - i
  {
    if i < j {
      StartsGrow(content, t, i + 1, j);
      assert IsLine(content, t, i, |content|);
    }
  }

  // ---------------------------------------------------------------------
  // One block

  predicate Begins(s: string, p: nat, prefix: string) { p <= |s| && prefix <= s[p..] }

  function TrimBreak(s: string): string {
    if s != "" && s[|s| - 1] == '\n' then s[..|s| - 1] else s
  }

  /** Lines `first` to `last` as a range, with the last one's break if old_string ended in
      one. */
  function LineSpan(content: string, t: Table, trailingNL: bool, first: nat, last: nat, repl: string): Span
    requires first <= last < |t.starts| == |t.lines|
  {
    var end := t.starts[last] + |t.lines[last]|;
    if !trailingNL then Span(t.starts[first], end, repl)
    else if Begins(content, end, "\r\n") then Span(t.starts[first], end + 2, repl)
    else if Begins(content, end, "\n") then Span(t.starts[first], end + 1, repl)
    else Span(t.starts[first], end, TrimBreak(repl))
  }

  /** Behind a line, without its "\r", is its break, or the end of the content. */
  lemma BehindLine(content: string, t: Table, i: nat)
    requires IsTable(content, t) && i < |t.starts|
    ensures var end := t.starts[i] + |t.lines[i]|;
            && end <= EndOf(t, i, |content|) <= |content|
            && (i + 1 < |t.starts| ==>
                  t.starts[i + 1] <= |content| &&
                  if Begins(content, end, "\r\n") then end + 2 == t.starts[i + 1]
                  else Begins(content, end, "\n") && end + 1 == t.starts[i + 1])
            && (i + 1 == |t.starts| ==> !Begins(content, end, "\r\n") && !Begins(content, end, "\n"))
  {
    var raw, end := EndOf(t, i, |content|), t.starts[i] + |t.lines[i]|;
    assert IsLine(content, t, i, |content|);
    var line := content[t.starts[i]..raw];
    assert end == raw || (end == raw - 1 && line[|t.lines[i]|] == content[end] == '\r');
    if i + 1 < |t.starts| {
      assert Breaks(content, t, i, |content|) && IsLine(content, t, i + 1, |content|);
      assert content[end..][0] == content[end];
      assert end < raw ==> content[end..][1] == content[raw];
    } else {
      assert content[end..] == line[|t.lines[i]|..];
      NoBreak(content[end..]);
    }
  }

  lemma NoBreak(s: string)
    requires '\n' !in s
    ensures !("\n" <= s) && !("\r\n" <= s)
  {
    if s != "" { assert s[0] in s; }
    if |s| > 1 { assert s[1] in s; }
  }

  /** The range lies on line borders: it starts a line, and ends the last line before its
      break, or behind it when old_string ended in one; at the end of a file without a
      final break the replacement loses its own. */
  lemma LineSpanBorders(content: string, t: Table, trailingNL: bool, first: nat, last: nat, repl: string)
    requires IsTable(content, t) && first <= last < |t.starts|
    ensures var s := LineSpan(content, t, trailingNL, first, last, repl);
            && s.start == t.starts[first] <= s.end <= |content|
            && (last + 1 < |t.starts| ==> s.end <= t.starts[last + 1])
            && (trailingNL && last + 1 < |t.starts| ==> s.end == t.starts[last + 1] && s.repl == repl)
            && (trailingNL && last + 1 == |t.starts| ==> s.end == t.starts[last] + |t.lines[last]| && s.repl == TrimBreak(repl))
            && (!trailingNL ==> s.end == t.starts[last] + |t.lines[last]| && s.repl == repl)
  {
    hide Begins, IsTable;
    StartsGrow(content, t, first, last);
    BehindLine(content, t, last);
  }

  // ---------------------------------------------------------------------
  // Every block

  /** Windows of `k` lines, from line `from` of `n` on: each the first accepted one that
      overlaps none before it. */
  ghost predicate Windows(n: nat, k: nat, same: nat -> bool, at: seq<nat>, from: nat, to: nat) {
    if at == [] then forall i: nat :: from <= i < to && i + k <= n ==> !same(i)
    else
      && from <= at[0] && at[0] + k <= n && at[0] + k <= to && same(at[0]) && (forall i: nat :: from <= i < at[0] ==> !same(i))
      && Windows(n, k, same, at[1..], at[0] + k, to)
  }

  function SpansAt(content: string, t: Table, trailingNL: bool, k: nat, at: seq<nat>, repl: nat -> string): seq<Span>
    requires k > 0 && |t.lines| == |t.starts| && forall i :: 0 <= i < |at| ==> at[i] + k <= |t.lines|
  {
    if at == [] then []
    else
      [LineSpan(content, t, trailingNL, at[0], at[0] + k - 1, repl(at[0]))] +
      SpansAt(content, t, trailingNL, k, at[1..], repl)
  }

  lemma {:induction false} WindowsFit(n: nat, k: nat, same: nat -> bool, at: seq<nat>, from: nat, to: nat)
    requires Windows(n, k, same, at, from, to)
    ensures forall i :: 0 <= i < |at| ==> from <= at[i] && at[i] + k <= n && same(at[i])
  {
    if at != [] {
      WindowsFit(n, k, same, at[1..], at[0] + k, to);
      assert forall i :: 1 <= i < |at| ==> at[i] == at[1..][i - 1];
    }
  }

  /** Every accepted window overlaps one that was taken. */
  lemma {:induction false} WindowsComplete(n: nat, k: nat, same: nat -> bool, at: seq<nat>, from: nat, i: nat) returns (j: nat)
    requires k > 0 && Windows(n, k, same, at, from, n) && from <= i && i + k <= n && same(i)
    ensures j < |at| && at[j] <= i < at[j] + k
  {
    if i < at[0] + k {
      j := 0;
    } else {
      j := WindowsComplete(n, k, same, at[1..], at[0] + k, i);
      j := j + 1;
    }
  }

  /** The spans of the windows are in bounds, ascending and disjoint. */
  lemma {:induction false} BlocksInOrder(content: string, t: Table, trailingNL: bool, k: nat, same: nat -> bool, at: seq<nat>,
                                         repl: nat -> string, from: nat, prev: nat)
    requires IsTable(content, t) && k > 0 && Windows(|t.lines|, k, same, at, from, |t.lines|)
    requires forall i :: 0 <= i < |at| ==> at[i] + k <= |t.lines|
    requires prev <= |content| && (from < |t.lines| ==> prev <= t.starts[from])
    ensures InOrder(content, SpansAt(content, t, trailingNL, k, at, repl), prev)
  {
    if at != [] {
      var first, last := at[0], at[0] + k - 1;
      LineSpanBorders(content, t, trailingNL, first, last, repl(first));
      StartsGrow(content, t, from, first);
      var s := LineSpan(content, t, trailingNL, first, last, repl(first));
      BlocksInOrder(content, t, trailingNL, k, same, at[1..], repl, first + k, s.end);
      var rest := SpansAt(content, t, trailingNL, k, at[1..], repl);
      assert ([s] + rest)[1..] == rest;
    }
  }

  lemma {:induction false} AddWindow(n: nat, k: nat, same: nat -> bool, at: seq<nat>, from: nat, i: nat)
    requires k > 0 && Windows(n, k, same, at, from, i) && i + k <= n && from <= i && same(i)
    ensures Windows(n, k, same, at + [i], from, i + k)
  {
    if at == [] {
      assert ([] + [i])[1..] == [];
    } else {
      assert (at + [i])[1..] == at[1..] + [i];
      AddWindow(n, k, same, at[1..], at[0] + k, i);
    }
  }

  lemma {:induction false} SkipLine(n: nat, k: nat, same: nat -> bool, at: seq<nat>, from: nat, i: nat, to: nat)
    requires Windows(n, k, same, at, from, i) && i <= to && (forall j: nat :: i <= j < to && j + k <= n ==> !same(j))
    ensures Windows(n, k, same, at, from, to)
  {
    if at != [] { SkipLine(n, k, same, at[1..], at[0] + k, i, to); }
  }

  lemma {:induction false} SpansAppend(content: string, t: Table, trailingNL: bool, k: nat, at: seq<nat>, i: nat,
        repl: nat -> string)
    requires k > 0 && |t.lines| == |t.starts| && forall j :: 0 <= j < |at + [i]| ==> (at + [i])[j] + k <= |t.lines|
    ensures (forall j :: 0 <= j < |at| ==> at[j] + k <= |t.lines|) && i + k <= |t.lines|
    ensures SpansAt(content, t, trailingNL, k, at + [i], repl) ==
            SpansAt(content, t, trailingNL, k, at, repl) + [LineSpan(content, t, trailingNL, i, i + k - 1, repl(i))]
  {
    assert (at + [i])[|at|] == i && forall j :: 0 <= j < |at| ==> (at + [i])[j] == at[j];
    if at == [] {
      assert ([] + [i])[1..] == [];
    } else {
      assert (at + [i])[1..] == at[1..] + [i];
      SpansAppend(content, t, trailingNL, k, at[1..], i, repl);
    }
  }

  /** The same windows as a function. */
  function WindowsFrom(n: nat, k: nat, same: nat -> bool, i: nat): (at: seq<nat>)
    requires k > 0
    ensures forall j :: 0 <= j < |at| ==> at[j] + k <= n
    decreases n - i
  {
    if i + k > n then []
    else if same(i) then [i] + WindowsFrom(n, k, same, i + k)
    else WindowsFrom(n, k, same, i + 1)
  }

  lemma {:induction false} WindowsFromAre(n: nat, k: nat, same: nat -> bool, from: nat, i: nat)
    requires k > 0 && from <= i && forall j: nat :: from <= j < i ==> !same(j)
    ensures Windows(n, k, same, WindowsFrom(n, k, same, i), from, n)
    decreases n - i
  {
    if i + k <= n {
      if same(i) {
        WindowsFromAre(n, k, same, i + k, i + k);
        assert ([i] + WindowsFrom(n, k, same, i + k))[1..] == WindowsFrom(n, k, same, i + k);
      } else {
        WindowsFromAre(n, k, same, from, i + 1);
      }
    }
  }

  /** The windows are determined: two lists of them are equal. */
  lemma {:induction false} WindowsUnique(n: nat, k: nat, same: nat -> bool, a: seq<nat>, b: seq<nat>, from: nat)
    requires k > 0 && Windows(n, k, same, a, from, n) && Windows(n, k, same, b, from, n)
    ensures a == b
  {
    if a != [] && b != [] {
      WindowsUnique(n, k, same, a[1..], b[1..], a[0] + k);
      assert a == [a[0]] + a[1..] && b == [b[0]] + b[1..];
    }
  }

  /** The windows that `same` accepts, left to right, none overlapping the one before. */
  method BlockSpans(content: string, t: Table, trailingNL: bool, k: nat, same: nat -> bool, repl: nat -> string)
      returns (spans: seq<Span>, ghost at: seq<nat>)
    requires IsTable(content, t) && k > 0
    ensures Windows(|t.lines|, k, same, at, 0, |t.lines|) && at == WindowsFrom(|t.lines|, k, same, 0)
    ensures (forall i :: 0 <= i < |at| ==> at[i] + k <= |t.lines|) && spans == SpansAt(content, t, trailingNL, k, at, repl)
    ensures InOrder(content, spans, 0)
  {
    hide IsTable, LineSpan;
    TableShape(content, t);
    var n := |t.lines|;
    spans, at := [], [];
    var i: nat := 0;
    while i + k <= n
      invariant i <= n && Windows(n, k, same, at, 0, i)
      invariant (forall j :: 0 <= j < |at| ==> at[j] + k <= n) && spans == SpansAt(content, t, trailingNL, k, at, repl)
      decreases n - i
    {
      if !same(i) {
        SkipLine(n, k, same, at, 0, i, i + 1);
        i := i + 1;
        continue;
      }
      AddWindow(n, k, same, at, 0, i);
      assert forall j :: 0 <= j < |at + [i]| ==> (at + [i])[j] + k <= n;
      SpansAppend(content, t, trailingNL, k, at, i, repl);
      spans := spans + [LineSpan(content, t, trailingNL, i, i + k - 1, repl(i))];
      at := at + [i];
      i := i + k;
    }
    SkipLine(n, k, same, at, 0, i, n);
    WindowsFromAre(n, k, same, 0, 0);
    WindowsUnique(n, k, same, at, WindowsFrom(n, k, same, 0), 0);
    BlocksInOrder(content, t, trailingNL, k, same, at, repl, 0, 0);
  }

  lemma TableShape(content: string, t: Table)
    requires IsTable(content, t)
    ensures |t.lines| == |t.starts| > 0 && t.starts[0] == 0
  {
  }
}
