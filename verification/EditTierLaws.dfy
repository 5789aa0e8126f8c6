/** What the looser tiers find (internal/agent/fuzzy_edit.go): white space between words,
    escaped text, text without its outer white space, and windows in a like context, each
    said of the file and of old_string. */
module EditTierLaws {
  import opened Strings
  import opened Wrappers
  import opened Text
  import opened EditSpans
  import opened LineBlocks
  import opened EditChain
  import opened EditTiers

  // ---------------------------------------------------------------------
  // Words with any blanks between them

  predicate IsBlankChar(c: char) { c == ' ' || c == '\t' }

  predicate AllBlanks(content: string, from: nat, to: nat)
    requires to <= |content|
  {
    forall i :: from <= i < to ==> IsBlankChar(content[i])
  }

  /** The words stand in the content from `p` to `end`, some blanks between each two. */
  ghost predicate WordsAt(content: string, words: seq<string>, p: nat, end: nat)
    requires words != []
  {
    var q := p + |words[0]|;
    && q <= |content| && content[p..q] == words[0]
    && if |words| == 1 then end == q
       else exists next: nat :: q < next <= |content| && AllBlanks(content, q, next) && WordsAt(content, words[1..], next, end)
  }

  predicate IsWord(w: string) { w != "" && forall j :: 0 <= j < |w| ==> !IsSpace(w[j]) }

  predicate AreWords(words: seq<string>) { forall i :: 0 <= i < |words| ==> IsWord(words[i]) }

  lemma {:induction false} FieldsAreWords(s: string)
    ensures AreWords(Fields(s))
  {
    if s != "" { FieldsAreWords(s[1..]); }
  }

  lemma {:induction false} SkipIs(content: string, p: nat, next: nat)
    requires p <= next <= |content| && AllBlanks(content, p, next)
    requires next < |content| ==> !IsBlankChar(content[next])
    ensures SkipBlanks(content, p) == next
    decreases next - p
  {
    if p < next { SkipIs(content, p + 1, next); }
  }

  lemma {:induction false} SkipSkips(content: string, p: nat)
    requires p <= |content|
    ensures AllBlanks(content, p, SkipBlanks(content, p))
    decreases |content| - p
  {
    if p < |content| && IsBlankChar(content[p]) { SkipSkips(content, p + 1); }
  }

  lemma WordsBegin(content: string, words: seq<string>, p: nat, end: nat)
    requires words != [] && AreWords(words) && WordsAt(content, words, p, end)
    ensures p < |content| && !IsBlankChar(content[p])
  {
    var w := words[0];
    assert IsWord(w) && content[p..p + |w|][0] == w[0];
  }

  lemma {:induction false} FieldsEndIs(content: string, words: seq<string>, p: nat, end: nat)
    requires p <= |content| && words != [] && AreWords(words)
    ensures FieldsEnd(content, words, p) == Some(end) <==> WordsAt(content, words, p, end)
    decreases |words|
  {
    var q := p + |words[0]|;
    if words[0] <= content[p..] {
      assert content[p..q] == words[0];
      if |words| > 1 {
        var rest := words[1..];
        var next := SkipBlanks(content, q);
        SkipSkips(content, q);
        FieldsEndIs(content, rest, next, end);
        forall x: nat | q < x <= |content| && AllBlanks(content, q, x) && WordsAt(content, rest, x, end) ensures x == next {
          WordsBegin(content, rest, x, end);
          SkipIs(content, q, x);
        }
      }
    } else if q <= |content| {
      assert content[p..][..|words[0]|] == content[p..q];
    }
  }

  /** The matches are where the words stand, and every place where they do is in one. */
  lemma {:induction false} FieldSpansAre(content: string, words: seq<string>, repl: string, off: nat)
    requires words != [] && AreWords(words)
    ensures var spans := FieldSpans(content, words, repl, off);
            && (forall s :: s in spans ==> s.repl == repl && off <= s.start && WordsAt(content, words, s.start, s.end))
            && (forall i: nat, end: nat :: off <= i && WordsAt(content, words, i, end) ==>
                  exists s :: s in spans && s.start <= i < s.end)
    decreases |content| - off
  {
    hide WordsAt, FieldsEnd;
    forall i: nat, end: nat | WordsAt(content, words, i, end) ensures i < |content| { WordsBegin(content, words, i, end); }
    if off < |content| {
      var found := FieldsEnd(content, words, off);
      forall end: nat ensures found == Some(end) <==> WordsAt(content, words, off, end) {
        FieldsEndIs(content, words, off, end);
      }
      if found.None? {
        FieldSpansAre(content, words, repl, off + 1);
      } else {
        FieldSpansAre(content, words, repl, found.value);
        assert Span(off, found.value, repl) in FieldSpans(content, words, repl, off);
      }
    }
  }

  lemma {:induction false} SelectedAre(spans: seq<Span>, keep: Span -> bool)
    ensures forall s :: s in Selected(spans, keep, Kept()) <==> s in spans && keep(s)
  {
    if spans != [] { SelectedAre(spans[1..], keep); }
  }

  /** Lines of the file from line `i` on agree with old_string's under a normalization. */
  predicate AlikeAt(lines: seq<string>, i: nat, wanted: seq<string>, norm: string -> string) {
    i + |wanted| <= |lines| && forall j :: 0 <= j < |wanted| ==> norm(lines[i + j]) == norm(wanted[j])
  }

  lemma NormalizedFinds(x: Texts, content: string, q: Query, norm: string -> string)
    requires q.lines != []
    ensures FindNormalized(x, content, q, norm) != [] <==>
            !AllBlankLines(q) && exists i: nat :: AlikeAt(TableOf(content).lines, i, q.lines, norm)
  {
    var t := TableOf(content);
    var same := (t: Table, i: nat) => MapLines(Window(t, i, |q.lines|), norm) == MapLines(q.lines, norm);
    BlocksNone(content, q, same, Reindented(x, q));
    forall i: nat | i + |q.lines| <= |t.lines| ensures On(same, t)(i) == AlikeAt(t.lines, i, q.lines, norm) {
      MappedAlike(Window(t, i, |q.lines|), q.lines, norm);
    }
  }

  /** The words of old_string stand in the content, and neither end cuts a word. */
  ghost predicate WordsWhole(content: string, words: seq<string>, s: Span)
    requires words != []
  {
    WordsAt(content, words, s.start, s.end) && AtWordBoundaries(content, s.start, s.end)
  }

  /** The white-space tier: whole lines that agree once runs of white space are collapsed; if
      there are none, and old_string is one line of two words at least, the same words with any
      blanks between them, not cutting another word. */
  lemma WhitespaceFinds(x: Texts, content: string, q: Query)
    requires q.lines != []
    ensures var spans, words := FindWhitespace(x, content, q), Fields(q.lines[0]);
            if !AllBlankLines(q) && exists i: nat :: AlikeAt(TableOf(content).lines, i, q.lines, x.collapse) then
              spans == FindNormalized(x, content, q, x.collapse) != []
            else if |q.lines| != 1 || |words| < 2 then spans == []
            else
              && (forall s :: s in spans ==> WordsWhole(content, words, s) && s.repl == x.trimLike(q.oldStr, q.newStr))
              && (forall i: nat, end: nat ::
                    WordsAt(content, words, i, end) && !(exists s :: s in spans && s.start <= i < s.end) ==>
                    exists p: nat, r: nat :: p <= i < r && WordsAt(content, words, p, r) && !AtWordBoundaries(content, p, r))
  {
    hide FindNormalized, Fields, FieldSpans, WordsAt, AtWordBoundaries, AlikeAt;
    NormalizedFinds(x, content, q, x.collapse);
    var words, repl := Fields(q.lines[0]), x.trimLike(q.oldStr, q.newStr);
    FieldsAreWords(q.lines[0]);
    if FindNormalized(x, content, q, x.collapse) == [] && |q.lines| == 1 && |words| >= 2 {
      var all := FieldSpans(content, words, repl, 0);
      FieldSpansAre(content, words, repl, 0);
      SelectedAre(all, Whole(content));
      var spans := Selected(all, Whole(content), Kept());
      assert spans == FindWhitespace(x, content, q);
      forall i: nat, end: nat | WordsAt(content, words, i, end) && !(exists s :: s in spans && s.start <= i < s.end)
        ensures exists p: nat, r: nat :: p <= i < r && WordsAt(content, words, p, r) && !AtWordBoundaries(content, p, r)
      {
        var s :| s in all && s.start <= i < s.end;
        assert s !in spans && !Whole(content)(s);
      }
    }
  }

  // ---------------------------------------------------------------------
  // Text without its outer white space

  /** The boundary tier: the occurrences, from the left and not overlapping, of old_string
      without the white space around it, that cut no word. */
  lemma TrimmedBoundaryFinds(x: Texts, content: string, q: Query)
    ensures var t, repl := TrimSpace(q.oldStr), x.trimLike(q.oldStr, q.newStr);
            var spans := FindTrimmedBoundary(x, content, q);
            if t == q.oldStr || t == "" then spans == []
            else forall s :: s in spans <==> s in LiteralFrom(content, t, repl, 0) && AtWordBoundaries(content, s.start, s.end)
  {
    hide TrimSpace, LiteralFrom, AtWordBoundaries;
    var t, repl := TrimSpace(q.oldStr), x.trimLike(q.oldStr, q.newStr);
    if t != "" { SelectedAre(LiteralFrom(content, t, repl, 0), Whole(content)); }
  }

  // ---------------------------------------------------------------------
  // Escaped text

  lemma LiteralFinds(content: string, needle: string, repl: string)
    requires needle != ""
    ensures LiteralFrom(content, needle, repl, 0) != [] <==> Contains(content, needle)
  {
    LiteralFromOccurs(content, needle, repl, 0, 0);
    var spans := LiteralFrom(content, needle, repl, 0);
    hide LiteralFrom;
    if Contains(content, needle) {
      var i :| 0 <= i <= |content| && OccursAt(content, needle, i);
      var j := OccurrencesComplete(content, needle, repl, spans, 0, i);
    }
  }

  /** The strict tiers find something exactly if the text is there, or its lines are but for
      the white space around each. */
  lemma StrictFinds(x: Texts, content: string, q: Query)
    requires q.lines != [] && q.oldStr != ""
    ensures FindStrict(x, content, q) != [] <==>
            || Contains(content, q.oldStr)
            || (!AllBlankLines(q) && exists i: nat :: TrimmedLinesAt(TableOf(content).lines, i, q.lines))
  {
    LiteralFinds(content, q.oldStr, q.newStr);
    hide LiteralFrom, Contains, TrimSpace, Blocks;
    NormalizedFinds(x, content, q, TrimSpace);
    if !AllBlankLines(q) {
      LineExactFinds(content, q);
      LineTrimmedFinds(x, content, q);
      IndentFlexibleFinds(x, content, q);
      forall i: nat | LinesAt(TableOf(content).lines, i, q.lines) ensures TrimmedLinesAt(TableOf(content).lines, i, q.lines) {
        SameIsTrimmed(TableOf(content).lines, i, q.lines);
      }
      hide AllBlankLines, TrimmedLinesAt, LinesAt, FindLineExact, FindIndentFlexible, FindLineTrimmed, FindExact;
      assert FindExact(content, q) == LiteralFrom(content, q.oldStr, q.newStr, 0) by { ExactIs(content, q); }
    }
  }

  lemma ExactIs(content: string, q: Query)
    requires q.oldStr != ""
    ensures FindExact(content, q) == LiteralFrom(content, q.oldStr, q.newStr, 0)
  {
  }

  lemma SameIsTrimmed(lines: seq<string>, i: nat, wanted: seq<string>)
    requires LinesAt(lines, i, wanted)
    ensures TrimmedLinesAt(lines, i, wanted)
  {
    hide TrimSpace;
    forall j | 0 <= j < |wanted| ensures TrimSpace(lines[i + j]) == TrimSpace(wanted[j]) {
      assert lines[i..i + |wanted|][j] == lines[i + j];
    }
  }

  /** The escape tier does what the strict tiers do for old_string unescaped, if that is
      another text and not empty. */
  lemma EscapeFinds(x: Texts, content: string, q: Query)
    ensures var u := x.unescape(q.oldStr);
            var lines := NewEditQuery(u, "").lines;
            FindEscapeNormalized(x, content, q) != [] <==>
            && u != q.oldStr && u != ""
            && (|| Contains(content, u)
                || ((exists j :: 0 <= j < |lines| && !Blank(lines[j])) &&
                    exists i: nat :: TrimmedLinesAt(TableOf(content).lines, i, lines)))
  {
    var u := x.unescape(q.oldStr);
    if u != q.oldStr && u != "" {
      var keeps := Contains(q.oldStr, "\n") || !Contains(q.newStr, "\n");
      var v := NewEditQuery(u, if keeps then x.unescapeLike(q.oldStr, q.newStr) else q.newStr);
      assert v.lines == NewEditQuery(u, "").lines && v.oldStr == u;
      StrictFinds(x, content, v);
      hide NewEditQuery, Contains, Blank, FindStrict;
    }
  }

  // ---------------------------------------------------------------------
  // Windows in a like context

  /** The windows of old_string's length that the test accepts. */
  function AcceptedWindows(x: Texts, t: Table, q: Query, i: nat): set<nat> {
    set j: nat | i <= j < |t.lines| && j + |q.lines| <= |t.lines| && x.accepts(q, t.lines)(j)
  }

  function WindowSpan(x: Texts, content: string, t: Table, q: Query, j: nat): Span
    requires |t.lines| == |t.starts| && q.lines != [] && j + |q.lines| <= |t.lines|
  {
    LineSpan(content, t, q.trailingNL, j, j + |q.lines| - 1, Reindented(x, q)(t, j))
  }

  ghost predicate FromWindow(x: Texts, content: string, t: Table, q: Query, i: nat, s: Span)
    requires |t.lines| == |t.starts| && q.lines != []
  {
    exists j :: j in AcceptedWindows(x, t, q, i) && s == WindowSpan(x, content, t, q, j)
  }

  lemma WindowsStep(x: Texts, t: Table, q: Query, i: nat)
    requires i + |q.lines| <= |t.lines| && q.lines != []
    ensures AcceptedWindows(x, t, q, i) == (if x.accepts(q, t.lines)(i) then {i} else {}) + AcceptedWindows(x, t, q, i + 1)
    ensures i !in AcceptedWindows(x, t, q, i + 1)
  {
  }

  lemma FromStep(x: Texts, content: string, t: Table, q: Query, i: nat, s: Span)
    requires |t.lines| == |t.starts| && q.lines != [] && i + |q.lines| <= |t.lines|
    ensures FromWindow(x, content, t, q, i, s) <==>
            (x.accepts(q, t.lines)(i) && s == WindowSpan(x, content, t, q, i)) || FromWindow(x, content, t, q, i + 1, s)
  {
    WindowsStep(x, t, q, i);
    hide WindowSpan;
  }

  lemma AcceptedStep(x: Texts, content: string, t: Table, q: Query, i: nat)
    requires |t.lines| == |t.starts| && q.lines != [] && i + |q.lines| <= |t.lines|
    ensures Accepted(x, content, t, q, i) ==
            (if x.accepts(q, t.lines)(i) then [WindowSpan(x, content, t, q, i)] else []) + Accepted(x, content, t, q, i + 1)
  {
    hide LineSpan;
  }

  lemma {:induction false} AcceptedAre(x: Texts, content: string, t: Table, q: Query, i: nat)
    requires |t.lines| == |t.starts| && q.lines != []
    ensures var spans := Accepted(x, content, t, q, i);
            |spans| == |AcceptedWindows(x, t, q, i)| && forall s :: s in spans <==> FromWindow(x, content, t, q, i, s)
    decreases |t.lines| - i
  {
    hide WindowSpan;
    if i + |q.lines| <= |t.lines| {
      AcceptedAre(x, content, t, q, i + 1);
      WindowsStep(x, t, q, i);
      AcceptedStep(x, content, t, q, i);
      forall s ensures FromWindow(x, content, t, q, i, s) <==>
        (x.accepts(q, t.lines)(i) && s == WindowSpan(x, content, t, q, i)) || FromWindow(x, content, t, q, i + 1, s) {
        FromStep(x, content, t, q, i, s);
      }
      hide Accepted, AcceptedWindows, FromWindow;
    } else {
      assert AcceptedWindows(x, t, q, i) == {};
    }
  }

  /** The context tier: one span for each accepted window of the file, and so one place to
      write exactly when one window is accepted. */
  lemma ContextFinds(x: Texts, content: string, q: Query)
    requires q.lines != []
    ensures var t, spans := TableOf(content), FindContextAware(x, content, q);
            && |t.lines| == |t.starts| && |spans| == |AcceptedWindows(x, t, q, 0)|
            && forall s :: s in spans <==> FromWindow(x, content, t, q, 0, s)
  {
    TableShape(content, TableOf(content));
    AcceptedAre(x, content, TableOf(content), q, 0);
    hide Accepted, FromWindow, TableOf, AcceptedWindows;
  }
}
