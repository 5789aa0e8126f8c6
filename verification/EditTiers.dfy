/** The ten tiers of the chain (internal/agent/fuzzy_edit.go, editStrategies): each finds
    spans in order, or at least in bounds where it writes one place at most, so the chain's
    edits change only what they found. */
module EditTiers {
  import opened Strings
  import opened Wrappers
  import opened Text
  import opened EditSpans
  import opened LineBlocks
  import opened EditChain
  import LineEndings
  import Typographic
  import BlockAnchor

  /** old_string and new_string prepared for matching by lines; the lines of old_string are
      without a final break. */
  datatype Query = Query(oldStr: string, newStr: string, lines: seq<string>, trailingNL: bool)

  function TrimCRs(lines: seq<string>): (r: seq<string>)
    ensures |r| == |lines|
  {
    if lines == [] then [] else [TrimCR(lines[0])] + TrimCRs(lines[1..])
  }

  function NewEditQuery(o: string, n: string): (q: Query)
    ensures q.lines != []
  {
    var trailingNL := |o| > 1 && o[|o| - 1] == '\n';
    Query(o, n, TrimCRs(Split(if trailingNL then o[..|o| - 1] else o)), trailingNL)
  }

  predicate AllBlankLines(q: Query) { forall i :: 0 <= i < |q.lines| ==> Blank(q.lines[i]) }

  /** What the tiers compute on strings alone: whatever these functions are, the spans stay
      in order.  `reindent` is reindentForFile for a window of the file's lines, `accepts`
      the test of the context tier for a window of a file, `gaveUp` whether the block-anchor
      search ran out of its budget. */
  datatype Texts = Texts(
    reindent: (string, seq<string>, seq<string>, seq<string>) -> string,
    dedent: seq<string> -> seq<string>,
    collapse: string -> string,
    trimLike: (string, string) -> string,
    hasTypographic: string -> bool,
    asciiLike: (string, string, string) -> string,
    unescape: string -> string,
    unescapeLike: (string, string) -> string,
    scored: string -> BlockAnchor.ScoredLine,
    agrees: (Query, seq<string>) -> ((nat, nat) -> bool),
    gaveUp: (Query, seq<string>) -> bool,
    accepts: (Query, seq<string>) -> (nat -> bool))

  // ---------------------------------------------------------------------
  // Windows of lines

  function Window(t: Table, i: nat, k: nat): seq<string> {
    if i + k <= |t.lines| then t.lines[i..i + k] else []
  }

  function On<T>(f: (Table, nat) -> T, t: Table): nat -> T { (i: nat) => f(t, i) }

  function Blocks(content: string, q: Query, same: (Table, nat) -> bool, repl: (Table, nat) -> string): seq<Span>
    requires q.lines != []
  {
    var t := TableOf(content);
    SpansAt(content, t, q.trailingNL, |q.lines|, WindowsFrom(|t.lines|, |q.lines|, On(same, t), 0), On(repl, t))
  }

  lemma BlocksOrdered(content: string, q: Query, same: (Table, nat) -> bool, repl: (Table, nat) -> string)
    requires q.lines != []
    ensures InOrder(content, Blocks(content, q, same, repl), 0)
  {
    hide IsTable, InOrder, Windows, SpansAt;
    var t := TableOf(content);
    TableShape(content, t);
    WindowsFromAre(|t.lines|, |q.lines|, On(same, t), 0, 0);
    BlocksInOrder(content, t, q.trailingNL, |q.lines|, On(same, t),
                  WindowsFrom(|t.lines|, |q.lines|, On(same, t), 0), On(repl, t), 0, 0);
  }

  function Reindented(x: Texts, q: Query): (Table, nat) -> string {
    (t: Table, i: nat) => x.reindent(q.newStr, q.lines, Window(t, i, |q.lines|), t.lines)
  }

  function MapLines(lines: seq<string>, f: string -> string): (r: seq<string>)
    ensures |r| == |lines|
  {
    if lines == [] then [] else [f(lines[0])] + MapLines(lines[1..], f)
  }

  /** normalizedBlockSpans. */
  function FindNormalized(x: Texts, content: string, q: Query, norm: string -> string): seq<Span>
    requires q.lines != []
  {
    if AllBlankLines(q) then []
    else
      Blocks(content, q, (t: Table, i: nat) => MapLines(Window(t, i, |q.lines|), norm) == MapLines(q.lines, norm),
             Reindented(x, q))
  }

  lemma NormalizedOrdered(x: Texts, content: string, q: Query, norm: string -> string)
    requires q.lines != []
    ensures InOrder(content, FindNormalized(x, content, q, norm), 0)
  {
    hide InOrder, Blocks;
    if AllBlankLines(q) {
      NothingInOrder(content);
    } else {
      BlocksOrdered(content, q, (t: Table, i: nat) => MapLines(Window(t, i, |q.lines|), norm) == MapLines(q.lines, norm),
                    Reindented(x, q));
    }
  }

  lemma NothingInOrder(content: string)
    ensures InOrder(content, [], 0)
  {
  }

  // ---------------------------------------------------------------------
  // The strict tiers

  function FindExact(content: string, q: Query): seq<Span> {
    if q.oldStr == "" then [] else LiteralFrom(content, q.oldStr, q.newStr, 0)
  }

  lemma ExactOrdered(content: string, q: Query)
    ensures InOrder(content, FindExact(content, q), 0)
  {
    hide InOrder, LiteralFrom;
    if q.oldStr == "" {
      NothingInOrder(content);
    } else {
      LiteralFromOccurs(content, q.oldStr, q.newStr, 0, 0);
      OccurrencesInOrder(content, q.oldStr, q.newStr, FindExact(content, q), 0, |content|);
    }
  }

  function FindLineExact(content: string, q: Query): seq<Span>
    requires q.lines != []
  {
    if AllBlankLines(q) then []
    else Blocks(content, q, (t: Table, i: nat) => Window(t, i, |q.lines|) == q.lines, (t: Table, i: nat) => q.newStr)
  }

  lemma LineExactOrdered(content: string, q: Query)
    requires q.lines != []
    ensures InOrder(content, FindLineExact(content, q), 0)
  {
    hide InOrder, Blocks;
    if AllBlankLines(q) {
      NothingInOrder(content);
    } else {
      BlocksOrdered(content, q, (t: Table, i: nat) => Window(t, i, |q.lines|) == q.lines, (t: Table, i: nat) => q.newStr);
    }
  }

  predicate SameTrimmed(a: seq<string>, b: seq<string>) {
    |a| == |b| && forall j :: 0 <= j < |a| ==> TrimSpace(a[j]) == TrimSpace(b[j])
  }

  function IndentFlexible(x: Texts, q: Query): (Table, nat) -> bool {
    (t: Table, i: nat) =>
      var window := Window(t, i, |q.lines|); SameTrimmed(window, q.lines) && x.dedent(window) == x.dedent(q.lines)
  }

  function FindIndentFlexible(x: Texts, content: string, q: Query): seq<Span>
    requires q.lines != []
  {
    if AllBlankLines(q) then [] else Blocks(content, q, IndentFlexible(x, q), Reindented(x, q))
  }

  lemma IndentFlexibleOrdered(x: Texts, content: string, q: Query)
    requires q.lines != []
    ensures InOrder(content, FindIndentFlexible(x, content, q), 0)
  {
    hide InOrder, Blocks;
    if AllBlankLines(q) { NothingInOrder(content); } else { BlocksOrdered(content, q, IndentFlexible(x, q), Reindented(x, q)); }
  }

  function FindLineTrimmed(x: Texts, content: string, q: Query): seq<Span>
    requires q.lines != []
  {
    FindNormalized(x, content, q, TrimSpace)
  }

  // ---------------------------------------------------------------------
  // What the whole-line tiers find

  lemma {:induction false} WindowsFromNone(n: nat, k: nat, same: nat -> bool, i: nat)
    requires k > 0
    ensures WindowsFrom(n, k, same, i) == [] <==> forall j: nat :: i <= j && j + k <= n ==> !same(j)
    decreases n - i
  {
    if i + k <= n && !same(i) { WindowsFromNone(n, k, same, i + 1); }
  }

  lemma BlocksNone(content: string, q: Query, same: (Table, nat) -> bool, repl: (Table, nat) -> string)
    requires q.lines != []
    ensures Blocks(content, q, same, repl) == [] <==>
            forall j: nat :: j + |q.lines| <= |TableOf(content).lines| ==> !On(same, TableOf(content))(j)
  {
    var t := TableOf(content);
    WindowsFromNone(|t.lines|, |q.lines|, On(same, t), 0);
  }

  /** Lines of the file from line `i` on stand for old_string's: the same, or the same but
      for white space around each. */
  predicate LinesAt(lines: seq<string>, i: nat, wanted: seq<string>) {
    i + |wanted| <= |lines| && lines[i..i + |wanted|] == wanted
  }

  predicate TrimmedLinesAt(lines: seq<string>, i: nat, wanted: seq<string>) {
    i + |wanted| <= |lines| && forall j :: 0 <= j < |wanted| ==> TrimSpace(lines[i + j]) == TrimSpace(wanted[j])
  }

  lemma {:induction false} MappedAlike(a: seq<string>, b: seq<string>, f: string -> string)
    requires |a| == |b|
    ensures MapLines(a, f) == MapLines(b, f) <==> forall j :: 0 <= j < |a| ==> f(a[j]) == f(b[j])
  {
    if a != [] {
      MappedAlike(a[1..], b[1..], f);
      assert MapLines(a, f)[1..] == MapLines(a[1..], f) && MapLines(b, f)[1..] == MapLines(b[1..], f);
      assert MapLines(a, f)[0] == f(a[0]) && MapLines(b, f)[0] == f(b[0]);
      assert forall j :: 1 <= j < |a| ==> a[j] == a[1..][j - 1] && b[j] == b[1..][j - 1];
      assert forall j :: 0 <= j < |a| - 1 ==> a[1..][j] == a[j + 1] && b[1..][j] == b[j + 1];
    }
  }

  /** The line tier finds old_string exactly when its lines are lines of the file, next to
      each other; old_string without visible characters it refuses. */
  lemma LineExactFinds(content: string, q: Query)
    requires q.lines != [] && !AllBlankLines(q)
    ensures FindLineExact(content, q) != [] <==> exists i: nat :: LinesAt(TableOf(content).lines, i, q.lines)
  {
    var t := TableOf(content);
    var same := (t: Table, i: nat) => Window(t, i, |q.lines|) == q.lines;
    BlocksNone(content, q, same, (t: Table, i: nat) => q.newStr);
    assert FindLineExact(content, q) == Blocks(content, q, same, (t: Table, i: nat) => q.newStr);
    forall i: nat | i + |q.lines| <= |t.lines| ensures On(same, t)(i) == LinesAt(t.lines, i, q.lines) {}
  }

  /** The per-line tier does when each line agrees but for the white space around it. */
  lemma LineTrimmedFinds(x: Texts, content: string, q: Query)
    requires q.lines != [] && !AllBlankLines(q)
    ensures FindLineTrimmed(x, content, q) != [] <==> exists i: nat :: TrimmedLinesAt(TableOf(content).lines, i, q.lines)
  {
    hide TrimSpace;
    var t := TableOf(content);
    var same := (t: Table, i: nat) => MapLines(Window(t, i, |q.lines|), TrimSpace) == MapLines(q.lines, TrimSpace);
    BlocksNone(content, q, same, Reindented(x, q));
    forall i: nat | i + |q.lines| <= |t.lines| ensures On(same, t)(i) == TrimmedLinesAt(t.lines, i, q.lines) {
      MappedAlike(Window(t, i, |q.lines|), q.lines, TrimSpace);
    }
  }

  /** The indentation tier does when besides both sides are the same once dedented. */
  lemma IndentFlexibleFinds(x: Texts, content: string, q: Query)
    requires q.lines != [] && !AllBlankLines(q)
    ensures FindIndentFlexible(x, content, q) != [] <==>
            exists i: nat :: TrimmedLinesAt(TableOf(content).lines, i, q.lines) &&
                             x.dedent(TableOf(content).lines[i..i + |q.lines|]) == x.dedent(q.lines)
  {
    hide TrimSpace;
    var t := TableOf(content);
    BlocksNone(content, q, IndentFlexible(x, q), Reindented(x, q));
    forall i: nat | i + |q.lines| <= |t.lines|
      ensures On(IndentFlexible(x, q), t)(i) <==>
              TrimmedLinesAt(t.lines, i, q.lines) && x.dedent(t.lines[i..i + |q.lines|]) == x.dedent(q.lines) {
      WindowTrimmed(t, i, q.lines);
    }
  }

  lemma WindowTrimmed(t: Table, i: nat, wanted: seq<string>)
    requires i + |wanted| <= |t.lines|
    ensures Window(t, i, |wanted|) == t.lines[i..i + |wanted|]
    ensures SameTrimmed(Window(t, i, |wanted|), wanted) == TrimmedLinesAt(t.lines, i, wanted)
  {
    hide TrimSpace;
    var window := Window(t, i, |wanted|);
    assert forall j :: 0 <= j < |wanted| ==> window[j] == t.lines[i + j];
    if SameTrimmed(window, wanted) {
      forall j | 0 <= j < |wanted| ensures TrimSpace(t.lines[i + j]) == TrimSpace(wanted[j]) {
        assert TrimSpace(window[j]) == TrimSpace(wanted[j]);
      }
    }
  }

  // ---------------------------------------------------------------------
  // Inside a line

  predicate IsWordByte(c: char) {
    c == '_' || c as int >= 0x80 || '0' <= c <= '9' || 'a' <= c <= 'z' || 'A' <= c <= 'Z'
  }

  /** Neither end of the range cuts a word, and no backslash is before it. */
  predicate AtWordBoundaries(content: string, start: nat, end: nat) {
    && !(0 < start <= |content| && content[start - 1] == '\\')
    && !(0 < start < |content| && IsWordByte(content[start - 1]) && IsWordByte(content[start]))
    && !(0 < end < |content| && IsWordByte(content[end - 1]) && IsWordByte(content[end]))
  }

  function Whole(content: string): Span -> bool { (s: Span) => AtWordBoundaries(content, s.start, s.end) }

  function Kept(): Span -> string { (s: Span) => s.repl }

  /** strings.Fields. */
  function Fields(s: string): (r: seq<string>)
    ensures forall i :: 0 <= i < |r| ==> r[i] != ""
  {
    if s == "" then []
    else if IsSpace(s[0]) then Fields(s[1..])
    else
      var rest := Fields(s[1..]);
      if |s| > 1 && !IsSpace(s[1]) && rest != [] then [[s[0]] + rest[0]] + rest[1..] else [[s[0]]] + rest
  }

  /** Behind the spaces and tabs at `p`. */
  function SkipBlanks(content: string, p: nat): (r: nat)
    requires p <= |content|
    ensures p <= r <= |content|
    decreases |content| - p
  {
    if p < |content| && (content[p] == ' ' || content[p] == '\t') then SkipBlanks(content, p + 1) else p
  }

  /** Where the fields end that begin at `p`, one run of spaces and tabs between each two. */
  function FieldsEnd(content: string, fields: seq<string>, p: nat): (r: Option<nat>)
    requires p <= |content| && fields != [] && fields[0] != ""
    requires forall i :: 0 <= i < |fields| ==> fields[i] != ""
    ensures r.Some? ==> p < r.value <= |content|
    decreases |fields|
  {
    if !(fields[0] <= content[p..]) then None
    else
      var end := p + |fields[0]|;
      if |fields| == 1 then Some(end)
      else
        var next := SkipBlanks(content, end);
        if next == end then None else FieldsEnd(content, fields[1..], next)
  }

  /** The leftmost matches of the fields, none overlapping the one before. */
  function FieldSpans(content: string, fields: seq<string>, repl: string, off: nat): seq<Span>
    requires fields != [] && forall i :: 0 <= i < |fields| ==> fields[i] != ""
    decreases |content| - off
  {
    if off >= |content| then []
    else
      var end := FieldsEnd(content, fields, off);
      if end.None? then FieldSpans(content, fields, repl, off + 1)
      else [Span(off, end.value, repl)] + FieldSpans(content, fields, repl, end.value)
  }

  lemma {:induction false} FieldSpansOrdered(content: string, fields: seq<string>, repl: string, off: nat, prev: nat)
    requires fields != [] && (forall i :: 0 <= i < |fields| ==> fields[i] != "") && prev <= off && prev <= |content|
    ensures InOrder(content, FieldSpans(content, fields, repl, off), prev)
    decreases |content| - off
  {
    if off < |content| {
      var end := FieldsEnd(content, fields, off);
      if end.None? {
        FieldSpansOrdered(content, fields, repl, off + 1, prev);
      } else {
        FieldSpansOrdered(content, fields, repl, end.value, end.value);
        var rest := FieldSpans(content, fields, repl, end.value);
        assert ([Span(off, end.value, repl)] + rest)[1..] == rest;
      }
    }
  }

  /** findWhitespaceNormalized. */
  function FindWhitespace(x: Texts, content: string, q: Query): seq<Span>
    requires q.lines != []
  {
    var spans := FindNormalized(x, content, q, x.collapse);
    if spans != [] then spans
    else
      var fields := Fields(q.lines[0]);
      if |q.lines| != 1 || |fields| < 2 then []
      else Selected(FieldSpans(content, fields, x.trimLike(q.oldStr, q.newStr), 0), Whole(content), Kept())
  }

  lemma WhitespaceOrdered(x: Texts, content: string, q: Query)
    requires q.lines != []
    ensures InOrder(content, FindWhitespace(x, content, q), 0)
  {
    hide InOrder, FindNormalized, FieldSpans, Selected, Fields;
    NormalizedOrdered(x, content, q, x.collapse);
    NothingInOrder(content);
    var fields := Fields(q.lines[0]);
    if |q.lines| == 1 && |fields| >= 2 {
      var repl := x.trimLike(q.oldStr, q.newStr);
      FieldSpansOrdered(content, fields, repl, 0, 0);
      SelectedInOrder(content, FieldSpans(content, fields, repl, 0), Whole(content), Kept(), 0);
    }
  }

  // ---------------------------------------------------------------------
  // Typographic and escaped quotes

  function All(): Span -> bool { (s: Span) => true }

  /** The text of a span, its typographic characters spelled as the file spells them. */
  function LikeFile(x: Texts, content: string, q: Query): Span -> string {
    (s: Span) => x.asciiLike(s.repl, q.oldStr, if s.start <= s.end <= |content| then content[s.start..s.end] else "")
  }

  function TypographicOrLines(x: Texts, content: string, q: Query): seq<Span>
    requires q.lines != []
  {
    var spans := if q.oldStr == "" then [] else Typographic.TypographicFrom(content, q.oldStr, q.newStr);
    if spans != [] then spans else FindNormalized(x, content, q, (l: string) => x.collapse(Typographic.Normalize(l)))
  }

  /** findUnicodeNormalized. */
  function FindUnicodeNormalized(x: Texts, content: string, q: Query): seq<Span>
    requires q.lines != []
  {
    if !x.hasTypographic(content) && !x.hasTypographic(q.oldStr) then []
    else Selected(TypographicOrLines(x, content, q), All(), LikeFile(x, content, q))
  }

  lemma UnicodeOrdered(x: Texts, content: string, q: Query)
    requires q.lines != []
    ensures InOrder(content, FindUnicodeNormalized(x, content, q), 0)
  {
    hide InOrder, FindNormalized, Selected, Typographic.TypographicFrom;
    NothingInOrder(content);
    if q.oldStr != "" { Typographic.TypographicFromInOrder(content, q.oldStr, q.newStr); }
    NormalizedOrdered(x, content, q, (l: string) => x.collapse(Typographic.Normalize(l)));
    SelectedInOrder(content, TypographicOrLines(x, content, q), All(), LikeFile(x, content, q), 0);
  }

  function FindStrict(x: Texts, content: string, q: Query): seq<Span>
    requires q.lines != []
  {
    if FindExact(content, q) != [] then FindExact(content, q)
    else if FindLineExact(content, q) != [] then FindLineExact(content, q)
    else if FindIndentFlexible(x, content, q) != [] then FindIndentFlexible(x, content, q)
    else FindLineTrimmed(x, content, q)
  }

  /** findEscapeNormalized: the strict tiers, for the unescaped strings. */
  function FindEscapeNormalized(x: Texts, content: string, q: Query): seq<Span> {
    var u := x.unescape(q.oldStr);
    if u == q.oldStr || u == "" then []
    else
      var keeps := Contains(q.oldStr, "\n") || !Contains(q.newStr, "\n");
      FindStrict(x, content, NewEditQuery(u, if keeps then x.unescapeLike(q.oldStr, q.newStr) else q.newStr))
  }

  lemma StrictOrdered(x: Texts, content: string, q: Query)
    requires q.lines != []
    ensures InOrder(content, FindStrict(x, content, q), 0)
  {
    hide InOrder, FindExact, FindLineExact, FindIndentFlexible, FindNormalized;
    ExactOrdered(content, q);
    LineExactOrdered(content, q);
    IndentFlexibleOrdered(x, content, q);
    NormalizedOrdered(x, content, q, TrimSpace);
  }

  lemma EscapeOrdered(x: Texts, content: string, q: Query)
    ensures InOrder(content, FindEscapeNormalized(x, content, q), 0)
  {
    hide InOrder, FindStrict, NewEditQuery, Contains;
    NothingInOrder(content);
    var u := x.unescape(q.oldStr);
    var keeps := Contains(q.oldStr, "\n") || !Contains(q.newStr, "\n");
    StrictOrdered(x, content, NewEditQuery(u, if keeps then x.unescapeLike(q.oldStr, q.newStr) else q.newStr));
  }

  // ---------------------------------------------------------------------
  // The tiers that write one place

  /** findTrimmedBoundary. */
  function FindTrimmedBoundary(x: Texts, content: string, q: Query): seq<Span> {
    var t := TrimSpace(q.oldStr);
    if t == q.oldStr || t == "" then []
    else Selected(LiteralFrom(content, t, x.trimLike(q.oldStr, q.newStr), 0), Whole(content), Kept())
  }

  lemma TrimmedBoundaryOrdered(x: Texts, content: string, q: Query)
    ensures InOrder(content, FindTrimmedBoundary(x, content, q), 0)
  {
    hide InOrder, LiteralFrom, Selected, TrimSpace;
    NothingInOrder(content);
    var t := TrimSpace(q.oldStr);
    if t != "" {
      var repl := x.trimLike(q.oldStr, q.newStr);
      LiteralFromOccurs(content, t, repl, 0, 0);
      OccurrencesInOrder(content, t, repl, LiteralFrom(content, t, repl, 0), 0, |content|);
      SelectedInOrder(content, LiteralFrom(content, t, repl, 0), Whole(content), Kept(), 0);
    }
  }

  function Scored(x: Texts, lines: seq<string>): (r: seq<BlockAnchor.ScoredLine>)
    ensures |r| == |lines|
  {
    if lines == [] then [] else [x.scored(lines[0])] + Scored(x, lines[1..])
  }

  function QuoteOf(x: Texts, q: Query): BlockAnchor.Quote
    requires |q.lines| >= 3
  {
    BlockAnchor.Quote(TrimSpace(q.lines[0]), TrimSpace(q.lines[|q.lines| - 1]), Scored(x, q.lines[1..|q.lines| - 1]))
  }

  function FileOf(x: Texts, q: Query, lines: seq<string>): BlockAnchor.File {
    BlockAnchor.File(MapLines(lines, TrimSpace), Scored(x, lines), x.agrees(q, lines))
  }

  /** The spans of the blocks, each re-indented by its first and last line. */
  function BlockSpansOf(x: Texts, content: string, t: Table, q: Query, blocks: seq<BlockAnchor.Block>): seq<Span>
    requires |t.lines| == |t.starts| && q.lines != []
    requires forall i :: 0 <= i < |blocks| ==> 3 <= blocks[i].size && blocks[i].first + blocks[i].size <= |t.lines|
  {
    if blocks == [] then []
    else
      var first, last := blocks[0].first, blocks[0].first + blocks[0].size - 1;
      var repl := x.reindent(q.newStr, [q.lines[0], q.lines[|q.lines| - 1]], [t.lines[first], t.lines[last]], t.lines);
      [LineSpan(content, t, q.trailingNL, first, last, repl)] + BlockSpansOf(x, content, t, q, blocks[1..])
  }

  /** findBlockAnchor, by what the search finds when it does not give up. */
  function FindBlockAnchor(x: Texts, content: string, q: Query): seq<Span>
    requires q.lines != []
  {
    var t := TableOf(content);
    if |q.lines| < 3 || !BlockAnchor.Usable(QuoteOf(x, q)) || x.gaveUp(q, t.lines) then []
    else
      var blocks := BlockAnchor.Exhaustive(QuoteOf(x, q), FileOf(x, q, t.lines), |t.lines|);
      BlockAnchor.BlocksDisjoint(QuoteOf(x, q), FileOf(x, q, t.lines), |t.lines|);
      BlockSpansOf(x, content, t, q, blocks)
  }

  lemma {:induction false} BlockSpansInBounds(x: Texts, content: string, t: Table, q: Query, blocks: seq<BlockAnchor.Block>)
    requires IsTable(content, t) && q.lines != []
    requires forall i :: 0 <= i < |blocks| ==> 3 <= blocks[i].size && blocks[i].first + blocks[i].size <= |t.lines|
    ensures InBounds(content, BlockSpansOf(x, content, t, q, blocks))
  {
    hide IsTable, LineSpan;
    TableShape(content, t);
    if blocks != [] {
      var first, last := blocks[0].first, blocks[0].first + blocks[0].size - 1;
      BlockSpansInBounds(x, content, t, q, blocks[1..]);
      LineSpanBorders(content, t, q.trailingNL, first, last,
                      x.reindent(q.newStr, [q.lines[0], q.lines[|q.lines| - 1]], [t.lines[first], t.lines[last]], t.lines));
    }
  }

  lemma BlockAnchorInBounds(x: Texts, content: string, q: Query)
    requires q.lines != []
    ensures InBounds(content, FindBlockAnchor(x, content, q))
  {
    hide IsTable, BlockSpansOf, BlockAnchor.Exhaustive, BlockAnchor.Usable, Scored;
    var t := TableOf(content);
    TableShape(content, t);
    if |q.lines| >= 3 {
      BlockAnchor.BlocksDisjoint(QuoteOf(x, q), FileOf(x, q, t.lines), |t.lines|);
      BlockSpansInBounds(x, content, t, q, BlockAnchor.Exhaustive(QuoteOf(x, q), FileOf(x, q, t.lines), |t.lines|));
    }
  }

  /** The windows of a test, overlapping or not, from line `i` on. */
  function Accepted(x: Texts, content: string, t: Table, q: Query, i: nat): seq<Span>
    requires |t.lines| == |t.starts| && q.lines != []
    decreases |t.lines| - i
  {
    if i + |q.lines| > |t.lines| then []
    else
      (if x.accepts(q, t.lines)(i)
       then [LineSpan(content, t, q.trailingNL, i, i + |q.lines| - 1, Reindented(x, q)(t, i))] else []) +
      Accepted(x, content, t, q, i + 1)
  }

  /** findContextAware, by the windows it reports. */
  function FindContextAware(x: Texts, content: string, q: Query): seq<Span>
    requires q.lines != []
  {
    Accepted(x, content, TableOf(content), q, 0)
  }

  lemma {:induction false} AcceptedInBounds(x: Texts, content: string, t: Table, q: Query, i: nat)
    requires IsTable(content, t) && q.lines != []
    ensures InBounds(content, Accepted(x, content, t, q, i))
    decreases |t.lines| - i
  {
    hide IsTable, LineSpan;
    TableShape(content, t);
    if i + |q.lines| <= |t.lines| {
      AcceptedInBounds(x, content, t, q, i + 1);
      LineSpanBorders(content, t, q.trailingNL, i, i + |q.lines| - 1, Reindented(x, q)(t, i));
    }
  }

  // ---------------------------------------------------------------------
  // The chain

  function EditStrategies(x: Texts): seq<Tier> {
    [
      Tier(1, false, (c: string, o: string, n: string) => FindExact(c, NewEditQuery(o, n))),
      Tier(2, false, (c: string, o: string, n: string) => FindLineExact(c, NewEditQuery(o, n))),
      Tier(3, false, (c: string, o: string, n: string) => FindIndentFlexible(x, c, NewEditQuery(o, n))),
      Tier(4, false, (c: string, o: string, n: string) => FindLineTrimmed(x, c, NewEditQuery(o, n))),
      Tier(5, false, (c: string, o: string, n: string) => FindWhitespace(x, c, NewEditQuery(o, n))),
      Tier(6, false, (c: string, o: string, n: string) => FindUnicodeNormalized(x, c, NewEditQuery(o, n))),
      Tier(7, false, (c: string, o: string, n: string) => FindEscapeNormalized(x, c, NewEditQuery(o, n))),
      Tier(8, true, (c: string, o: string, n: string) => FindTrimmedBoundary(x, c, NewEditQuery(o, n))),
      Tier(9, true, (c: string, o: string, n: string) => FindBlockAnchor(x, c, NewEditQuery(o, n))),
      Tier(10, true, (c: string, o: string, n: string) => FindContextAware(x, c, NewEditQuery(o, n)))
    ]
  }

  lemma {:induction false} OrderedInBounds(content: string, spans: seq<Span>)
    requires InOrder(content, spans, 0)
    ensures InBounds(content, spans)
  {
    forall i | 0 <= i < |spans| ensures spans[i].start <= spans[i].end <= |content| { InOrderMeans(content, spans, 0, i, i); }
  }

  lemma StrictTierFinds(x: Texts, i: nat, content: string, o: string, n: string)
    requires i < 4
    ensures InOrder(content, EditStrategies(x)[i].find(content, o, n), 0)
  {
    hide InOrder, FindExact, FindLineExact, FindIndentFlexible, FindNormalized;
    var q := NewEditQuery(o, n);
    hide NewEditQuery;
    ExactOrdered(content, q);
    LineExactOrdered(content, q);
    IndentFlexibleOrdered(x, content, q);
    NormalizedOrdered(x, content, q, TrimSpace);
  }

  lemma LooseTierFinds(x: Texts, i: nat, content: string, o: string, n: string)
    requires 4 <= i < 7
    ensures InOrder(content, EditStrategies(x)[i].find(content, o, n), 0)
  {
    hide InOrder, FindWhitespace, FindUnicodeNormalized, FindEscapeNormalized;
    var q := NewEditQuery(o, n);
    hide NewEditQuery;
    WhitespaceOrdered(x, content, q);
    UnicodeOrdered(x, content, q);
    EscapeOrdered(x, content, q);
  }

  lemma UniqueTierFinds(x: Texts, i: nat, content: string, o: string, n: string)
    requires 7 <= i < 10
    ensures InBounds(content, EditStrategies(x)[i].find(content, o, n))
  {
    hide InOrder, InBounds, FindTrimmedBoundary, FindBlockAnchor, Accepted, IsTable;
    var q := NewEditQuery(o, n);
    hide NewEditQuery;
    TrimmedBoundaryOrdered(x, content, q);
    OrderedInBounds(content, FindTrimmedBoundary(x, content, q));
    BlockAnchorInBounds(x, content, q);
    AcceptedInBounds(x, content, TableOf(content), q, 0);
  }

  /** Every tier of the chain keeps what ApplyEdit asks of it, for every file and every
      pair of strings. */
  lemma StrategiesAreHonest(x: Texts)
    ensures Honest(EditStrategies(x)) && Ranked(EditStrategies(x))
  {
    var tiers := EditStrategies(x);
    forall i, text, o, n | 0 <= i < |tiers| ensures Finds(tiers[i], text, o, n) {
      if i < 4 {
        StrictTierFinds(x, i, text, o, n);
      } else if i < 7 {
        LooseTierFinds(x, i, text, o, n);
      } else {
        UniqueTierFinds(x, i, text, o, n);
      }
    }
  }

  /** What applyEdit makes of a file with its own chain. */
  function EditWithStrategies(x: Texts, content: string, oldStr: string, newStr: string, replaceAll: bool, trust: bool,
                              strip: (string, string) -> Option<Stripped>, lineNo: nat -> int): EditResult {
    StrategiesAreHonest(x);
    EditOf(EditStrategies(x), content, oldStr, newStr, replaceAll, trust, strip, lineNo)
  }

  lemma FoundForIsOne(x: Texts, k: nat, content: string, oldStr: string, newStr: string, replaceAll: bool,
                      strip: (string, string) -> Option<Stripped>, spans: seq<Span>)
    requires FoundFor(EditStrategies(x), k, content, oldStr, newStr, replaceAll, strip, spans)
    ensures k < 10 && (!replaceAll || k >= 7 ==> |spans| == 1)
  {
    var tiers := EditStrategies(x);
    assert |tiers| == 10 && forall i :: 7 <= i < 10 ==> tiers[i].unique;
    hide EditStrategies, LineEndings.Prepare, LineEndings.Normalized;
  }

  /** applyEdit with its own chain: for any file, any strings and any options, a success
      changes only spans that one of the ten tiers found, and nothing else in the file; it
      is not found only if none of the ten finds the strings as given. */
  method ApplyWithStrategies(x: Texts, content: string, oldStr: string, newStr: string, replaceAll: bool, trust: bool,
                             strip: (string, string) -> Option<Stripped>, lineNo: nat -> int)
      returns (r: EditResult, ghost k: nat, ghost spans: seq<Span>)
    ensures r == EditWithStrategies(x, content, oldStr, newStr, replaceAll, trust, strip, lineNo)
    ensures Decided(EditStrategies(x), content, oldStr, newStr, replaceAll, trust, strip, lineNo, r)
    ensures r.EmptyOld? <==> oldStr == ""
    ensures r.Success? ==> k < 10 && ChangesOnly(content, spans, r.content) && r.count == |spans|
    ensures r.Success? ==> FoundFor(EditStrategies(x), k, content, oldStr, newStr, replaceAll, strip, spans)
    ensures r.Success? && (!replaceAll || k >= 7) ==> |spans| == 1
    ensures r.NotFound? ==> FoundByNone(EditStrategies(x), content, oldStr, newStr)
  {
    StrategiesAreHonest(x);
    hide EditStrategies, Honest, Ranked, ChangesOnly, FoundFor, FoundByNone, Decided, EditOf;
    r, k, spans := ApplyEdit(content, oldStr, newStr, replaceAll, trust, EditStrategies(x), strip, lineNo);
    if r.Success? { FoundForIsOne(x, k, content, oldStr, newStr, replaceAll, strip, spans); }
  }

  lemma NormalizedNotEmpty(p: LineEndings.Prepared, s: string)
    requires s != ""
    ensures LineEndings.Normalized(p, s) != ""
  {
    assert ReplaceAll(s, "\r\n", "\n") != "";
  }

  /** Where old_string occurs, the exact tier finds it, and nothing is before that tier. */
  lemma ExactIsFirst(x: Texts, text: string, o: string, n: string)
    requires o != "" && Contains(text, o)
    ensures var tiers := EditStrategies(x);
            && FindsFirst(tiers, 0, tiers[|tiers| - 1].number, text, o, n) && !tiers[0].unique
            && tiers[0].find(text, o, n) == LiteralFrom(text, o, n, 0) && LiteralFrom(text, o, n, 0) != []
  {
    hide LiteralFrom, NewEditQuery;
    LiteralFromOccurs(text, o, n, 0, 0);
    var i :| 0 <= i <= |text| && OccursAt(text, o, i);
    var spans := LiteralFrom(text, o, n, 0);
    var j := OccurrencesComplete(text, o, n, spans, 0, i);
    QueryKeeps(o, n);
  }

  lemma QueryKeeps(o: string, n: string)
    ensures NewEditQuery(o, n).oldStr == o && NewEditQuery(o, n).newStr == n
  {
  }

  /** A non-empty old_string that occurs in the text is replaced everywhere when every
      occurrence is meant; when one is meant, it is replaced if it occurs once, and the edit
      is ambiguous if it occurs more often. */
  lemma ExactEdit(x: Texts, content: string, oldStr: string, newStr: string, replaceAll: bool, trust: bool,
                  strip: (string, string) -> Option<Stripped>, lineNo: nat -> int)
    requires oldStr != ""
    requires Contains(LineEndings.Prepare(content).text, LineEndings.Normalized(LineEndings.Prepare(content), oldStr))
    ensures var p := LineEndings.Prepare(content);
            var o, n := LineEndings.Normalized(p, oldStr), LineEndings.Normalized(p, newStr);
            var r := EditWithStrategies(x, content, oldStr, newStr, replaceAll, trust, strip, lineNo);
            o != "" && var times := |LiteralFrom(p.text, o, n, 0)|;
            if replaceAll || times == 1
            then r == Success(LineEndings.Restore(p, ReplaceAll(p.text, o, n)), times)
            else times > 1 && r.Ambiguous?
  {
    var p := LineEndings.Prepare(content);
    var o, n := LineEndings.Normalized(p, oldStr), LineEndings.Normalized(p, newStr);
    NormalizedNotEmpty(p, oldStr);
    StrategiesAreHonest(x);
    hide *;
    ExactIsFirst(x, p.text, o, n);
    var tiers, spans := EditStrategies(x), LiteralFrom(p.text, o, n, 0);
    var r := EditWithStrategies(x, content, oldStr, newStr, replaceAll, trust, strip, lineNo);
    WithStrategiesIs(x, content, oldStr, newStr, replaceAll, trust, strip, lineNo);
    EditIsDecided(tiers, content, oldStr, newStr, replaceAll, trust, strip, lineNo);
    FirstDecides(tiers, 0, content, oldStr, newStr, replaceAll, trust, strip, lineNo, r);
    VerdictIs(content, spans, replaceAll, lineNo, r);
    NothingSkipped(p.text, o);
    LiteralFromOccurs(p.text, o, n, 0, 0);
    LiteralIsReplaceAll(p.text, o, n, spans, 0);
    assert p.text[0..] == p.text;
  }

  lemma WithStrategiesIs(x: Texts, content: string, oldStr: string, newStr: string, replaceAll: bool, trust: bool,
                         strip: (string, string) -> Option<Stripped>, lineNo: nat -> int)
    ensures Honest(EditStrategies(x)) && Ranked(EditStrategies(x))
    ensures EditWithStrategies(x, content, oldStr, newStr, replaceAll, trust, strip, lineNo) ==
            EditOf(EditStrategies(x), content, oldStr, newStr, replaceAll, trust, strip, lineNo)
  {
    StrategiesAreHonest(x);
    hide EditStrategies, EditOf, Honest, Ranked;
  }

  lemma NothingSkipped(text: string, o: string)
    ensures NoneIn(text, o, 0, 0)
  {
  }
}
