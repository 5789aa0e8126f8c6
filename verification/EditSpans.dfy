/** Spans of a text and their replacement (internal/agent/fuzzy_edit.go, apply and
    literalSpans): everything outside the spans survives, in place. */
module EditSpans {
  import opened Strings

  /** A range of the content and the text that goes there. */
  datatype Span = Span(start: nat, end: nat, repl: string)

  /** In bounds, ascending, disjoint, from `prev` on. */
  predicate InOrder(content: string, spans: seq<Span>, prev: nat) {
    && prev <= |content|
    && (spans != [] ==> prev <= spans[0].start <= spans[0].end <= |content| && InOrder(content, spans[1..], spans[0].end))
  }

  /** What that says of any two spans. */
  lemma {:induction false} InOrderMeans(content: string, spans: seq<Span>, prev: nat, i: nat, j: nat)
    requires InOrder(content, spans, prev) && i <= j < |spans|
    ensures prev <= spans[i].start <= spans[i].end <= |content|
    ensures i < j ==> spans[i].end <= spans[j].start
  {
    if i > 0 {
      InOrderMeans(content, spans[1..], spans[0].end, i - 1, j - 1);
    } else if j > 0 {
      InOrderMeans(content, spans[1..], spans[0].end, 0, j - 1);
      InOrderMeans(content, spans[1..], spans[0].end, j - 1, j - 1);
    }
  }

  /** The content from `prev` on, with the spans replaced. */
  function Splice(content: string, spans: seq<Span>, prev: nat): string
    requires InOrder(content, spans, prev)
  {
    if spans == [] then content[prev..]
    else content[prev..spans[0].start] + spans[0].repl + Splice(content, spans[1..], spans[0].end)
  }

  /** The spans that a tier keeps of what it found, each with its own text. */
  function Selected(spans: seq<Span>, keep: Span -> bool, text: Span -> string): seq<Span> {
    if spans == [] then []
    else (if keep(spans[0]) then [spans[0].(repl := text(spans[0]))] else []) + Selected(spans[1..], keep, text)
  }

  /** Leaving spans out and changing their texts keeps the rest in order. */
  lemma {:induction false} SelectedInOrder(content: string, spans: seq<Span>, keep: Span -> bool,
        text: Span -> string, prev: nat)
    requires InOrder(content, spans, prev)
    ensures InOrder(content, Selected(spans, keep, text), prev)
  {
    if spans != [] {
      var s, rest := spans[0], Selected(spans[1..], keep, text);
      SelectedInOrder(content, spans[1..], keep, text, s.end);
      if keep(s) {
        assert ([s.(repl := text(s))] + rest)[1..] == rest;
      } else {
        assert [] + rest == rest;
        InOrderEarlier(content, rest, s.end, prev);
      }
    }
  }

  lemma InOrderEarlier(content: string, spans: seq<Span>, prev: nat, earlier: nat)
    requires InOrder(content, spans, prev) && earlier <= prev
    ensures InOrder(content, spans, earlier)
  {
  }

  // ---------------------------------------------------------------------
  // What survives

  /** The pieces of text between the spans. */
  function Gaps(content: string, spans: seq<Span>, prev: nat): (r: seq<string>)
    requires InOrder(content, spans, prev)
    ensures |r| == |spans| + 1
  {
    if spans == [] then [content[prev..]]
    else [content[prev..spans[0].start]] + Gaps(content, spans[1..], spans[0].end)
  }

  function Olds(content: string, spans: seq<Span>, prev: nat): (r: seq<string>)
    requires InOrder(content, spans, prev)
    ensures |r| == |spans|
  {
    if spans == [] then [] else [content[spans[0].start..spans[0].end]] + Olds(content, spans[1..], spans[0].end)
  }

  function Repls(spans: seq<Span>): (r: seq<string>)
    ensures |r| == |spans|
  {
    if spans == [] then [] else [spans[0].repl] + Repls(spans[1..])
  }

  /** Gaps and fillings in turn. */
  function Weave(gaps: seq<string>, fills: seq<string>): string
    requires |gaps| == |fills| + 1
  {
    if fills == [] then gaps[0] else gaps[0] + fills[0] + Weave(gaps[1..], fills[1..])
  }

  lemma WeaveCons(gap: string, fill: string, gaps: seq<string>, fills: seq<string>)
    requires |gaps| == |fills| + 1
    ensures Weave([gap] + gaps, [fill] + fills) == gap + fill + Weave(gaps, fills)
  {
    assert ([gap] + gaps)[1..] == gaps && ([fill] + fills)[1..] == fills;
  }

  lemma CutThrice(s: string, a: nat, b: nat, c: nat)
    requires a <= b <= c <= |s|
    ensures s[a..] == s[a..b] + s[b..c] + s[c..]
  {
  }

  /** Before and after an edit the text is the same gaps, in the same order, around the
      old texts and around the new ones. */
  lemma {:induction false} EditKeepsGaps(content: string, spans: seq<Span>, prev: nat)
    requires InOrder(content, spans, prev)
    ensures content[prev..] == Weave(Gaps(content, spans, prev), Olds(content, spans, prev))
    ensures Splice(content, spans, prev) == Weave(Gaps(content, spans, prev), Repls(spans))
  {
    hide Weave;
    if spans == [] {
      WeaveNothing(content[prev..]);
    } else {
      var s, rest := spans[0], spans[1..];
      EditKeepsGaps(content, rest, s.end);
      var gaps := Gaps(content, rest, s.end);
      WeaveCons(content[prev..s.start], content[s.start..s.end], gaps, Olds(content, rest, s.end));
      WeaveCons(content[prev..s.start], s.repl, gaps, Repls(rest));
      CutThrice(content, prev, s.start, s.end);
    }
  }

  lemma WeaveNothing(gap: string)
    ensures Weave([gap], []) == gap
  {
  }

  /** The spans that take an edit back, in the edited text; `at` is where `prev` is there. */
  function Undo(content: string, spans: seq<Span>, prev: nat, at: nat): seq<Span>
    requires InOrder(content, spans, prev)
  {
    if spans == [] then []
    else
      var s := spans[0];
      var start := at + s.start - prev;
      [Span(start, start + |s.repl|, content[s.start..s.end])] + Undo(content, spans[1..], s.end, start + |s.repl|)
  }

  lemma CutParts(s: string, at: nat, a: string, b: string, c: string)
    requires at <= |s| && s[at..] == a + b + c
    ensures at + |a| + |b| <= |s| && s[at..at + |a|] == a && s[at + |a| + |b|..] == c
  {
    assert |s[at..]| == |a| + |b| + |c|;
    assert s[at..at + |a|] == s[at..][..|a|];
    assert s[at + |a| + |b|..] == s[at..][|a| + |b|..];
  }

  lemma SpliceCons(content: string, s: Span, rest: seq<Span>, prev: nat)
    requires prev <= s.start <= s.end <= |content| && InOrder(content, rest, s.end)
    ensures InOrder(content, [s] + rest, prev)
    ensures Splice(content, [s] + rest, prev) == content[prev..s.start] + s.repl + Splice(content, rest, s.end)
  {
    assert ([s] + rest)[1..] == rest;
  }

  lemma UndoOne(content: string, s: Span, prev: nat, edited: string, at: nat, start: nat, u: seq<Span>)
    requires prev <= s.start <= s.end <= |content| && start == at + s.start - prev && start + |s.repl| <= |edited|
    requires edited[at..start] == content[prev..s.start]
    requires InOrder(edited, u, start + |s.repl|) && Splice(edited, u, start + |s.repl|) == content[s.end..]
    ensures var back := Span(start, start + |s.repl|, content[s.start..s.end]);
            InOrder(edited, [back] + u, at) && Splice(edited, [back] + u, at) == content[prev..]
  {
    hide Splice, InOrder;
    SpliceCons(edited, Span(start, start + |s.repl|, content[s.start..s.end]), u, at);
    CutThrice(content, prev, s.start, s.end);
  }

  lemma EditHead(content: string, spans: seq<Span>, prev: nat, at: nat)
    requires InOrder(content, spans, prev) && spans != []
    ensures var s := spans[0];
            && prev <= s.start <= s.end <= |content| && InOrder(content, spans[1..], s.end)
            && Splice(content, spans, prev) == content[prev..s.start] + s.repl + Splice(content, spans[1..], s.end)
            && Undo(content, spans, prev, at) ==
               [Span(at + s.start - prev, at + s.start - prev + |s.repl|, content[s.start..s.end])] +
               Undo(content, spans[1..], s.end, at + s.start - prev + |s.repl|)
  {
  }

  lemma UndoNothing(content: string, prev: nat, edited: string, at: nat)
    requires prev <= |content| && at <= |edited| && edited[at..] == content[prev..]
    ensures Undo(content, [], prev, at) == [] && InOrder(edited, [], at) && Splice(edited, [], at) == content[prev..]
  {
  }

  /** Replacing the replacements with what was there gives the content back. */
  lemma {:induction false} UndoRestores(content: string, spans: seq<Span>, prev: nat, edited: string, at: nat)
    requires InOrder(content, spans, prev)
    requires at <= |edited| && edited[at..] == Splice(content, spans, prev)
    ensures InOrder(edited, Undo(content, spans, prev, at), at)
    ensures Splice(edited, Undo(content, spans, prev, at), at) == content[prev..]
  {
    hide Splice, Undo, InOrder;
    if spans == [] {
      SpliceEnd(content, spans, prev);
      UndoNothing(content, prev, edited, at);
    } else {
      EditHead(content, spans, prev, at);
      var s, rest := spans[0], spans[1..];
      var start: nat := at + s.start - prev;
      CutParts(edited, at, content[prev..s.start], s.repl, Splice(content, rest, s.end));
      UndoRestores(content, rest, s.end, edited, start + |s.repl|);
      UndoOne(content, s, prev, edited, at, start, Undo(content, rest, s.end, start + |s.repl|));
    }
  }

  // ---------------------------------------------------------------------
  // Writing the spans

  datatype Outcome = Edited(content: string, count: nat) | Ambiguous

  function FirstOnLine(spans: seq<Span>, hint: nat, lineNo: nat -> int, all: seq<Span>): seq<Span> {
    if spans == [] then all
    else if lineNo(spans[0].start) == hint then [spans[0]]
    else FirstOnLine(spans[1..], hint, lineNo, all)
  }

  /** The spans an edit writes: with several, the one on the hinted line, if any. */
  function Chosen(spans: seq<Span>, replaceAll: bool, hint: nat, lineNo: nat -> int): seq<Span> {
    if |spans| > 1 && !replaceAll && hint > 0 then FirstOnLine(spans, hint, lineNo, spans) else spans
  }

  lemma {:induction false} ChosenInOrder(content: string, spans: seq<Span>, prev: nat, hint: nat, lineNo: nat -> int,
        all: seq<Span>)
    requires InOrder(content, spans, prev) && InOrder(content, all, 0)
    ensures InOrder(content, FirstOnLine(spans, hint, lineNo, all), 0)
  {
    if spans != [] {
      if lineNo(spans[0].start) == hint {
        assert [spans[0]][1..] == [];
      } else {
        ChosenInOrder(content, spans[1..], spans[0].end, hint, lineNo, all);
      }
    }
  }

  method Choose(spans: seq<Span>, replaceAll: bool, hint: nat, lineNo: nat -> int) returns (chosen: seq<Span>)
    ensures chosen == Chosen(spans, replaceAll, hint, lineNo)
  {
    if |spans| > 1 && !replaceAll && hint > 0 {
      for i := 0 to |spans|
        invariant Chosen(spans, replaceAll, hint, lineNo) == FirstOnLine(spans[i..], hint, lineNo, spans)
      {
        if lineNo(spans[i].start) == hint { return [spans[i]]; }
      }
    }
    return spans;
  }

  /** What is written is in order, unless nothing is. */
  predicate Writable(content: string, spans: seq<Span>, replaceAll: bool, hint: nat, lineNo: nat -> int) {
    var chosen := Chosen(spans, replaceAll, hint, lineNo);
    (|chosen| > 1 && !replaceAll) || InOrder(content, chosen, 0)
  }

  /** The edited content, unless several spans are left and only one is meant. */
  function Applied(content: string, spans: seq<Span>, replaceAll: bool, hint: nat, lineNo: nat -> int): Outcome
    requires Writable(content, spans, replaceAll, hint, lineNo)
  {
    var chosen := Chosen(spans, replaceAll, hint, lineNo);
    if |chosen| > 1 && !replaceAll then Ambiguous else Edited(Splice(content, chosen, 0), |chosen|)
  }

  /** The `i`-th span is the first one on the hinted line. */
  predicate FirstOn(spans: seq<Span>, i: nat, hint: nat, lineNo: nat -> int) {
    i < |spans| && lineNo(spans[i].start) == hint && forall j :: 0 <= j < i ==> lineNo(spans[j].start) != hint
  }

  predicate NoneOn(spans: seq<Span>, hint: nat, lineNo: nat -> int) {
    forall j :: 0 <= j < |spans| ==> lineNo(spans[j].start) != hint
  }

  lemma {:induction false} FirstOnLineIs(spans: seq<Span>, hint: nat, lineNo: nat -> int, all: seq<Span>)
    ensures NoneOn(spans, hint, lineNo) ==> FirstOnLine(spans, hint, lineNo, all) == all
    ensures forall i: nat :: FirstOn(spans, i, hint, lineNo) ==> FirstOnLine(spans, hint, lineNo, all) == [spans[i]]
    ensures NoneOn(spans, hint, lineNo) || exists i: nat :: FirstOn(spans, i, hint, lineNo)
  {
    if spans != [] {
      var rest := spans[1..];
      FirstOnLineIs(rest, hint, lineNo, all);
      assert forall j :: 1 <= j < |spans| ==> spans[j] == rest[j - 1];
      if lineNo(spans[0].start) == hint {
        assert FirstOn(spans, 0, hint, lineNo);
      } else {
        forall i: nat | FirstOn(spans, i, hint, lineNo) ensures i > 0 && FirstOn(rest, i - 1, hint, lineNo) {}
        if !NoneOn(rest, hint, lineNo) {
          var i: nat :| FirstOn(rest, i, hint, lineNo);
          assert FirstOn(spans, i + 1, hint, lineNo);
        }
      }
    }
  }

  /** The chosen spans, without the choice: they are all, or the first on the hinted line. */
  lemma AppliedIs(text: string, found: seq<Span>, all: bool, hint: nat, lineNo: nat -> int)
    requires Writable(text, found, all, hint, lineNo)
    ensures var r := Applied(text, found, all, hint, lineNo);
            if |found| <= 1 || all then InOrder(text, found, 0) && r == Edited(Splice(text, found, 0), |found|)
            else if hint == 0 || NoneOn(found, hint, lineNo) then r.Ambiguous?
            else forall i: nat :: FirstOn(found, i, hint, lineNo) ==>
                   InOrder(text, [found[i]], 0) && r == Edited(Splice(text, [found[i]], 0), 1)
  {
    hide InOrder, Splice;
    FirstOnLineIs(found, hint, lineNo, found);
  }

  /** What one round of the writing loop does, and what is written last. */
  lemma SpliceStep(content: string, spans: seq<Span>, i: nat, prev: nat, b: string)
    requires i < |spans| && InOrder(content, spans[i..], prev)
    ensures var s := spans[i];
            && prev <= s.start <= s.end <= |content| && InOrder(content, spans[i + 1..], s.end)
            && b + Splice(content, spans[i..], prev) ==
               b + content[prev..s.start] + s.repl + Splice(content, spans[i + 1..], s.end)
  {
    assert spans[i..][1..] == spans[i + 1..];
  }

  lemma SpliceEnd(content: string, spans: seq<Span>, prev: nat)
    requires InOrder(content, spans, prev) && spans == []
    ensures prev <= |content| && Splice(content, spans, prev) == content[prev..]
  {
  }

  /** Writes the spans into the content, or refuses to pick one of several. */
  method Apply(content: string, spans: seq<Span>, replaceAll: bool, hint: nat, lineNo: nat -> int) returns (r: Outcome)
    requires Writable(content, spans, replaceAll, hint, lineNo)
    ensures r == Applied(content, spans, replaceAll, hint, lineNo)
    ensures if |spans| <= 1 || replaceAll then r == Edited(Splice(content, spans, 0), |spans|)
            else if hint == 0 || NoneOn(spans, hint, lineNo) then r.Ambiguous?
            else forall i: nat :: FirstOn(spans, i, hint, lineNo) ==>
                   InOrder(content, [spans[i]], 0) && r == Edited(Splice(content, [spans[i]], 0), 1)
  {
    AppliedIs(content, spans, replaceAll, hint, lineNo);
    hide NoneOn, FirstOn;
    var chosen := Choose(spans, replaceAll, hint, lineNo);
    if |chosen| > 1 && !replaceAll { return Ambiguous; }
    var b := "";
    var prev: nat := 0;
    assert chosen[0..] == chosen;
    hide InOrder, Splice;
    for i := 0 to |chosen|
      invariant InOrder(content, chosen[i..], prev)
      invariant b + Splice(content, chosen[i..], prev) == Splice(content, chosen, 0)
    {
      var s := chosen[i];
      SpliceStep(content, chosen, i, prev, b);
      b := b + content[prev..s.start];
      b := b + s.repl;
      prev := s.end;
    }
    SpliceEnd(content, chosen[|chosen|..], prev);
    b := b + content[prev..];
    return Edited(b, |chosen|);
  }

  // ---------------------------------------------------------------------
  // Literal spans

  ghost predicate NoneIn(content: string, needle: string, from: nat, to: nat) {
    forall p: nat :: from <= p < to ==> !OccursAt(content, needle, p)
  }

  /** The occurrences between `from` and `to`, each the first behind the one before. */
  ghost predicate Occurrences(content: string, needle: string, repl: string, spans: seq<Span>, from: nat, to: nat) {
    from <= to <= |content| &&
    if spans == [] then NoneIn(content, needle, from, to)
    else
      var s := spans[0];
      && from <= s.start && s == Span(s.start, s.start + |needle|, repl)
      && OccursAt(content, needle, s.start) && NoneIn(content, needle, from, s.start)
      && Occurrences(content, needle, repl, spans[1..], s.end, to)
  }

  lemma {:induction false} OccurrencesInOrder(content: string, needle: string, repl: string, spans: seq<Span>,
        from: nat, to: nat)
    requires Occurrences(content, needle, repl, spans, from, to)
    ensures InOrder(content, spans, from)
  {
    if spans != [] { OccurrencesInOrder(content, needle, repl, spans[1..], spans[0].end, to); }
  }

  /** Every occurrence in the content begins inside one of the spans. */
  lemma {:induction false} OccurrencesComplete(content: string, needle: string, repl: string, spans: seq<Span>,
        from: nat, p: nat)
      returns (i: nat)
    requires Occurrences(content, needle, repl, spans, from, |content|) && needle != ""
    requires from <= p && OccursAt(content, needle, p)
    ensures i < |spans| && spans[i].start <= p < spans[i].end
  {
    if p < spans[0].end {
      i := 0;
    } else {
      i := OccurrencesComplete(content, needle, repl, spans[1..], spans[0].end, p);
      i := i + 1;
    }
  }

  /** The occurrences are determined: two lists of them are equal. */
  lemma {:induction false} OccurrencesUnique(content: string, needle: string, repl: string, a: seq<Span>,
        b: seq<Span>, from: nat)
    requires needle != "" && Occurrences(content, needle, repl, a, from, |content|)
    requires Occurrences(content, needle, repl, b, from, |content|)
    ensures a == b
  {
    if a != [] && b != [] {
      OccurrencesUnique(content, needle, repl, a[1..], b[1..], a[0].end);
      assert a == [a[0]] + a[1..] && b == [b[0]] + b[1..];
    }
  }

  lemma {:induction false} AddOccurrence(content: string, needle: string, repl: string, spans: seq<Span>, from: nat,
        off: nat, s: Span)
    requires Occurrences(content, needle, repl, spans, from, off) && OccursAt(content, needle, s.start)
    requires s == Span(s.start, s.start + |needle|, repl) && off <= s.start && NoneIn(content, needle, off, s.start)
    ensures Occurrences(content, needle, repl, spans + [s], from, s.end)
  {
    if spans == [] {
      assert ([] + [s])[1..] == [];
    } else {
      assert (spans + [s])[1..] == spans[1..] + [s];
      AddOccurrence(content, needle, repl, spans[1..], spans[0].end, off, s);
    }
  }

  lemma {:induction false} NoMoreOccurrences(content: string, needle: string, repl: string, spans: seq<Span>,
        from: nat, off: nat)
    requires Occurrences(content, needle, repl, spans, from, off) && NoneIn(content, needle, off, |content|)
    ensures Occurrences(content, needle, repl, spans, from, |content|)
  {
    if spans != [] { NoMoreOccurrences(content, needle, repl, spans[1..], spans[0].end, off); }
  }

  /** strings.Index from `off`: the first occurrence there, or the length. */
  method Index(content: string, needle: string, off: nat) returns (i: nat)
    requires off <= |content| && needle != ""
    ensures off <= i <= |content| && NoneIn(content, needle, off, i)
    ensures i < |content| ==> OccursAt(content, needle, i)
  {
    i := off;
    while i < |content|
      invariant off <= i <= |content| && NoneIn(content, needle, off, i)
    {
      if i + |needle| <= |content| && content[i..i + |needle|] == needle { return; }
      i := i + 1;
    }
  }

  /** Left to right, each search from the end of the last occurrence. */
  method LiteralSpans(content: string, needle: string, repl: string) returns (spans: seq<Span>)
    ensures needle == "" ==> spans == []
    ensures needle != "" ==> Occurrences(content, needle, repl, spans, 0, |content|)
  {
    hide NoneIn, OccursAt;
    spans := [];
    if needle == "" { return; }
    NothingYet(content, needle, repl);
    var off := 0;
    while true
      invariant off <= |content| && Occurrences(content, needle, repl, spans, 0, off)
      decreases |content| - off
    {
      var i := Index(content, needle, off);
      if i == |content| {
        NoMoreOccurrences(content, needle, repl, spans, 0, off);
        return;
      }
      OccursBound(content, needle, i);
      var s := Span(i, i + |needle|, repl);
      AddOccurrence(content, needle, repl, spans, 0, off, s);
      spans := spans + [s];
      off := i + |needle|;
    }
  }

  /** The same as a function: the occurrences from `off` on. */
  function LiteralFrom(content: string, needle: string, repl: string, off: nat): seq<Span>
    requires needle != ""
    decreases |content| - off
  {
    if off >= |content| then []
    else if OccursAt(content, needle, off) then
      [Span(off, off + |needle|, repl)] + LiteralFrom(content, needle, repl, off + |needle|)
    else LiteralFrom(content, needle, repl, off + 1)
  }

  /** They are the occurrences, so the only ones (OccurrencesUnique). */
  lemma {:induction false} LiteralFromOccurs(content: string, needle: string, repl: string, from: nat, off: nat)
    requires needle != "" && from <= off <= |content| && NoneIn(content, needle, from, off)
    ensures Occurrences(content, needle, repl, LiteralFrom(content, needle, repl, off), from, |content|)
    decreases |content| - off
  {
    if off < |content| {
      if OccursAt(content, needle, off) {
        var rest := LiteralFrom(content, needle, repl, off + |needle|);
        LiteralFromOccurs(content, needle, repl, off + |needle|, off + |needle|);
        assert ([Span(off, off + |needle|, repl)] + rest)[1..] == rest;
      } else {
        LiteralFromOccurs(content, needle, repl, from, off + 1);
      }
    }
  }

  lemma NothingYet(content: string, needle: string, repl: string)
    ensures Occurrences(content, needle, repl, [], 0, 0)
  {
  }

  lemma OccursBound(content: string, needle: string, i: nat)
    requires OccursAt(content, needle, i)
    ensures i + |needle| <= |content|
  {
  }

  // ---------------------------------------------------------------------
  // strings.ReplaceAll

  function ReplaceAll(s: string, needle: string, repl: string): string
    requires needle != ""
  {
    if s == "" then ""
    else if needle <= s then repl + ReplaceAll(s[|needle|..], needle, repl)
    else [s[0]] + ReplaceAll(s[1..], needle, repl)
  }

  lemma OccursIsPrefix(content: string, needle: string, p: nat)
    requires p <= |content|
    ensures needle <= content[p..] <==> OccursAt(content, needle, p)
  {
    assert p + |needle| <= |content| ==> content[p..][..|needle|] == content[p..p + |needle|];
  }

  lemma ReplaceAllHere(content: string, needle: string, repl: string, p: nat)
    requires needle != "" && OccursAt(content, needle, p)
    ensures ReplaceAll(content[p..], needle, repl) == repl + ReplaceAll(content[p + |needle|..], needle, repl)
  {
    OccursIsPrefix(content, needle, p);
    assert content[p..][|needle|..] == content[p + |needle|..];
  }

  lemma CopyOne(content: string, needle: string, repl: string, p: nat)
    requires needle != "" && p < |content| && !OccursAt(content, needle, p)
    ensures ReplaceAll(content[p..], needle, repl) == [content[p]] + ReplaceAll(content[p + 1..], needle, repl)
  {
    OccursIsPrefix(content, needle, p);
    assert content[p..][1..] == content[p + 1..];
  }

  /** Up to the first occurrence the text is copied. */
  lemma {:induction false} ReplaceAllCopies(content: string, needle: string, repl: string, from: nat, to: nat)
    requires needle != "" && from <= to <= |content| && NoneIn(content, needle, from, to)
    ensures ReplaceAll(content[from..], needle, repl) == content[from..to] + ReplaceAll(content[to..], needle, repl)
    decreases |content| - from
  {
    hide OccursAt, ReplaceAll;
    if from < to {
      ReplaceAllCopies(content, needle, repl, from + 1, to);
      CopyOne(content, needle, repl, from);
      assert content[from..to] == [content[from]] + content[from + 1..to];
    }
  }

  lemma OccurrencesHead(content: string, needle: string, repl: string, spans: seq<Span>, from: nat, to: nat)
    requires Occurrences(content, needle, repl, spans, from, to)
    ensures from <= to <= |content| && (spans == [] ==> NoneIn(content, needle, from, to))
    ensures spans != [] ==>
              var s := spans[0];
              && from <= s.start && s == Span(s.start, s.start + |needle|, repl) && OccursAt(content, needle, s.start)
              && s.end <= |content| && NoneIn(content, needle, from, s.start)
              && Occurrences(content, needle, repl, spans[1..], s.end, to)
  {
  }

  /** Writing the literal spans is strings.ReplaceAll. */
  lemma {:induction false} LiteralIsReplaceAll(content: string, needle: string, repl: string, spans: seq<Span>, from: nat)
    requires needle != "" && Occurrences(content, needle, repl, spans, from, |content|)
    ensures InOrder(content, spans, from)
    ensures Splice(content, spans, from) == ReplaceAll(content[from..], needle, repl)
  {
    hide *;
    OccurrencesInOrder(content, needle, repl, spans, from, |content|);
    OccurrencesHead(content, needle, repl, spans, from, |content|);
    if spans == [] {
      SpliceEnd(content, spans, from);
      ReplaceAllCopies(content, needle, repl, from, |content|);
      ReplaceAllEnds(content, needle, repl, from);
    } else {
      EditHead(content, spans, from, 0);
      var s := spans[0];
      LiteralIsReplaceAll(content, needle, repl, spans[1..], s.end);
      ReplaceAllCopies(content, needle, repl, from, s.start);
      ReplaceAllHere(content, needle, repl, s.start);
      Associate(content[from..s.start], repl, ReplaceAll(content[s.end..], needle, repl));
    }
  }

  lemma Associate(a: string, b: string, c: string)
    ensures a + (b + c) == a + b + c
  {
  }

  lemma ReplaceAllEnds(content: string, needle: string, repl: string, from: nat)
    requires needle != "" && from <= |content|
    ensures content[from..|content|] + ReplaceAll(content[|content|..], needle, repl) == content[from..]
  {
  }
}
