/** The file-edit tool with its own chain (internal/agent/llm_runtime_ext.go, runFileEdit,
    and fuzzy_edit.go, applyEdit): of a file's bytes, a whole call changes only what the
    spans found by its edits cover, inside the range. */
module FileEditBytes {
  import opened Wrappers
  import opened EditSpans
  import opened LineEndings
  import opened EditChain
  import opened EditTiers
  import opened FileEdit
  import Text

  /** How the tool applies one edit: the strings stripped of their prefixes, and whether the
      line numbers in them may be trusted, which is for the first edit only. */
  datatype Tool = Tool(texts: Texts, strip: (string, string) -> Option<Stripped>, trustLines: bool)

  /** The number that the model sees on the line of an offset. */
  function LineNumber(text: string, lineOffset: nat): nat -> int {
    (off: nat) => CountLF(if off <= |text| then text[..off] else text) + 1 + lineOffset
  }

  function LineOffset(args: Args): nat { if args.startLine > 0 then args.startLine - 1 else 0 }

  function ApplyOp(tool: Tool, lineOffset: nat, text: string, op: Op, all: bool, first: bool): EditResult {
    EditWithStrategies(tool.texts, text, op.oldStr, op.newStr, all, first && tool.trustLines, tool.strip,
                       LineNumber(Prepare(text).text, lineOffset))
  }

  function ChainEditor(tool: Tool, lineOffset: nat): Editor {
    (text: string, op: Op, all: bool, first: bool) => ApplyOp(tool, lineOffset, text, op, all, first)
  }

  // ---------------------------------------------------------------------
  // The edits, one after the other

  /** The text of the range between the edits, and what each edit found in it: its tier
      and its spans. */
  datatype Trail = Trail(texts: seq<string>, tiers: seq<nat>, spans: seq<seq<Span>>)

  /** An edit changes only spans that one of the tiers finds for it in the text it is given,
      as many as it expects. */
  ghost predicate ChangesFound(tool: Tool, op: Op, before: string, k: nat, spans: seq<Span>, after: string) {
    && ChangesOnly(before, spans, after)
    && FoundFor(EditStrategies(tool.texts), k, before, op.oldStr, op.newStr, op.replaceAll || op.expected > 1,
                tool.strip, spans)
    && (op.expected > 0 ==> |spans| == op.expected)
  }

  ghost predicate Follows(tool: Tool, ops: seq<Op>, t: Trail) {
    && |t.texts| == |ops| + 1 && |t.tiers| == |t.spans| == |ops|
    && forall i :: 0 <= i < |ops| ==> ChangesFound(tool, ops[i], t.texts[i], t.tiers[i], t.spans[i], t.texts[i + 1])
  }

  lemma ChainEditorIs(tool: Tool, lineOffset: nat, text: string, op: Op, all: bool, first: bool)
    ensures Honest(EditStrategies(tool.texts)) && Ranked(EditStrategies(tool.texts))
    ensures ChainEditor(tool, lineOffset)(text, op, all, first) ==
            EditOf(EditStrategies(tool.texts), text, op.oldStr, op.newStr, all, first && tool.trustLines, tool.strip,
                   LineNumber(Prepare(text).text, lineOffset))
  {
    StrategiesAreHonest(tool.texts);
    hide EditStrategies, EditOf, Prepare, LineNumber, Honest, Ranked;
    assert ChainEditor(tool, lineOffset)(text, op, all, first) == ApplyOp(tool, lineOffset, text, op, all, first);
  }

  lemma OpChangesFound(tool: Tool, p: Progress, op: Op, first: bool, lineOffset: nat) returns (k: nat, spans: seq<Span>)
    requires RunOp(p, op, first, ChainEditor(tool, lineOffset)).Ok?
    ensures var r := RunOp(p, op, first, ChainEditor(tool, lineOffset)).value;
            ChangesFound(tool, op, p.text, k, spans, r.text) && r.total == p.total + |spans|
  {
    hide EditStrategies, EditOf, ChangesOnly, FoundFor, FoundByNone, Prepare, LineNumber, Honest, Ranked;
    var all, trust := op.replaceAll || op.expected > 1, first && tool.trustLines;
    var lineNo := LineNumber(Prepare(p.text).text, lineOffset);
    ChainEditorIs(tool, lineOffset, p.text, op, all, first);
    hide ChainEditor;
    k, spans := EditChangesFoundSpans(EditStrategies(tool.texts), p.text, op.oldStr, op.newStr, all, trust, tool.strip, lineNo);
  }

  function Replaced(spans: seq<seq<Span>>): nat {
    if spans == [] then 0 else Replaced(spans[..|spans| - 1]) + |spans[|spans| - 1]|
  }

  lemma {:induction false} OpsFollow(tool: Tool, scope: string, ops: seq<Op>, n: nat, lineOffset: nat) returns (t: Trail)
    requires n <= |ops| && RunOps(scope, ops, n, ChainEditor(tool, lineOffset)).Ok?
    ensures Follows(tool, ops[..n], t) && t.texts[0] == scope
    ensures RunOps(scope, ops, n, ChainEditor(tool, lineOffset)) == Ok(Progress(t.texts[n], Replaced(t.spans)))
  {
    hide RunOp, ChangesFound, ChainEditor;
    if n == 0 {
      t := Trail([scope], [], []);
    } else {
      t := OpsFollow(tool, scope, ops, n - 1, lineOffset);
      var p := RunOps(scope, ops, n - 1, ChainEditor(tool, lineOffset)).value;
      var k, spans := OpChangesFound(tool, p, ops[n - 1], n == 1, lineOffset);
      t := TrailStep(tool, ops, n, t, k, spans, RunOp(p, ops[n - 1], n == 1, ChainEditor(tool, lineOffset)).value.text);
    }
  }

  lemma TrailStep(tool: Tool, ops: seq<Op>, n: nat, t: Trail, k: nat, spans: seq<Span>, after: string) returns (t': Trail)
    requires 0 < n <= |ops| && Follows(tool, ops[..n - 1], t)
    requires ChangesFound(tool, ops[n - 1], t.texts[n - 1], k, spans, after)
    ensures Follows(tool, ops[..n], t') && t'.texts[0] == t.texts[0] && t'.texts[n] == after
    ensures Replaced(t'.spans) == Replaced(t.spans) + |spans|
  {
    hide ChangesFound;
    t' := Trail(t.texts + [after], t.tiers + [k], t.spans + [spans]);
    assert t'.spans[..n - 1] == t.spans;
    forall i | 0 <= i < n ensures ChangesFound(tool, ops[..n][i], t'.texts[i], t'.tiers[i], t'.spans[i], t'.texts[i + 1]) {
      if i < n - 1 { assert ChangesFound(tool, ops[..n - 1][i], t.texts[i], t.tiers[i], t.spans[i], t.texts[i + 1]); }
    }
  }

  // ---------------------------------------------------------------------
  // The bytes of the file

  function Encoded(crlf: bool, text: string): string { if crlf then ToCRLF(text) else text }

  function EncodedAll(crlf: bool, parts: seq<string>): (r: seq<string>)
    ensures |r| == |parts|
  {
    if crlf then CRLFAll(parts) else parts
  }

  /** A text of the range in the file, between the bytes before and after the range. */
  function InFile(s: Scoped, text: string): string {
    Encoded(s.crlf, s.cut.prefix) + Encoded(s.crlf, text) + Encoded(s.crlf, s.cut.suffix)
  }

  /** Two contents of a file are the same bytes around the range, and in it the same mark
      and the same gaps around the old and the new texts of the spans. */
  ghost predicate SameBytesAround(s: Scoped, text: string, spans: seq<Span>, file: string, file': string) {
    var p := Prepare(text);
    && InOrder(p.text, spans, 0)
    && var gaps := EncodedAll(s.crlf, Bytes(p, Gaps(p.text, spans, 0)));
       var before, after := Encoded(s.crlf, s.cut.prefix) + Encoded(s.crlf, p.bom), Encoded(s.crlf, s.cut.suffix);
       && file == before + Weave(gaps, EncodedAll(s.crlf, Bytes(p, Olds(p.text, spans, 0)))) + after
       && file' == before + Weave(gaps, EncodedAll(s.crlf, Bytes(p, Repls(spans)))) + after
  }

  lemma EncodedWeave(crlf: bool, bom: string, gaps: seq<string>, fills: seq<string>)
    requires |gaps| == |fills| + 1
    ensures Encoded(crlf, bom + Weave(gaps, fills)) ==
            Encoded(crlf, bom) + Weave(EncodedAll(crlf, gaps), EncodedAll(crlf, fills))
  {
    hide ToCRLF, Weave, CRLFAll;
    if crlf {
      CRLFAppend(bom, Weave(gaps, fills));
      WeaveCRLF(gaps, fills);
    }
  }

  /** So it is for every edit that changes only its spans. */
  lemma EditKeepsBytes(s: Scoped, text: string, spans: seq<Span>, after: string)
    requires ChangesOnly(text, spans, after)
    ensures SameBytesAround(s, text, spans, InFile(s, text), InFile(s, after))
  {
    hide Prepare, Bytes, Gaps, Olds, Repls, Weave, Encoded, EncodedAll, InOrder;
    var p := Prepare(text);
    var gaps, olds, repls := Bytes(p, Gaps(p.text, spans, 0)), Bytes(p, Olds(p.text, spans, 0)), Bytes(p, Repls(spans));
    EncodedWeave(s.crlf, p.bom, gaps, olds);
    EncodedWeave(s.crlf, p.bom, gaps, repls);
    Group(Encoded(s.crlf, s.cut.prefix), Encoded(s.crlf, p.bom), Weave(EncodedAll(s.crlf, gaps), EncodedAll(s.crlf, olds)),
          Encoded(s.crlf, s.cut.suffix));
    Group(Encoded(s.crlf, s.cut.prefix), Encoded(s.crlf, p.bom), Weave(EncodedAll(s.crlf, gaps), EncodedAll(s.crlf, repls)),
          Encoded(s.crlf, s.cut.suffix));
  }

  lemma Group(a: string, b: string, c: string, d: string)
    ensures a + (b + c) + d == (a + b) + c + d
  {
  }

  lemma EncodedRebuild(s: Scoped, text: string)
    ensures Encoded(s.crlf, Rebuild(s.cut, text)) == InFile(s, text)
  {
    hide ToCRLF;
    CRLFAppend(s.cut.prefix + text, s.cut.suffix);
    CRLFAppend(s.cut.prefix, text);
  }

  // ---------------------------------------------------------------------
  // The whole call

  /** The cut forgets no line break: there is no range, or neither side of it is a single
      empty line. */
  predicate CutKeepsAll(content: string, args: Args)
    requires Scope(content, args).Ok?
  {
    || (args.startLine == 0 && args.endLine == 0)
    || var lines := Text.Split(WorkText(content));
       var start := if args.startLine == 0 then 1 else args.startLine;
       var end := if args.endLine == 0 || args.endLine > |lines| then |lines| else args.endLine;
       !Forgotten(lines[..start - 1]) && !Forgotten(lines[end..])
  }

  /** The range in the file is the file, if and only if the cut forgets nothing. */
  lemma ScopeIsFile(content: string, args: Args)
    requires Scope(content, args).Ok?
    ensures var s := Scope(content, args).value; InFile(s, s.cut.scope) == content <==> CutKeepsAll(content, args)
  {
    hide CutAt, ToLF, ToCRLF, IsCRLF, Forgotten;
    var s := Scope(content, args).value;
    if args.startLine == 0 && args.endLine == 0 {
      assert "" + content + "" == content;
    } else {
      var work := WorkText(content);
      var lines := Text.Split(work);
      var start := if args.startLine == 0 then 1 else args.startLine;
      var end := if args.endLine == 0 || args.endLine > |lines| then |lines| else args.endLine;
      RebuildIff(work, start, end);
      WorkIsContent(content);
      EncodedRebuild(s, s.cut.scope);
      EncodedOnce(s.crlf, Rebuild(s.cut, s.cut.scope), work);
    }
  }

  lemma {:induction false} CRLFOnce(a: string, b: string)
    requires ToCRLF(a) == ToCRLF(b)
    ensures a == b
  {
    if a != "" { CRLFStep(a); }
    if b != "" { CRLFStep(b); }
    if a != "" && b != "" {
      CRLFHead(a, b);
      CRLFOnce(a[1..], b[1..]);
      assert a == [a[0]] + a[1..] && b == [b[0]] + b[1..];
    }
  }

  lemma CRLFHead(a: string, b: string)
    requires a != "" && b != "" && ToCRLF(a) == ToCRLF(b)
    ensures a[0] == b[0] && ToCRLF(a[1..]) == ToCRLF(b[1..])
  {
    hide ToCRLF;
    CRLFStep(a);
    CRLFStep(b);
    NoBreakFirst(a[1..]);
    NoBreakFirst(b[1..]);
    SameHead(a[0], b[0], ToCRLF(a[1..]), ToCRLF(b[1..]));
  }

  function Broken(c: char): string { if c == '\n' then "\r\n" else [c] }

  lemma SameHead(c: char, d: char, x: string, y: string)
    requires Broken(c) + x == Broken(d) + y && (x != "" ==> x[0] != '\n') && (y != "" ==> y[0] != '\n')
    ensures c == d && x == y
  {
    var l, r := Broken(c) + x, Broken(d) + y;
    assert c == '\n' ==> |l| >= 2 && l[1] == '\n' && l[2..] == x;
    assert d == '\n' ==> |r| >= 2 && r[1] == '\n' && r[2..] == y;
    assert c != '\n' ==> l[0] == c && l[1..] == x;
    assert d != '\n' ==> r[0] == d && r[1..] == y;
    assert c != '\n' && |l| > 1 ==> l[1] == x[0];
    assert d != '\n' && |r| > 1 ==> r[1] == y[0];
  }

  /** Every line feed of a CRLF text has something before it. */
  lemma NoBreakFirst(s: string)
    ensures ToCRLF(s) != "" ==> ToCRLF(s)[0] != '\n'
  {
    if s != "" { CRLFStep(s); }
  }

  lemma EncodedOnce(crlf: bool, a: string, b: string)
    ensures Encoded(crlf, a) == Encoded(crlf, b) <==> a == b
  {
    if Encoded(crlf, a) == Encoded(crlf, b) && crlf { CRLFOnce(a, b); }
  }

  /** The whole call, with its own chain: the range becomes, edit by edit, what the edits'
      own tiers found in it; each of these steps keeps every byte of the file around and
      between its spans; the first text of the range in the file is the file, if and only
      if the cut forgets no line break, and the last is what is written. */
  lemma CallChangesFoundSpans(tool: Tool, content: string, args: Args) returns (s: Scoped, ops: seq<Op>, t: Trail)
    requires FileEdit.Edited(content, args, ChainEditor(tool, LineOffset(args))).Ok?
    ensures Scope(content, args) == Ok(s) && Ops(args) == Ok(ops) && Follows(tool, ops, t)
    ensures InFile(s, t.texts[0]) == content <==> CutKeepsAll(content, args)
    ensures FileEdit.Edited(content, args, ChainEditor(tool, LineOffset(args))).value == InFile(s, t.texts[|ops|])
    ensures forall i :: 0 <= i < |ops| ==>
              SameBytesAround(s, t.texts[i], t.spans[i], InFile(s, t.texts[i]), InFile(s, t.texts[i + 1]))
    ensures args.expected > 0 ==> Replaced(t.spans) == args.expected
  {
    hide ChainEditor, RunOps, ChangesOnly, FoundFor, InFile, CutKeepsAll, SameBytesAround;
    ScopeIsFile(content, args);
    s, ops := Scope(content, args).value, Ops(args).value;
    hide Scope, Ops;
    t := OpsFollow(tool, s.cut.scope, ops, |ops|, LineOffset(args));
    assert ops[..|ops|] == ops;
    EncodedRebuild(s, t.texts[|ops|]);
    forall i | 0 <= i < |ops|
      ensures SameBytesAround(s, t.texts[i], t.spans[i], InFile(s, t.texts[i]), InFile(s, t.texts[i + 1]))
    {
      assert ChangesFound(tool, ops[i], t.texts[i], t.tiers[i], t.spans[i], t.texts[i + 1]);
      EditKeepsBytes(s, t.texts[i], t.spans[i], t.texts[i + 1]);
    }
  }
}
