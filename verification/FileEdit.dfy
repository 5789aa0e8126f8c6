/** The file-edit tool (internal/agent/llm_runtime_ext.go, runFileEdit): several edits of
    a line range, written all or not at all, and how the range is cut out and put back. */
module FileEdit {
  import opened Text
  import opened LineEndings
  import opened EditChain

  // ---------------------------------------------------------------------
  // The range

  /** The text before, in and after lines `start` to `end`, as the tool cuts it. */
  datatype Cut = Cut(prefix: string, scope: string, suffix: string)

  function CutAt(lines: seq<string>, start: nat, end: nat): Cut
    requires 1 <= start <= end <= |lines|
  {
    var before, after := Join(lines[..start - 1]), Join(lines[end..]);
    Cut(if before != "" then before + "\n" else "", Join(lines[start - 1..end]), if after != "" then "\n" + after else "")
  }

  function Rebuild(c: Cut, scope: string): string { c.prefix + scope + c.suffix }

  /** Lines whose break the cut forgets: one empty line. */
  predicate Forgotten(part: seq<string>) { part == [""] }

  lemma JoinEmpty(part: seq<string>)
    ensures Join(part) == "" <==> part == [] || Forgotten(part)
  {
    if |part| > 1 { assert |Join(part)| >= |part[0]| + 1; }
  }

  /** The text as its three groups of lines. */
  lemma JoinThree(a: seq<string>, b: seq<string>, c: seq<string>)
    requires b != []
    ensures Join(a + b + c) ==
            (if a == [] then "" else Join(a) + "\n") + Join(b) + (if c == [] then "" else "\n" + Join(c))
  {
    if a == [] { assert a + b == b; } else { JoinAppend(a, b); }
    if c == [] { assert a + b + c == a + b; } else { JoinAppend(a + b, c); }
  }

  /** Putting the range back gives the text back if and only if neither the lines before
      it nor the lines after it are a single empty line; each side that is loses its
      line break. */
  lemma RebuildIff(work: string, start: nat, end: nat)
    requires 1 <= start <= end <= |Split(work)|
    ensures var lines := Split(work);
            var c := CutAt(lines, start, end);
            && |Rebuild(c, c.scope)| + (if Forgotten(lines[..start - 1]) then 1 else 0) +
               (if Forgotten(lines[end..]) then 1 else 0) == |work|
            && (Rebuild(c, c.scope) == work <==> !Forgotten(lines[..start - 1]) && !Forgotten(lines[end..]))
  {
    hide Join, Split;
    var lines := Split(work);
    var a, b, d := lines[..start - 1], lines[start - 1..end], lines[end..];
    assert lines == a + b + d;
    JoinSplit(work);
    JoinThree(a, b, d);
    JoinEmpty(a);
    JoinEmpty(d);
  }

  /** Cutting out the last line of "a\n" and putting it back drops the final newline. */
  lemma FinalNewlineIsLost()
    ensures var c := CutAt(Split("a\n"), 1, 1);
            Split("a\n") == ["a", ""] && c.scope == "a" && Rebuild(c, c.scope) == "a"
  {
    SplitAtBreak("a", "");
    assert "a" + "\n" + "" == "a\n";
    assert ["a", ""][..0] == [] && ["a", ""][0..1] == ["a"] && ["a", ""][1..] == [""];
  }

  /** Outside the range nothing changes: the text is the lines before, the edited scope,
      and the lines after. */
  lemma OutsideRangeStays(work: string, start: nat, end: nat, edited: string)
    requires 1 <= start <= end <= |Split(work)|
    requires !Forgotten(Split(work)[..start - 1]) && !Forgotten(Split(work)[end..])
    ensures var lines := Split(work);
            var c := CutAt(lines, start, end);
            && work == Rebuild(c, c.scope)
            && Split(Rebuild(c, edited)) == lines[..start - 1] + Split(edited) + lines[end..]
  {
    RebuildIff(work, start, end);
    hide Join;
    var lines := Split(work);
    SplitIsLines(work);
    SplitIsLines(edited);
    var a, b, d := lines[..start - 1], Split(edited), lines[end..];
    JoinSplit(edited);
    JoinThree(a, b, d);
    JoinEmpty(a);
    JoinEmpty(d);
    SplitJoin(a + b + d);
  }

  // ---------------------------------------------------------------------
  // The tool

  /** One replacement asked for; `expected` 0 means any number. */
  datatype Op = Op(oldStr: string, newStr: string, replaceAll: bool, expected: nat)

  /** The call: the range (0: not given), the single edit and its expected count (an empty
      old_string: none), and the list. */
  datatype Args = Args(startLine: nat, endLine: nat, single: Op, edits: seq<Op>, expected: nat)

  datatype Error = Missing | Stale | BadRange | BlankItem | Identical | NoMatch | WrongCount | Denied | ChangedMeanwhile

  datatype Result<+T> = Ok(value: T) | Err(error: Error)

  /** What a run of ops has made of the scope, and how many replacements. */
  datatype Progress = Progress(text: string, total: nat)

  /** One edit: text, op, whether every occurrence is meant, whether it is the first. */
  type Editor = (string, Op, bool, bool) -> EditResult

  function Ops(args: Args): Result<seq<Op>> {
    if args.single.oldStr == "" && args.edits == [] then Err(Missing)
    else if exists i :: 0 <= i < |args.edits| && args.edits[i].oldStr == "" then Err(BlankItem)
    else
      var expected := if args.edits == [] then args.expected else 0;
      Ok((if args.single.oldStr != "" then [args.single.(expected := expected)] else []) + args.edits)
  }

  function RunOp(p: Progress, op: Op, first: bool, edit: Editor): Result<Progress> {
    if op.oldStr == op.newStr then Err(Identical)
    else
      var r := edit(p.text, op, op.replaceAll || op.expected > 1, first);
      if !r.Success? then Err(NoMatch)
      else if op.expected > 0 && r.count != op.expected then Err(WrongCount)
      else Ok(Progress(r.content, p.total + r.count))
  }

  /** The first `n` ops, one after the other. */
  function RunOps(scope: string, ops: seq<Op>, n: nat, edit: Editor): Result<Progress>
    requires n <= |ops|
  {
    if n == 0 then Ok(Progress(scope, 0))
    else
      var r := RunOps(scope, ops, n - 1, edit);
      if r.Err? then r else RunOp(r.value, ops[n - 1], n == 1, edit)
  }

  /** An error stays: the ops after it are not looked at. */
  lemma {:induction false} ErrorStays(scope: string, ops: seq<Op>, n: nat, m: nat, edit: Editor)
    requires n <= m <= |ops| && RunOps(scope, ops, n, edit).Err?
    ensures RunOps(scope, ops, m, edit) == RunOps(scope, ops, n, edit)
  {
    if n < m { ErrorStays(scope, ops, n, m - 1, edit); }
  }

  /** The scope to edit and what is around it; `crlf` says the range was cut from a CRLF
      file. */
  datatype Scoped = Scoped(cut: Cut, crlf: bool)

  function Scope(content: string, args: Args): Result<Scoped> {
    if args.startLine == 0 && args.endLine == 0 then Ok(Scoped(Cut("", content, ""), false))
    else
      var crlf := IsCRLF(content);
      var lines := Split(if crlf then ToLF(content) else content);
      var start := if args.startLine == 0 then 1 else args.startLine;
      var end := if args.endLine == 0 || args.endLine > |lines| then |lines| else args.endLine;
      if start > end || start > |lines| then Err(BadRange) else Ok(Scoped(CutAt(lines, start, end), crlf))
  }

  function WorkText(content: string): string { if IsCRLF(content) then ToLF(content) else content }

  /** What the call makes of a file's content. */
  function Edited(content: string, args: Args, edit: Editor): Result<string> {
    var ops := Ops(args);
    if ops.Err? && ops.error.Missing? then Err(Missing)
    else
      var scope := Scope(content, args);
      if scope.Err? then Err(scope.error)
      else if ops.Err? then Err(ops.error)
      else
        var r := RunOps(scope.value.cut.scope, ops.value, |ops.value|, edit);
        if r.Err? then Err(r.error)
        else if args.expected > 0 && r.value.total != args.expected then Err(WrongCount)
        else
          var text := Rebuild(scope.value.cut, r.value.text);
          Ok(if scope.value.crlf then ToCRLF(text) else text)
  }

  // ---------------------------------------------------------------------
  // When a call succeeds

  predicate NoEdit(args: Args) { args.single.oldStr == "" && args.edits == [] }

  predicate BlankListed(args: Args) { exists i :: 0 <= i < |args.edits| && args.edits[i].oldStr == "" }

  /** The edits asked for, in order: the single one, if given, before the list; the expected
      count is the single one's when it is alone. */
  predicate AskedFor(args: Args, ops: seq<Op>) {
    var k := if args.single.oldStr == "" then 0 else 1;
    && |ops| == k + |args.edits|
    && (k == 1 ==> ops[0] == args.single.(expected := if args.edits == [] then args.expected else 0))
    && forall i :: 0 <= i < |args.edits| ==> ops[k + i] == args.edits[i]
  }

  /** The edit changes something, is found in the text, and as often as expected. */
  ghost predicate Works(op: Op, first: bool, edit: Editor, before: string, after: string, count: nat) {
    && op.oldStr != op.newStr && edit(before, op, op.replaceAll || op.expected > 1, first) == Success(after, count)
    && (op.expected > 0 ==> count == op.expected)
  }

  ghost predicate FailsWith(op: Op, first: bool, edit: Editor, before: string, error: Error) {
    var r := edit(before, op, op.replaceAll || op.expected > 1, first);
    if op.oldStr == op.newStr then error == Identical
    else if !r.Success? then error == NoMatch
    else op.expected > 0 && r.count != op.expected && error == WrongCount
  }

  /** The first edits work, one on the text that the other leaves. */
  ghost predicate WorkInTurn(ops: seq<Op>, edit: Editor, texts: seq<string>, counts: seq<nat>) {
    && |texts| == |counts| + 1 && |counts| <= |ops|
    && forall i :: 0 <= i < |counts| ==> Works(ops[i], i == 0, edit, texts[i], texts[i + 1], counts[i])
  }

  function Sum(counts: seq<nat>): nat {
    if counts == [] then 0 else Sum(counts[..|counts| - 1]) + counts[|counts| - 1]
  }

  lemma WorkOn(ops: seq<Op>, edit: Editor, texts: seq<string>, counts: seq<nat>, after: string, count: nat)
    requires WorkInTurn(ops, edit, texts, counts) && |counts| < |ops|
    requires Works(ops[|counts|], |counts| == 0, edit, texts[|counts|], after, count)
    ensures WorkInTurn(ops, edit, texts + [after], counts + [count]) && Sum(counts + [count]) == Sum(counts) + count
  {
    hide Works;
    var texts', counts' := texts + [after], counts + [count];
    assert counts'[..|counts|] == counts;
    forall i | 0 <= i < |counts'| ensures Works(ops[i], i == 0, edit, texts'[i], texts'[i + 1], counts'[i]) {
      if i < |counts| { assert Works(ops[i], i == 0, edit, texts[i], texts[i + 1], counts[i]); }
    }
  }

  /** A run of edits gives the text that the last one leaves, or the error of the first one
      that does not work. */
  lemma {:induction false} RunOpsIs(scope: string, ops: seq<Op>, n: nat, edit: Editor)
      returns (texts: seq<string>, counts: seq<nat>)
    requires n <= |ops|
    ensures WorkInTurn(ops, edit, texts, counts) && texts[0] == scope && |counts| <= n
    ensures var r := RunOps(scope, ops, n, edit);
            if r.Ok? then |counts| == n && r.value == Progress(texts[n], Sum(counts))
            else |counts| < n && FailsWith(ops[|counts|], |counts| == 0, edit, texts[|counts|], r.error)
  {
    hide Works, FailsWith, RunOp;
    if n == 0 { return [scope], []; }
    texts, counts := RunOpsIs(scope, ops, n - 1, edit);
    if RunOps(scope, ops, n - 1, edit).Ok? {
      texts, counts := OneMore(ops, n, edit, texts, counts);
    }
  }

  /** The next edit works, or is the first that does not. */
  lemma OneMore(ops: seq<Op>, n: nat, edit: Editor, texts: seq<string>, counts: seq<nat>)
      returns (texts': seq<string>, counts': seq<nat>)
    requires 0 < n <= |ops| && |counts| == n - 1 && WorkInTurn(ops, edit, texts, counts)
    ensures WorkInTurn(ops, edit, texts', counts') && texts'[0] == texts[0] && n - 1 <= |counts'| <= n
    ensures var r := RunOp(Progress(texts[n - 1], Sum(counts)), ops[n - 1], n == 1, edit);
            if r.Ok? then |counts'| == n && r.value == Progress(texts'[n], Sum(counts'))
            else |counts'| == n - 1 && FailsWith(ops[n - 1], n == 1, edit, texts'[n - 1], r.error)
  {
    hide Works, FailsWith, RunOp;
    var r := RunOp(Progress(texts[n - 1], Sum(counts)), ops[n - 1], n == 1, edit);
    OneOp(Progress(texts[n - 1], Sum(counts)), ops[n - 1], n == 1, edit);
    if r.Err? { return texts, counts; }
    var count := r.value.total - Sum(counts);
    WorkOn(ops, edit, texts, counts, r.value.text, count);
    texts', counts' := texts + [r.value.text], counts + [count];
  }

  lemma OneOp(p: Progress, op: Op, first: bool, edit: Editor)
    ensures var r := RunOp(p, op, first, edit);
            if r.Ok? then r.value.total >= p.total && Works(op, first, edit, p.text, r.value.text, r.value.total - p.total)
            else FailsWith(op, first, edit, p.text, r.error)
  {
  }

  /** The range asked for holds a line of the file, or none is asked for. */
  predicate HoldsLine(content: string, args: Args) {
    || (args.startLine == 0 && args.endLine == 0)
    || exists line :: 1 <= line <= |Split(WorkText(content))| && InAsked(args, line)
  }

  predicate InAsked(args: Args, line: int) { args.startLine <= line && (args.endLine == 0 || line <= args.endLine) }

  lemma RangeIs(content: string, args: Args)
    ensures Scope(content, args).Ok? <==> HoldsLine(content, args)
    ensures Scope(content, args).Err? ==> Scope(content, args).error == BadRange
  {
    hide CutAt, Split, ToLF, IsCRLF;
    var n := |Split(WorkText(content))|;
    var start := if args.startLine == 0 then 1 else args.startLine;
    if start <= n && Scope(content, args).Ok? && !(args.startLine == 0 && args.endLine == 0) { assert InAsked(args, start); }
    assert forall line :: 1 <= line <= n && InAsked(args, line) ==> start <= line;
  }

  /** All edits asked for work in turn on the range, as often in all as expected, and the file
      is what the last one leaves, put back in the range. */
  ghost predicate AllWork(content: string, args: Args, edit: Editor, result: string, count: nat) {
    && !NoEdit(args) && !BlankListed(args) && Scope(content, args).Ok?
    && var scope := Scope(content, args).value;
       exists ops, texts, counts :: AskedFor(args, ops) && |counts| == |ops| && WorkInTurn(ops, edit, texts, counts) &&
         texts[0] == scope.cut.scope && count == Sum(counts) && (args.expected > 0 ==> count == args.expected) &&
         result == PutBack(scope, texts[|ops|])
  }

  function PutBack(scope: Scoped, text: string): string {
    var whole := Rebuild(scope.cut, text); if scope.crlf then ToCRLF(whole) else whole
  }

  /** One edit is the first that does not work, or they are not as many in all as expected. */
  ghost predicate OneFails(content: string, args: Args, edit: Editor, error: Error) {
    && !NoEdit(args) && !BlankListed(args) && Scope(content, args).Ok?
    && exists ops, texts, counts :: AskedFor(args, ops) && WorkInTurn(ops, edit, texts, counts) &&
         texts[0] == Scope(content, args).value.cut.scope &&
         if |counts| < |ops| then FailsWith(ops[|counts|], |counts| == 0, edit, texts[|counts|], error)
         else error == WrongCount && args.expected > 0 && Sum(counts) != args.expected
  }

  /** What a call answers, before it asks the user. */
  ghost predicate Answered(content: string, args: Args, edit: Editor, r: Result<string>) {
    if NoEdit(args) then r == Err(Missing)
    else if !HoldsLine(content, args) then r == Err(BadRange)
    else if BlankListed(args) then r == Err(BlankItem)
    else if r.Ok? then exists count :: AllWork(content, args, edit, r.value, count)
    else OneFails(content, args, edit, r.error)
  }

  /** The first reason a call fails for, in the order the tool looks. */
  ghost predicate FailsFor(content: string, args: Args, edit: Editor, seen: bool, approved: bool, error: Error) {
    if NoEdit(args) then error == Missing
    else if !seen then error == Stale
    else if !HoldsLine(content, args) then error == BadRange
    else if BlankListed(args) then error == BlankItem
    else if exists result, count :: AllWork(content, args, edit, result, count) then
      error == if approved then ChangedMeanwhile else Denied
    else OneFails(content, args, edit, error)
  }

  lemma OpsAre(args: Args)
    ensures NoEdit(args) <==> Ops(args) == Err(Missing)
    ensures !NoEdit(args) && BlankListed(args) <==> Ops(args) == Err(BlankItem)
    ensures !NoEdit(args) && !BlankListed(args) <==> Ops(args).Ok?
    ensures Ops(args).Ok? ==> AskedFor(args, Ops(args).value)
  {
  }

  lemma {:induction false} WorkRuns(ops: seq<Op>, n: nat, edit: Editor, texts: seq<string>, counts: seq<nat>)
    requires WorkInTurn(ops, edit, texts, counts) && n <= |counts|
    ensures RunOps(texts[0], ops, n, edit) == Ok(Progress(texts[n], Sum(counts[..n])))
  {
    if n > 0 {
      WorkRuns(ops, n - 1, edit, texts, counts);
      assert counts[..n][..n - 1] == counts[..n - 1];
      assert Works(ops[n - 1], n == 1, edit, texts[n - 1], texts[n], counts[n - 1]);
    }
  }

  lemma AskedForOnce(args: Args, ops: seq<Op>)
    requires AskedFor(args, ops) && Ops(args).Ok?
    ensures ops == Ops(args).value
  {
    var ops' := Ops(args).value;
    var k := if args.single.oldStr == "" then 0 else 1;
    assert |ops'| == |ops|;
    forall i | 0 <= i < |ops| ensures ops[i] == ops'[i] {
      if i >= k { assert ops[k + (i - k)] == args.edits[i - k]; }
    }
  }

  /** When all edits work, the call succeeds with what they make. */
  lemma AllWorkIs(content: string, args: Args, edit: Editor, result: string, count: nat)
    requires AllWork(content, args, edit, result, count)
    ensures Edited(content, args, edit) == Ok(result)
  {
    OpsAre(args);
    hide Ops, Scope, Works, AskedFor, BlankListed, NoEdit, ToCRLF, RunOps;
    var scope := Scope(content, args).value;
    var ops, texts, counts :| AskedFor(args, ops) && |counts| == |ops| && WorkInTurn(ops, edit, texts, counts) &&
         texts[0] == scope.cut.scope && count == Sum(counts) && (args.expected > 0 ==> count == args.expected) &&
         result == PutBack(scope, texts[|ops|]);
    AskedForOnce(args, ops);
    WorkRuns(ops, |ops|, edit, texts, counts);
    assert counts[..|ops|] == counts;
  }

  lemma NoneWork(content: string, args: Args, edit: Editor)
    requires Edited(content, args, edit).Err?
    ensures !exists result, count :: AllWork(content, args, edit, result, count)
  {
    hide AllWork, Edited;
    forall result, count | AllWork(content, args, edit, result, count) ensures false {
      AllWorkIs(content, args, edit, result, count);
    }
  }

  /** A call fails for the first reason it meets, and succeeds exactly when there is none. */
  lemma EditedIs(content: string, args: Args, edit: Editor)
    ensures Answered(content, args, edit, Edited(content, args, edit))
    ensures Edited(content, args, edit).Ok? <==> exists result, count :: AllWork(content, args, edit, result, count)
    ensures Edited(content, args, edit).Ok? ==> AllWork(content, args, edit, Edited(content, args, edit).value,
              RunOps(Scope(content, args).value.cut.scope, Ops(args).value, |Ops(args).value|, edit).value.total)
  {
    OpsAre(args);
    RangeIs(content, args);
    hide Ops, Scope, HoldsLine, WorkInTurn, Works, FailsWith, AskedFor, BlankListed, NoEdit, ToCRLF;
    if Edited(content, args, edit).Err? { NoneWork(content, args, edit); }
    if Ops(args).Ok? && Scope(content, args).Ok? {
      var ops, scope := Ops(args).value, Scope(content, args).value;
      var texts, counts := RunOpsIs(scope.cut.scope, ops, |ops|, edit);
      var r := Edited(content, args, edit);
      if r.Ok? {
        assert AllWork(content, args, edit, r.value, Sum(counts));
      } else {
        assert OneFails(content, args, edit, r.error);
      }
    }
  }

  class SourceFile {
    var content: string
    var stamp: string

    constructor (text: string)
      ensures content == stamp == text
    {
      content, stamp := text, text;
    }

    /** Edits the file; `seen` says its stamp allows it, `approved` that the user does,
        `unchanged` that it is still the same after the approval. */
    method RunFileEdit(args: Args, edit: Editor, seen: bool, approved: bool, stillSame: bool) returns (r: Result<nat>)
      modifies this
      ensures r.Err? ==> content == old(content) && stamp == old(stamp)
      ensures r.Ok? <==> seen && approved && stillSame && Edited(old(content), args, edit).Ok?
      ensures r.Ok? ==> content == stamp == Edited(old(content), args, edit).value
      ensures r.Ok? ==> AllWork(old(content), args, edit, content, r.value)
      ensures r.Err? ==> FailsFor(old(content), args, edit, seen, approved, r.error)
    {
      EditedIs(content, args, edit);
      RangeIs(content, args);
      hide CutAt, ToLF, ToCRLF, IsCRLF, RunOp, Split, Scope, AllWork, OneFails, HoldsLine;
      if args.single.oldStr == "" && args.edits == [] { return Err(Missing); }
      if !seen { return Err(Stale); }
      var scope := Scope(content, args);
      if scope.Err? { return Err(scope.error); }
      var ops: seq<Op> := [];
      if args.single.oldStr != "" {
        ops := [args.single.(expected := if args.edits == [] then args.expected else 0)];
      }
      ghost var head := ops;
      for i := 0 to |args.edits|
        invariant ops == head + args.edits[..i] && forall j :: 0 <= j < i ==> args.edits[j].oldStr != ""
      {
        if args.edits[i].oldStr == "" { return Err(BlankItem); }
        ops := ops + [args.edits[i]];
      }
      assert args.edits[..|args.edits|] == args.edits;
      assert Ops(args) == Ok(ops);
      var p := Progress(scope.value.cut.scope, 0);
      for i := 0 to |ops|
        invariant RunOps(scope.value.cut.scope, ops, i, edit) == Ok(p)
      {
        var next := RunOp(p, ops[i], i == 0, edit);
        if next.Err? {
          ErrorStays(scope.value.cut.scope, ops, i + 1, |ops|, edit);
          return Err(next.error);
        }
        p := next.value;
      }
      if args.expected > 0 && p.total != args.expected { return Err(WrongCount); }
      var updated := Rebuild(scope.value.cut, p.text);
      if scope.value.crlf { updated := ToCRLF(updated); }
      if !approved { return Err(Denied); }
      if !stillSame { return Err(ChangedMeanwhile); }
      content := updated;
      stamp := updated;
      return Ok(p.total);
    }
  }

  // ---------------------------------------------------------------------
  // What a ranged edit leaves alone

  function BackTo(content: string, work: string): string { if IsCRLF(content) then ToCRLF(work) else work }

  lemma WorkIsContent(content: string)
    ensures BackTo(content, WorkText(content)) == content
  {
    hide ToLF, ToCRLF;
    CountsAgree(content);
    RoundTripIff(content);
  }

  /** A successful edit of a line range leaves every line before and after it as it was,
      in the file's line endings, unless those lines are a single empty line. */
  lemma RangedEditKeepsOtherLines(content: string, args: Args, edit: Editor, start: nat, end: nat)
    requires Edited(content, args, edit).Ok? && (args.startLine > 0 || args.endLine > 0)
    requires start == (if args.startLine == 0 then 1 else args.startLine)
    requires end == if args.endLine == 0 || args.endLine > |Split(WorkText(content))| then |Split(WorkText(content))|
                    else args.endLine
    requires 1 <= start <= end <= |Split(WorkText(content))|
    requires !Forgotten(Split(WorkText(content))[..start - 1]) && !Forgotten(Split(WorkText(content))[end..])
    ensures exists scope ::
              && Split(WorkText(content))[..start - 1] + Split(scope) + Split(WorkText(content))[end..] ==
                 Split(Rebuild(CutAt(Split(WorkText(content)), start, end), scope))
              && Edited(content, args, edit).value ==
                   BackTo(content, Rebuild(CutAt(Split(WorkText(content)), start, end), scope))
    ensures content == BackTo(content, WorkText(content))
  {
    hide CutAt, ToLF, ToCRLF, IsCRLF, RunOps, Split, Rebuild;
    var work := WorkText(content);
    WorkIsContent(content);
    var ops := Ops(args).value;
    var scope := RunOps(Scope(content, args).value.cut.scope, ops, |ops|, edit).value.text;
    OutsideRangeStays(work, start, end, scope);
  }
}
