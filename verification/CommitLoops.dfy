/** The rewriter's two loops (internal/agent/commit_policy.go): the scan that emits
    segment ranges and the splice that builds the output, proved to compute the
    segments and the rewrite. */
module CommitLoops {
  import opened Strings
  import opened Wrappers
  import opened ShellScan
  import opened ShellLocality
  import opened ShellReading
  import opened CommitTrailer
  import opened CommitRescan

  /** A segment's bounds in the command, and where flags must go before a heredoc
      body, or -1. */
  datatype Range = Range(start: nat, end: nat, injectAt: int)

  function At(base: nat, inject: Option<nat>): int {
    match inject case None => -1 case Some(k) => base + k
  }

  function RangesOf(ps: seq<Piece>, base: nat): (r: seq<Range>)
    ensures |r| == |ps|
  {
    if ps == [] then []
    else [Range(base, base + |ps[0].body|, At(base, ps[0].inject))] +
         RangesOf(ps[1..], base + |ps[0].body| + |ps[0].sep|)
  }

  function After(done: seq<Range>, more: Option<seq<Range>>): Option<seq<Range>> {
    match more case None => None case Some(rs) => Some(done + rs)
  }

  /** The segments from a state in the middle of one: it began at `start`, the scan
      stands at `i`, and `injectAt` is set once a heredoc body has opened. */
  function FromHere(command: Text, start: nat, i: nat, st: Lex, injectAt: int): Option<seq<Range>>
    requires i <= |command|
  {
    match ScanOne(command[i..], st)
    case None => None
    case Some(g) =>
      var end := i + g.len;
      var first := Range(start, end, if injectAt >= 0 then injectAt else At(i, g.inject));
      if g.sep == 0 then Some([first])
      else match Pieces(command[end + g.sep..], g.pending)
        case None => None
        case Some(ps) => Some([first] + RangesOf(ps, end + g.sep))
  }

  /** At the start of a segment, what is left is the segments of the rest. */
  lemma FromStart(command: Text, i: nat, pending: seq<Heredoc>)
    requires i <= |command|
    ensures var o := Pieces(command[i..], pending);
            FromHere(command, i, i, Start(pending), -1) == if o.None? then None else Some(RangesOf(o.value, i))
  {
    hide ScanOne, Pieces, RangesOf;
    var r := command[i..];
    PiecesUnfold(r, pending);
    var s := ScanOne(r, Start(pending));
    if s.Some? {
      var g := s.value;
      var p := Piece(r[..g.len], g.inject, r[g.len..g.len + g.sep]);
      RestOfRest(command, i, g.len + g.sep);
      var o := Pieces(r[g.len + g.sep..], g.pending);
      RangesCons(p, if o.Some? then o.value else [], i);
      RangesCons(p, [], i);
    }
  }

  lemma RangesCons(p: Piece, ps: seq<Piece>, base: nat)
    ensures RangesOf([p] + ps, base) ==
            [Range(base, base + |p.body|, At(base, p.inject))] + RangesOf(ps, base + |p.body| + |p.sep|)
    ensures RangesOf([p], base) == [Range(base, base + |p.body|, At(base, p.inject))]
  {
    assert ([p] + ps)[1..] == ps && [p][1..] == [];
  }

  lemma AtMoves(i: nat, n: nat, inject: Option<nat>)
    ensures At(i, Shift(inject, n)) == At(i + n, inject)
  {
  }

  /** One iteration inside a segment. */
  lemma GoesOn(command: Text, start: nat, i: nat, st: Lex, injectAt: int)
    requires i < |command| && Step(command[i..], st).Go?
    ensures var m := Step(command[i..], st);
            FromHere(command, start, i, st, injectAt) ==
            FromHere(command, start, i + m.n, m.st, if m.body && injectAt < 0 then i else injectAt)
  {
    hide ScanOne, Step, Pieces;
    var m := Step(command[i..], st);
    ScanUnfolds(command[i..], st);
    RestOfRest(command, i, m.n);
    var s := ScanOne(command[i + m.n..], m.st);
    if s.Some? { AtMoves(i, m.n, s.value.inject); }
  }

  /** A separator ends a segment and starts the next. */
  lemma CutsHere(command: Text, start: nat, i: nat, st: Lex, injectAt: int)
    requires i < |command| && Step(command[i..], st).Cut? && injectAt >= -1
    ensures var sep := Step(command[i..], st).sep;
            FromHere(command, start, i, st, injectAt) ==
            After([Range(start, i, injectAt)], FromHere(command, i + sep, i + sep, Start(st.pending), -1))
  {
    hide ScanOne, Step, Pieces;
    var sep := Step(command[i..], st).sep;
    ScanUnfolds(command[i..], st);
    FromStart(command, i + sep, st.pending);
  }

  /** The end of the command ends the last segment, or leaves a heredoc open. */
  lemma EndsHere(command: Text, start: nat, st: Lex, injectAt: int)
    requires injectAt >= -1
    ensures FromHere(command, start, |command|, st, injectAt) ==
            if st.pending != [] then None else Some([Range(start, |command|, injectAt)])
  {
    assert command[|command|..] == [];
  }

  lemma AfterTwice(done: seq<Range>, r: Range, more: Option<seq<Range>>)
    ensures After(done, After([r], more)) == After(done + [r], more)
  {
    if more.Some? { assert done + ([r] + more.value) == done + [r] + more.value; }
  }

  /** The command is parsed exactly when it has a reading, and cut at exactly the separators
      that the reading shows bare and unescaped at the top level. */
  ghost predicate CutAsRead(command: Text, ok: bool, ps: Option<seq<Piece>>) {
    var read := Reading(command, 0, Start([]));
    (ok <==> read.Some?) && (ok ==> ps.Some? && CutThere(command, 0, read.value, ps.value))
  }

  lemma PiecesAsRead(command: Text)
    ensures CutAsRead(command, Pieces(command, []).Some?, Pieces(command, []))
  {
    hide Pieces, Reading, CutThere;
    CutsExactly(command, 0, []);
    assert command[0..] == command;
  }

  /** The scanner: one pass over the bytes, refusing what it cannot parse. */
  method SplitShellSegmentsWithRanges(command: Text) returns (segments: seq<Range>, ok: bool)
    ensures ok <==> Pieces(command, []).Some?
    ensures ok ==> segments == RangesOf(Pieces(command, []).value, 0)
    ensures CutAsRead(command, ok, Pieces(command, []))
  {
    PiecesAsRead(command);
    hide ScanOne, Step, Pieces, FromHere, CutAsRead;
    segments := [];
    var st := Start([]);
    var start, injectAt, i := 0, -1, 0;
    ghost var whole := FromHere(command, 0, 0, st, -1);
    FromStart(command, 0, []);
    assert command[0..] == command;
    AfterNothing(whole);
    while i < |command|
      invariant i <= |command| && injectAt >= -1
      invariant whole == After(segments, FromHere(command, start, i, st, injectAt))
      decreases |command| - i
    {
      match Step(command[i..], st) {
        case Refuse =>
          RefusesHere(command, start, i, st, injectAt);
          return [], false;
        case Go(n, st', body) =>
          GoesOn(command, start, i, st, injectAt);
          if body && injectAt < 0 { injectAt := i; }
          st := st';
          i := i + n;
        case Cut(sep) =>
          CutsHere(command, start, i, st, injectAt);
          AfterTwice(segments, Range(start, i, injectAt), FromHere(command, i + sep, i + sep, Start(st.pending), -1));
          segments := segments + [Range(start, i, injectAt)];
          injectAt := -1;
          st := Start(st.pending);
          i := i + sep;
          start := i;
      }
    }
    EndsHere(command, start, st, injectAt);
    if |st.pending| > 0 { return [], false; }
    segments := segments + [Range(start, |command|, injectAt)];
    ok := true;
  }

  lemma AfterNothing(o: Option<seq<Range>>)
    ensures After([], o) == o
  {
    if o.Some? { assert [] + o.value == o.value; }
  }

  lemma RefusesHere(command: Text, start: nat, i: nat, st: Lex, injectAt: int)
    requires i < |command| && Step(command[i..], st).Refuse?
    ensures FromHere(command, start, i, st, injectAt) == None
  {
    hide Step;
    ScanUnfolds(command[i..], st);
  }

  // ---------------------------------------------------------------------
  // The splice

  /** The next segment's text and what follows it, in a command cut into pieces. */
  lemma NextPiece(command: Text, ps: seq<Piece>, base: nat)
    requires ps != [] && base <= |command| && command[base..] == Plain(ps)
    ensures var p := ps[0]; var end := base + |p.body|;
            && end + |p.sep| <= |command|
            && command[base..end] == p.body && command[end..end + |p.sep|] == p.sep
            && command[end + |p.sep|..] == Plain(ps[1..])
  {
    var p, x := ps[0], Plain(ps[1..]);
    var n := |p.body|;
    assert command[base..] == p.body + p.sep + x;
    SlicesOf(command, base, p.body, p.sep, x);
  }

  lemma SlicesOf(command: Text, base: nat, a: Text, b: Text, c: Text)
    requires base <= |command| && command[base..] == a + b + c
    ensures base + |a| + |b| <= |command|
    ensures command[base..base + |a|] == a && command[base + |a|..base + |a| + |b|] == b
    ensures command[base + |a| + |b|..] == c
  {
    var r := command[base..];
    assert r[..|a|] == a && r[|a|..|a| + |b|] == b && r[|a| + |b|..] == c;
  }

  /** The first `k` segments are written; `gap` is the separator still to copy. */
  ghost predicate Splicing(isCommit: Text -> bool, command: Text, ps: seq<Piece>, segments: seq<Range>, k: nat,
                           out: Text, cursor: nat, base: nat) {
    && k <= |ps| == |segments| && cursor <= base <= |command|
    && command[base..] == Plain(ps[k..])
    && segments[k..] == RangesOf(ps[k..], base)
    && out + command[cursor..base] + Rebuilt(isCommit, ps[k..]) == Rebuilt(isCommit, ps)
  }

  /** Writing one segment, its flag included. */
  method WriteSegment(isCommit: Text -> bool, command: Text, cursor: nat, seg: Range, ghost p: Piece, out: Text)
      returns (next: Text)
    requires cursor <= seg.start <= seg.end <= |command| && command[seg.start..seg.end] == p.body
    requires seg == Range(seg.start, seg.start + |p.body|, At(seg.start, p.inject))
    ensures next == out + command[cursor..seg.start] + Patched(isCommit, p)
  {
    hide Flag, NeedsTrailer, Patched;
    next := out + command[cursor..seg.start];
    var body := command[seg.start..seg.end];
    if NeedsTrailer(isCommit, body) {
      var pos := |body|;
      if seg.injectAt >= seg.start && seg.injectAt < seg.end { pos := seg.injectAt - seg.start; }
      var leading := body[..TrimmedLength(body[..pos])];
      PatchedHere(isCommit, p, seg.start, seg, pos);
      next := next + (leading + Flag() + body[|leading|..]);
    } else {
      KeptHere(isCommit, p);
      next := next + body;
    }
  }

  lemma SegmentHere(isCommit: Text -> bool, command: Text, ps: seq<Piece>, segments: seq<Range>, k: nat,
                    out: Text, cursor: nat, base: nat)
    requires Splicing(isCommit, command, ps, segments, k, out, cursor, base) && k < |ps|
    ensures var seg, p := segments[k], ps[k];
            && seg == Range(base, base + |p.body|, At(base, p.inject))
            && seg.end + |p.sep| <= |command| && command[base..seg.end] == p.body
            && Splicing(isCommit, command, ps, segments, k + 1, out + command[cursor..base] + Patched(isCommit, p),
                        seg.end, seg.end + |p.sep|)
  {
    hide Patched;
    var p, rest := ps[k], ps[k + 1..];
    assert ps[k..] == [p] + rest && ps[k..][1..] == rest;
    assert segments[k..][1..] == segments[k + 1..] && segments[k..][0] == segments[k];
    RangesCons(p, rest, base);
    NextPiece(command, ps[k..], base);
    Regroup(out + command[cursor..base], Patched(isCommit, p), p.sep, Rebuilt(isCommit, rest));
  }

  lemma Regroup(a: Text, b: Text, c: Text, d: Text)
    ensures a + (b + c + d) == a + b + c + d
  {
  }

  lemma SplicingStarts(isCommit: Text -> bool, command: Text, ps: seq<Piece>)
    requires Plain(ps) == command
    ensures Splicing(isCommit, command, ps, RangesOf(ps, 0), 0, [], 0, 0)
  {
    hide Plain, Rebuilt, RangesOf;
    assert command[0..] == command && ps[0..] == ps && RangesOf(ps, 0)[0..] == RangesOf(ps, 0);
    assert [] + command[0..0] + Rebuilt(isCommit, ps) == Rebuilt(isCommit, ps);
  }

  lemma SplicingEnds(isCommit: Text -> bool, command: Text, ps: seq<Piece>, segments: seq<Range>,
                     out: Text, cursor: nat, base: nat)
    requires Splicing(isCommit, command, ps, segments, |ps|, out, cursor, base)
    ensures cursor <= |command| && out + command[cursor..] == Rebuilt(isCommit, ps)
  {
    NothingLeft(isCommit);
    hide Plain, Rebuilt, RangesOf;
    assert ps[|ps|..] == [];
    assert |command[base..]| == 0;
    assert command[cursor..base] == command[cursor..];
    assert out + command[cursor..] + [] == out + command[cursor..];
  }

  lemma NothingLeft(isCommit: Text -> bool)
    ensures Plain([]) == [] && Rebuilt(isCommit, []) == []
  {
  }

  /** The text of a segment in the output: a commit without the mark has the flag, behind
      the last character that is not blank, of the segment or of what is before its first
      heredoc bodies; any other segment is as it was. */
  ghost predicate Flagged(isCommit: Text -> bool, p: Piece, text: Text) {
    if isCommit(p.body) && !Contains(p.body, MARK) then
      exists k: nat :: IsPoint(p.body, if p.inject.Some? && p.inject.value < |p.body| then p.inject.value else |p.body|, k) &&
        text == p.body[..k] + Flag() + p.body[k..]
    else text == p.body
  }

  predicate IsPoint(body: Text, limit: nat, k: nat) {
    k <= limit <= |body| && AllBlank(body[k..limit]) && (k > 0 ==> !IsBlank(body[k - 1]))
  }

  ghost predicate FlaggedEach(isCommit: Text -> bool, ps: seq<Piece>, qs: seq<Piece>) {
    |qs| == |ps| && forall i :: 0 <= i < |ps| ==> qs[i].sep == ps[i].sep && Flagged(isCommit, ps[i], qs[i].body)
  }

  lemma PatchedIsFlagged(isCommit: Text -> bool, p: Piece)
    ensures Flagged(isCommit, p, Patched(isCommit, p))
  {
    hide Flag, Contains;
    var limit := if p.inject.Some? && p.inject.value < |p.body| then p.inject.value else |p.body|;
    var k := PointIn(p.body, p.inject);
    assert p.body[..|p.body|] == p.body;
    var part := p.body[..limit];
    assert k == TrimmedLength(part) && AllBlank(part[k..]) && (k > 0 ==> !IsBlank(part[k - 1]));
    assert part[k..] == p.body[k..limit];
    assert IsPoint(p.body, limit, k);
  }

  lemma {:induction false} RebuiltIsFlagged(isCommit: Text -> bool, ps: seq<Piece>) returns (qs: seq<Piece>)
    ensures FlaggedEach(isCommit, ps, qs) && Plain(qs) == Rebuilt(isCommit, ps)
  {
    hide Flagged, Patched;
    if ps == [] { return []; }
    var rest := RebuiltIsFlagged(isCommit, ps[1..]);
    PatchedIsFlagged(isCommit, ps[0]);
    qs := [ps[0].(body := Patched(isCommit, ps[0]))] + rest;
    assert qs[1..] == rest;
    forall i | 0 <= i < |ps| ensures qs[i].sep == ps[i].sep && Flagged(isCommit, ps[i], qs[i].body) {
      if i > 0 { assert ps[i] == ps[1..][i - 1] && qs[i] == rest[i - 1]; }
    }
  }

  /** The output is the command with its segments, as it reads, flagged each; a command
      that does not read stays. */
  ghost predicate RewrittenAsRead(isCommit: Text -> bool, command: Text, result: Text) {
    var read := Reading(command, 0, Start([]));
    if command == "" || read.None? then result == command
    else exists ps, qs :: CutThere(command, 0, read.value, ps) && FlaggedEach(isCommit, ps, qs) && result == Plain(qs)
  }

  lemma EnforceAsRead(isCommit: Text -> bool, command: Text)
    ensures RewrittenAsRead(isCommit, command, Enforce(isCommit, command))
  {
    hide Pieces, Reading, CutThere, Rebuilt, FlaggedEach, Plain;
    PiecesAsRead(command);
    if command != "" && Pieces(command, []).Some? {
      var qs := RebuiltIsFlagged(isCommit, Pieces(command, []).value);
    }
  }

  lemma EnforceCases(isCommit: Text -> bool, command: Text)
    ensures command == "" || Pieces(command, []).None? ==> Enforce(isCommit, command) == command
    ensures command != "" && Pieces(command, []).Some? ==>
              Enforce(isCommit, command) == Rebuilt(isCommit, Pieces(command, []).value)
  {
    hide Pieces, Rebuilt;
  }

  /** The rewriter as written: segments patched into the command in order. */
  method EnforceCommitCoAuthor(isCommit: Text -> bool, command: Text) returns (result: Text)
    ensures result == Enforce(isCommit, command)
    ensures RewrittenAsRead(isCommit, command, result)
  {
    EnforceAsRead(isCommit, command);
    hide Pieces, Splicing, Patched, Rebuilt, RewrittenAsRead, CutAsRead, Enforce;
    EnforceCases(isCommit, command);
    if command == "" { return command; }
    var segments, ok := SplitShellSegmentsWithRanges(command);
    if !ok { return command; }
    ghost var ps := Pieces(command, []).value;
    if |segments| == 0 {
      EmptyCover(command);
      return command;
    }
    PiecesCover(command, []);
    SplicingStarts(isCommit, command, ps);
    var out, cursor := [], 0;
    ghost var base: nat := 0;
    for k := 0 to |segments|
      invariant 0 <= cursor && Splicing(isCommit, command, ps, segments, k, out, cursor, base)
    {
      SegmentHere(isCommit, command, ps, segments, k, out, cursor, base);
      SplicingBounds(isCommit, command, ps, segments, k, out, cursor, base);
      out := WriteSegment(isCommit, command, cursor, segments[k], ps[k], out);
      cursor := segments[k].end;
      base := segments[k].end + |ps[k].sep|;
    }
    SplicingEnds(isCommit, command, ps, segments, out, cursor, base);
    result := out + command[cursor..];
  }

  lemma SplicingBounds(isCommit: Text -> bool, command: Text, ps: seq<Piece>, segments: seq<Range>, k: nat,
                       out: Text, cursor: nat, base: nat)
    requires Splicing(isCommit, command, ps, segments, k, out, cursor, base)
    ensures cursor <= base <= |command|
  {
  }

  lemma EmptyCover(command: Text)
    ensures Pieces(command, []) == Some([]) ==> command == []
  {
    hide Pieces;
    if Pieces(command, []).Some? { PiecesCover(command, []); }
  }

  lemma PatchedHere(isCommit: Text -> bool, p: Piece, base: nat, seg: Range, pos: nat)
    requires NeedsTrailer(isCommit, p.body) && seg == Range(base, base + |p.body|, At(base, p.inject))
    requires pos == if seg.injectAt >= seg.start && seg.injectAt < seg.end then seg.injectAt - seg.start else |p.body|
    ensures pos <= |p.body|
    ensures var n := TrimmedLength(p.body[..pos]); n <= |p.body| && Patched(isCommit, p) == p.body[..n] + Flag() + p.body[n..]
  {
    hide NeedsTrailer, Flag;
    assert p.body[..|p.body|] == p.body;
  }

  lemma KeptHere(isCommit: Text -> bool, p: Piece)
    requires !NeedsTrailer(isCommit, p.body)
    ensures Patched(isCommit, p) == p.body
  {
  }
}
