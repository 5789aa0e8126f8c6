/** The commit-trailer rewriter (internal/agent/commit_policy.go): inserts the
    co-author flag into every `git commit` segment of a shell command. */
module CommitTrailer {
  import opened Strings
  import opened Wrappers
  import opened ShellScan

  const MARK: Text := "Co-Authored-By: Spettro"
  const LEAD: Text := " --trailer "
  const MAIL: Text := "spettro@eyed.to>"

  /** The injected flag. */
  function Flag(): Text { LEAD + "'" + (MARK + " ") + "<" + MAIL + "'" }

  /** The length of `s` without its trailing spaces and tabs. */
  function TrimmedLength(s: Text): (n: nat)
    ensures n <= |s| && AllBlank(s[n..])
    ensures n > 0 ==> !IsBlank(s[n - 1])
  {
    if s == [] || !IsBlank(s[|s| - 1]) then |s|
    else
      var n := TrimmedLength(s[..|s| - 1]);
      assert s[n..] == s[..|s| - 1][n..] + [s[|s| - 1]];
      n
  }

  /** Where flags go: before the blanks that precede the heredoc body or the end. */
  function PointIn(body: Text, inject: Option<nat>): (p: nat)
    ensures p <= |body|
  {
    TrimmedLength(if inject.Some? && inject.value < |body| then body[..inject.value] else body)
  }

  /** `isCommit` recognises a `git commit` invocation. */
  predicate NeedsTrailer(isCommit: Text -> bool, body: Text) {
    isCommit(body) && !Contains(body, MARK)
  }

  function Patched(isCommit: Text -> bool, p: Piece): Text
  {
    if NeedsTrailer(isCommit, p.body) then
      var k := PointIn(p.body, p.inject);
      p.body[..k] + Flag() + p.body[k..]
    else p.body
  }

  function Rebuilt(isCommit: Text -> bool, ps: seq<Piece>): Text
  {
    if ps == [] then [] else Patched(isCommit, ps[0]) + ps[0].sep + Rebuilt(isCommit, ps[1..])
  }

  /** The rewriter. */
  function Enforce(isCommit: Text -> bool, command: Text): Text {
    if command == "" then command
    else match Pieces(command, [])
      case None => command
      case Some(ps) => Rebuilt(isCommit, ps)
  }

  // ---------------------------------------------------------------------
  // The rewriter only inserts

  /** The parts of a command, joined by copies of `glue`. */
  function Glued(parts: seq<Text>, glue: Text): Text {
    if parts == [] then [] else if |parts| == 1 then parts[0] else parts[0] + glue + Glued(parts[1..], glue)
  }

  /** The command cut at its insertion points. */
  function PartsOf(isCommit: Text -> bool, ps: seq<Piece>): (parts: seq<Text>)
    ensures parts != []
  {
    if ps == [] then [""]
    else
      var rest := PartsOf(isCommit, ps[1..]);
      var p := ps[0];
      if NeedsTrailer(isCommit, p.body) then
        var k := PointIn(p.body, p.inject);
        [p.body[..k], p.body[k..] + p.sep + rest[0]] + rest[1..]
      else [p.body + p.sep + rest[0]] + rest[1..]
  }

  lemma GluedHead(x: Text, parts: seq<Text>, glue: Text)
    requires parts != []
    ensures Glued([x + parts[0]] + parts[1..], glue) == x + Glued(parts, glue)
  {
    var joined := [x + parts[0]] + parts[1..];
    assert joined[1..] == parts[1..];
    if |parts| > 1 { assert x + parts[0] + glue + Glued(parts[1..], glue) == x + (parts[0] + glue + Glued(parts[1..], glue)); }
  }

  lemma GluedFront(x: Text, parts: seq<Text>, glue: Text)
    requires parts != []
    ensures Glued([x] + parts, glue) == x + glue + Glued(parts, glue)
  {
    assert ([x] + parts)[1..] == parts;
  }

  function Plain(ps: seq<Piece>): Text {
    if ps == [] then [] else ps[0].body + ps[0].sep + Plain(ps[1..])
  }

  lemma {:induction false} GluedPieces(isCommit: Text -> bool, ps: seq<Piece>)
    ensures Glued(PartsOf(isCommit, ps), "") == Plain(ps)
    ensures Glued(PartsOf(isCommit, ps), Flag()) == Rebuilt(isCommit, ps)
  {
    hide Glued, PartsOf, Contains, Flag;
    if ps == [] {
      GluedOne(isCommit);
    } else {
      GluedPieces(isCommit, ps[1..]);
      GluedPiece(isCommit, ps, "");
      GluedPiece(isCommit, ps, Flag());
      var p, k := ps[0], PointIn(ps[0].body, ps[0].inject);
      assert p.body[..k] + "" + p.body[k..] == p.body;
    }
  }

  lemma GluedOne(isCommit: Text -> bool)
    ensures Glued(PartsOf(isCommit, []), "") == [] && Glued(PartsOf(isCommit, []), Flag()) == []
  {
  }

  lemma GluedPiece(isCommit: Text -> bool, ps: seq<Piece>, glue: Text)
    requires ps != []
    ensures var p, k := ps[0], PointIn(ps[0].body, ps[0].inject);
            Glued(PartsOf(isCommit, ps), glue) ==
            (if NeedsTrailer(isCommit, p.body) then p.body[..k] + glue + p.body[k..] else p.body) + p.sep
            + Glued(PartsOf(isCommit, ps[1..]), glue)
  {
    hide Glued, Contains, Flag;
    var p, k, rest := ps[0], PointIn(ps[0].body, ps[0].inject), PartsOf(isCommit, ps[1..]);
    if NeedsTrailer(isCommit, p.body) {
      var tail := [p.body[k..] + p.sep + rest[0]] + rest[1..];
      assert PartsOf(isCommit, ps) == [p.body[..k]] + tail;
      GluedFront(p.body[..k], tail, glue);
      GluedHead(p.body[k..] + p.sep, rest, glue);
      assert p.body[..k] + glue + (p.body[k..] + p.sep + Glued(rest, glue)) ==
             p.body[..k] + glue + p.body[k..] + p.sep + Glued(rest, glue);
    } else {
      GluedHead(p.body + p.sep, rest, glue);
    }
  }

  lemma {:induction false} PiecesCover(r: Text, pending: seq<Heredoc>)
    ensures var o := Pieces(r, pending); o.Some? ==> Plain(o.value) == r
    decreases |r|
  {
    hide ScanOne;
    var g := ScanOne(r, Start(pending));
    if g.Some? {
      var k := g.value.len + g.value.sep;
      ThreeParts(r, g.value.len, k);
      if g.value.sep > 0 { PiecesCover(r[k..], g.value.pending); }
    }
  }

  lemma ThreeParts(r: Text, a: nat, b: nat)
    requires a <= b <= |r|
    ensures r == r[..a] + r[a..b] + r[b..]
  {
  }

  /** The output is the command with copies of the flag inserted: the same parts,
      joined by the flag instead of by nothing. */
  lemma OnlyInserts(isCommit: Text -> bool, command: Text) returns (parts: seq<Text>)
    ensures Glued(parts, "") == command
    ensures Glued(parts, Flag()) == Enforce(isCommit, command)
  {
    var o := Pieces(command, []);
    if command == "" || o.None? { return [command]; }
    PiecesCover(command, []);
    GluedPieces(isCommit, o.value);
    parts := PartsOf(isCommit, o.value);
  }
}
