/** What the rewriter does with plain commands in a row (internal/agent/commit_policy.go):
    each of them on its own, whichever separator stands between. */
module CommitPlain {
  import opened Strings
  import opened Wrappers
  import opened ShellScan
  import opened ShellLocality
  import opened CommitTrailer

  /** Text without quotes, escapes, substitutions, heredocs and separators. */
  predicate AllPlain(s: Text) { forall i :: 0 <= i < |s| ==> IsPlain(s[i]) }

  predicate IsSeparator(s: Text) { s == ";" || s == "\n" || s == "|" || s == "||" || s == "&&" }

  lemma PlainSegment(a: Text)
    requires AllPlain(a)
    ensures Pieces(a, []) == Some([Piece(a, None, "")])
  {
    hide ScanOne, IsPlain;
    PlainRun(a, [], Start([]));
    assert a + [] == a;
    EndOfScan();
    PiecesUnfold(a, []);
    assert a[..|a|] == a && a[|a|..|a|] == "";
  }

  lemma EndOfScan()
    ensures ScanOne([], Start([])) == Some(Segment(0, None, 0, []))
  {
  }

  /** A separator ends the segment, whatever is behind it. */
  lemma SeparatorCuts(sep: Text, b: Text)
    requires IsSeparator(sep) && (b != "" ==> b[0] != '|')
    ensures ScanOne(sep + b, Start([])) == Some(Segment(0, None, |sep|, []))
  {
    hide ScanOne;
    var r := sep + b;
    assert r[0] == sep[0] && (|sep| == 2 ==> r[1] == sep[1]) && (|sep| == 1 && b != "" ==> r[1] == b[0]);
    ScanUnfolds(r, Start([]));
  }

  lemma SeparatedPieces(a: Text, sep: Text, b: Text)
    requires AllPlain(a) && AllPlain(b) && IsSeparator(sep)
    ensures Pieces(a + sep + b, []) == Some([Piece(a, None, sep), Piece(b, None, "")])
  {
    hide ScanOne, Pieces;
    var r := a + sep + b;
    assert r == a + (sep + b);
    PlainRun(a, sep + b, Start([]));
    SeparatorCuts(sep, b);
    PiecesUnfold(r, []);
    assert r[..|a|] == a && r[|a|..|a| + |sep|] == sep && r[|a| + |sep|..] == b;
    PlainSegment(b);
    assert [Piece(a, None, sep)] + [Piece(b, None, "")] == [Piece(a, None, sep), Piece(b, None, "")];
  }

  /** A plain command gets the flag exactly when it is a commit without the mark, before
      the blanks at its end. */
  lemma EnforcePlain(isCommit: Text -> bool, words: Text, blanks: Text)
    requires AllPlain(words + blanks) && words != "" && !IsBlank(words[|words| - 1]) && AllBlank(blanks)
    ensures Enforce(isCommit, words + blanks) ==
            if isCommit(words + blanks) && !Contains(words + blanks, MARK) then words + Flag() + blanks else words + blanks
  {
    hide Pieces, Flag, Contains;
    var a := words + blanks;
    PlainSegment(a);
    TrimmedIs(words, blanks);
    assert a[..|words|] == words && a[|words|..] == blanks;
    OnePiece(isCommit, Piece(a, None, ""));
  }

  lemma OnePiece(isCommit: Text -> bool, p: Piece)
    requires p.sep == ""
    ensures Rebuilt(isCommit, [p]) == Patched(isCommit, p)
  {
    hide Patched;
    assert Rebuilt(isCommit, [p][1..]) == [];
  }

  lemma {:induction false} TrimmedIs(words: Text, blanks: Text)
    requires words != "" && !IsBlank(words[|words| - 1]) && AllBlank(blanks)
    ensures TrimmedLength(words + blanks) == |words|
  {
    var s := words + blanks;
    if blanks == "" {
      assert s == words;
    } else {
      var init := blanks[..|blanks| - 1];
      assert s[..|s| - 1] == words + init && s[|s| - 1] == blanks[|blanks| - 1];
      TrimmedIs(words, init);
    }
  }

  /** Two plain commands, one behind the other: each is rewritten as if it stood alone, and
      the separator between them stays. */
  lemma EnforceSeparated(isCommit: Text -> bool, a: Text, sep: Text, b: Text)
    requires AllPlain(a) && AllPlain(b) && IsSeparator(sep) && !isCommit("")
    ensures Enforce(isCommit, a + sep + b) == Enforce(isCommit, a) + sep + Enforce(isCommit, b)
  {
    hide Pieces, Flag, Contains, AllPlain;
    SeparatedPieces(a, sep, b);
    PlainSegment(a);
    PlainSegment(b);
    var p, q := Piece(a, None, sep), Piece(b, None, "");
    OnePiece(isCommit, Piece(a, None, ""));
    OnePiece(isCommit, q);
    TwoPieces(isCommit, p, q);
  }

  lemma TwoPieces(isCommit: Text -> bool, p: Piece, q: Piece)
    requires q.sep == ""
    ensures Rebuilt(isCommit, [p, q]) == Patched(isCommit, p) + p.sep + Patched(isCommit, q)
  {
    hide Patched;
    assert [p, q][1..] == [q];
    OnePiece(isCommit, q);
  }
}
