/** Why the rewriter's idempotence needs its condition: a command whose flag goes
    right after the backslash of an escaped heredoc delimiter. */
module CommitBackslash {
  import opened Strings
  import opened Wrappers
  import opened ShellScan
  import opened ShellLocality
  import opened CommitTrailer
  import opened CommitRescan

  const HEAD: Text := "git commit "
  const OPERATOR: Text := "<<\\"
  const LATER: Text := "git commit"
  const QUOTED: Text := "'\n --trailer\n" + LATER

  /** `git commit <<\ ` with a body that ends in a line of one blank, then a quoted
      text with a line ` --trailer` and what looks like a commit. */
  const COMMAND: Text := HEAD + OPERATOR + " \n \n" + QUOTED

  /** The first segment: the heredoc, up to its delimiter line. */
  const SEGMENT: Text := HEAD + OPERATOR + " \n "

  // ---------------------------------------------------------------------
  // The first scan

  lemma HeadPlain()
    ensures forall i :: 0 <= i < |HEAD| ==> IsPlain(HEAD[i])
    ensures forall i :: 0 <= i < |LATER| ==> IsPlain(LATER[i])
    ensures |MARK| == 23 && |HEAD| == 11 && |LATER| == 10
  {
  }

  /** Inside single quotes everything but a quote and a backslash is taken as is. */
  lemma {:induction false} SingleRun(x: Text, st: Lex)
    requires !st.esc && st.inSingle && st.pending == []
    requires forall i :: 0 <= i < |x| ==> x[i] != '\'' && x[i] != '\\'
    ensures ScanOne(x, st) == Some(Segment(|x|, None, 0, []))
  {
    hide HeredocAt, BodyLength, ScanOne;
    if x == [] {
      ScanEmpty(st);
    } else {
      ScanUnfolds(x, st);
      assert Step(x, st) == Go(1, st, false);
      SingleRun(x[1..], st);
    }
  }

  /** A heredoc operator whose delimiter is `word` after an escaped blank. */
  lemma EscapedOperator(r: Text, word: Text, n: nat)
    requires |r| >= 4 && r[0] == '<' && r[1] == '<' && r[2] == '\\'
    requires DelimWord(r[4..]) == Some(Word(word, n))
    ensures ScanOne(r, Start([])) == Longer(ScanOne(r[4 + n..], Start([Heredoc([r[3]] + word, false)])), 4 + n, false)
  {
    hide ScanOne, DelimWord, BodyLength;
    assert r[2..][0] == '\\' && r[2..][1] == r[3] && r[2..][2..] == r[4..];
    WordCases(r[2..]);
    assert SkipBlanks(r[2..]) == 0 && r[2 + 0..] == r[2..];
    var h := Heredoc([r[3]] + word, false);
    assert HeredocAt(r) == Some(Operator(h, 4 + n));
    assert Start([]).(pending := Start([]).pending + [h]) == Start([h]);
    hide HeredocAt;
    ScanUnfolds(r, Start([]));
  }

  /** The body and the separator after it. */
  lemma BodyThenCut(r: Text, h: Heredoc, n: nat)
    requires |r| > n > 0 && r[0] == '\n' && BodyLength(r, [h]) == Some(n) && r[n] == '\n'
    ensures ScanOne(r, Start([h])) == Some(Segment(n, Some(0), 1, []))
  {
    hide HeredocAt, BodyLength, ScanOne;
    ScanUnfolds(r, Start([h]));
    BodyGo(r, Start([h]));
    assert Start([h]).(pending := []) == Start([]);
    assert r[n..][0] == '\n';
    ScanUnfolds(r[n..], Start([]));
  }

  /** One body line. */
  lemma BodyLine(line: Text, rest: Text, h: Heredoc)
    requires forall i :: 0 <= i < |line| ==> line[i] != '\n'
    requires rest != [] && rest[0] == '\n' && !h.stripTabs
    ensures BodyLength(['\n'] + line + rest, [h]) ==
            if line == h.delim then Some(1 + |line|) else Further(BodyLength(rest, [h]), 1 + |line|)
  {
    hide BodyLength, ClosesHeredoc, IndexOf;
    var r, m := ['\n'] + line + rest, 1 + |line|;
    LineOf(line, rest);
    BodyCases(r, [h]);
    BodyCases(rest, []);
    assert [h][1..] == [];
    assert ClosesHeredoc(line, h) <==> line == h.delim by { PlainDelimiter(line, h); }
  }

  lemma PlainDelimiter(line: Text, h: Heredoc)
    requires !h.stripTabs
    ensures ClosesHeredoc(line, h) <==> line == h.delim
  {
  }

  lemma LineOf(line: Text, rest: Text)
    requires forall i :: 0 <= i < |line| ==> line[i] != '\n'
    requires rest != [] && rest[0] == '\n'
    ensures var r := ['\n'] + line + rest;
            IndexOf(r[1..], '\n') == |line| && r[1..1 + |line|] == line && r[1 + |line|..] == rest
  {
    hide IndexOf;
    var r := ['\n'] + line + rest;
    assert r[1..] == line + rest;
    IndexIs(r[1..], '\n', |line|);
  }

  lemma FirstScan()
    ensures ScanOne(COMMAND, Start([])) == Some(Segment(17, Some(15), 1, []))
  {
    hide ScanOne, BodyLength, DelimWord;
    HeadPlain();
    var r1 := OPERATOR + " \n \n" + QUOTED;
    assert COMMAND == HEAD + r1;
    PlainRun(HEAD, r1, Start([]));
    WordCases(r1[4..]);
    EscapedOperator(r1, [], 0);
    assert [' '] + [] == " ";
    var r2, rest := r1[4..], ['\n'] + QUOTED;
    assert r2 == ['\n'] + " " + rest;
    BodyLine(" ", rest, Heredoc(" ", false));
    BodyThenCut(r2, Heredoc(" ", false), 2);
  }

  lemma FirstPieces()
    ensures Pieces(COMMAND, []) == Some([Piece(SEGMENT, Some(15), "\n"), Piece(QUOTED, None, "")])
  {
    hide ScanOne, BodyLength, DelimWord, Pieces;
    FirstScan();
    PiecesUnfold(COMMAND, []);
    assert COMMAND[..17] == SEGMENT && COMMAND[17..18] == "\n" && COMMAND[18..] == QUOTED;
    var body := QUOTED[1..];
    assert QUOTED == ['\''] + body;
    var quoted := Toggled(Start([]));
    QuoteStep(body, Start([]), quoted);
    SingleRun(body, quoted);
    PiecesUnfold(QUOTED, []);
    assert QUOTED[..|QUOTED|] == QUOTED && QUOTED[|QUOTED|..|QUOTED|] == "";
    assert Pieces(QUOTED, []) == Some([Piece(QUOTED, None, "")]);
    var first, last := Piece(SEGMENT, Some(15), "\n"), Piece(QUOTED, None, "");
    assert [first] + [last] == [first, last];
  }

  /** What the rewriter makes of it. */
  function Once(): Text { HEAD + OPERATOR + Flag() + (" \n \n" + QUOTED) }

  /** The first segment: where its flag goes, and that it holds no mark yet. */
  lemma FirstSegmentPoint()
    ensures !Contains(SEGMENT, MARK) && PointIn(SEGMENT, Some(15)) == 14
    ensures SEGMENT[..14] == HEAD + OPERATOR && SEGMENT[14..] == " \n "
  {
    HeadPlain();
    assert SEGMENT[..15] == HEAD + OPERATOR + " ";
    assert (HEAD + OPERATOR + " ")[..14] == HEAD + OPERATOR;
    assert TrimmedLength(HEAD + OPERATOR) == 14;
  }

  lemma RebuiltTwo(isCommit: Text -> bool, p: Piece, q: Piece)
    requires q.sep == ""
    ensures Rebuilt(isCommit, [p, q]) == Patched(isCommit, p) + p.sep + Patched(isCommit, q)
  {
    hide Patched;
    assert [p, q][1..] == [q] && [q][1..] == [];
    assert Rebuilt(isCommit, [q]) == Patched(isCommit, q) + "" + [] == Patched(isCommit, q);
  }

  lemma FirstPatched(isCommit: Text -> bool)
    requires isCommit(SEGMENT)
    ensures Patched(isCommit, Piece(SEGMENT, Some(15), "\n")) == HEAD + OPERATOR + Flag() + " \n "
  {
    FirstSegmentPoint();
    hide Flag, Contains, PointIn;
  }

  lemma FirstPass(isCommit: Text -> bool)
    requires isCommit(SEGMENT) && !isCommit(QUOTED)
    ensures Enforce(isCommit, COMMAND) == Once()
  {
    hide Pieces, Flag, Contains, PointIn, Rebuilt;
    FirstPieces();
    FirstPatched(isCommit);
    RebuiltTwo(isCommit, Piece(SEGMENT, Some(15), "\n"), Piece(QUOTED, None, ""));
    Joined(HEAD + OPERATOR + Flag());
  }

  lemma Joined(front: Text)
    ensures front + " \n " + "\n" + QUOTED == front + (" \n \n" + QUOTED)
  {
  }

  // ---------------------------------------------------------------------
  // The second scan

  /** Everything from the operator on, in the output. */
  function Rest(): Text { " \n \n" + QUOTED }

  /** The injected flag after its first blank and the word behind it. */
  function FlagTail(): Text { [' '] + (['\''] + ((MARK + " ") + (['<'] + (MAIL + (['\''] + Rest()))))) }

  lemma {:induction false} WordRun(x: Text, r: Text)
    requires forall i :: 0 <= i < |x| ==> !EndsWord(x[i]) && x[i] != '\'' && x[i] != '"' && x[i] != '\\'
    requires r != [] && EndsWord(r[0])
    ensures DelimWord(x + r) == Some(Word(x, |x|))
  {
    hide DelimWord;
    WordCases(x + r);
    if x == [] {
      assert x + r == r;
    } else {
      assert (x + r)[1..] == x[1..] + r;
      WordRun(x[1..], r);
      PrefixedEnd([x[0]], 1);
      assert [x[0]] + x[1..] == x;
    }
  }

  /** The escaped blank and the flag's first word become the delimiter. */
  lemma SecondOperator()
    ensures ScanOne(Once(), Start([])) ==
            Longer(ScanOne(FlagTail(), Start([Heredoc(" --trailer", false)])), 24, false)
  {
    hide ScanOne, DelimWord, IsPlain, FlagTail, Once;
    HeadPlain();
    var word := "--trailer";
    var r := OPERATOR + " " + word + FlagTail();
    OnceText();
    PlainRun(HEAD, r, Start([]));
    OperatorText(word, FlagTail());
    WordRun(word, FlagTail());
    EscapedOperator(r, word, 9);
    assert [' '] + word == " --trailer";
    LongerTwice(ScanOne(FlagTail(), Start([Heredoc(" --trailer", false)])), 13, 11);
  }

  lemma Regroup(x: Text, q: Text, a: Text, b: Text, c: Text, r: Text)
    ensures x + q + a + b + c + q + r == x + (q + (a + (b + (c + (q + r)))))
  {
  }

  lemma Ungroup(h: Text, o: Text, w: Text, f: Text, t: Text)
    ensures h + o + f + t == h + (o + (f + t))
    ensures o + (w + [' '] + t) == o + w + ([' '] + t)
  {
  }

  lemma OnceText()
    ensures Once() == HEAD + (OPERATOR + " " + "--trailer" + FlagTail())
    ensures FlagTail() != [] && FlagTail()[0] == ' '
  {
    var tail := ['\''] + ((MARK + " ") + (['<'] + (MAIL + (['\''] + Rest()))));
    Regroup(LEAD, ['\''], MARK + " ", ['<'], MAIL, Rest());
    assert Flag() + Rest() == LEAD + tail;
    FlagWords(tail);
    Ungroup(HEAD, OPERATOR, " " + "--trailer", Flag(), Rest());
    Ungroup(HEAD, OPERATOR, " " + "--trailer", Flag(), tail);
  }

  lemma FlagWords(tail: Text)
    ensures LEAD + tail == " " + "--trailer" + [' '] + tail
    ensures OPERATOR + (" " + "--trailer") == OPERATOR + " " + "--trailer"
  {
  }

  lemma OperatorText(word: Text, t: Text)
    ensures var r := OPERATOR + " " + word + t;
            && |r| >= 4 && r[0] == '<' && r[1] == '<' && r[2] == '\\' && r[3] == ' '
            && r[4..] == word + t && r[4 + |word|..] == t
  {
  }

  /** The rest of the flag and the blank after it change nothing. */
  lemma FlagTailRun(st: Lex)
    requires !st.esc
    ensures ScanOne(FlagTail(), st) == Longer(ScanOne(Rest()[1..], st), |FlagTail()| - |Rest()| + 1, false)
  {
    hide ScanOne, Step, IsPlain;
    PlainParts();
    var quoted := Toggled(st);
    var r1 := ['\''] + Rest();
    var r2 := MAIL + r1;
    var r3 := ['<'] + r2;
    var r4 := (MARK + " ") + r3;
    BlankStep(Rest()[1..], st);
    assert Rest() == [' '] + Rest()[1..];
    QuoteStep(Rest(), quoted, st);
    PlainRun(MAIL, r1, quoted);
    AngleStep(r2, quoted);
    PlainRun(MARK + " ", r3, quoted);
    QuoteStep(r4, st, quoted);
    BlankStep(['\''] + r4, st);
    TailLength(ScanOne(Rest()[1..], st));
  }

  lemma BlankStep(r: Text, st: Lex)
    requires !st.esc
    ensures ScanOne([' '] + r, st) == Longer(ScanOne(r, st), 1, false)
  {
    hide ScanOne;
    PlainRun([' '], r, st);
  }

  lemma TailLength(s: Option<Segment>)
    ensures Longer(Longer(Longer(Longer(Longer(Longer(Longer(s, 1, false), 1, false), |MAIL|, false), 1, false),
                                 |MARK + " "|, false), 1, false), 1, false)
            == Longer(s, |FlagTail()| - |Rest()| + 1, false)
  {
  }

  /** The heredoc now reaches to the line ` --trailer`. */
  lemma SecondBody()
    ensures ScanOne(Rest()[1..], Start([Heredoc(" --trailer", false)])) == Some(Segment(15, Some(0), 1, []))
    ensures Rest()[1..][16..] == LATER && Rest()[1..][15] == '\n'
  {
    hide ScanOne, BodyLength;
    var h := Heredoc(" --trailer", false);
    var r3 := ['\n'] + LATER;
    var r2 := ['\n'] + " --trailer" + r3;
    var r1 := ['\n'] + "'" + r2;
    var r := ['\n'] + " " + r1;
    assert Rest()[1..] == r;
    BodyLine(" --trailer", r3, h);
    BodyLine("'", r2, h);
    BodyLine(" ", r1, h);
    assert r[15] == '\n' && r[16..] == LATER;
    BodyThenCut(r, h, 15);
  }

  /** The second scan finds a commit the first one saw inside quotes. */
  lemma SecondPieces() returns (p: Piece)
    ensures Pieces(Once(), []) == Some([p, Piece(LATER, None, "")])
    ensures p.body + p.sep + LATER == Once()
  {
    hide ScanOne, BodyLength, DelimWord, Pieces, IsPlain, Longer;
    SecondOperator();
    FlagTailRun(Start([Heredoc(" --trailer", false)]));
    SecondBody();
    var g := SecondSegment();
    PiecesUnfold(Once(), []);
    p := Piece(Once()[..g.len], g.inject, Once()[g.len..g.len + g.sep]);
    HeadPlain();
    PlainRun(LATER, [], Start([]));
    ScanEmpty(Start([]));
    assert LATER + [] == LATER && LATER[..10] == LATER && LATER[10..10] == "";
    PiecesUnfold(LATER, []);
    LaterScan();
    ThreeParts(Once(), g.len, g.len + g.sep);
    assert [p] + [Piece(LATER, None, "")] == [p, Piece(LATER, None, "")];
  }

  lemma LaterScan()
    ensures Longer(Some(Segment(0, None, 0, [])), 10, false) == Some(Segment(10, None, 0, []))
  {
  }

  lemma SecondSegment() returns (g: Segment)
    ensures ScanOne(Once(), Start([])) == Some(g) && g.sep == 1 && g.pending == []
    ensures Once()[g.len + 1..] == LATER
  {
    hide ScanOne, BodyLength, DelimWord, IsPlain;
    SecondOperator();
    FlagTailRun(Start([Heredoc(" --trailer", false)]));
    SecondBody();
    g := ScanOne(Once(), Start([])).value;
    var n := 24 + |FlagTail()| - |Rest()| + 1;
    assert g.len == n + 15;
    assert Once()[n..] == Rest()[1..];
    assert Once()[n..][16..] == Once()[n + 16..];
  }

  /** On this command the rewriter is not idempotent, for every way of recognising
      commits that takes the two commit segments and not the quoted text: the flag
      it inserts becomes part of the heredoc delimiter. */
  lemma NotIdempotentAfterBackslash(isCommit: Text -> bool)
    requires isCommit(SEGMENT) && !isCommit(QUOTED) && isCommit(LATER)
    ensures Enforce(isCommit, Enforce(isCommit, COMMAND)) != Enforce(isCommit, COMMAND)
    ensures !Safe(isCommit, COMMAND)
  {
    hide Pieces, Flag, Once, PointIn;
    FirstPass(isCommit);
    var p := SecondPieces();
    HeadPlain();
    var q := Piece(LATER, None, "");
    assert !Contains(LATER, MARK);
    assert [p, q][1..] == [q] && [q][1..] == [];
    FlagOneLine();
    assert |Rebuilt(isCommit, [q])| == |LATER| + |Flag()|;
    assert |Rebuilt(isCommit, [p, q])| > |Once()|;
    UnsafeCommand(isCommit);
  }

  /** Plain text before an operator. */
  lemma {:induction false} InsideAfterPlain(x: Text, r: Text, st: Lex, p: nat)
    requires !st.esc && (forall i :: 0 <= i < |x| ==> IsPlain(x[i])) && p > 0
    ensures InsideOperator(x + r, st, |x| + p) == InsideOperator(r, st, p)
  {
    if x == [] {
      assert x + r == r;
    } else {
      InsideAfterPlain(x[1..], r, st, p);
      assert (x + r)[1..] == x[1..] + r && (x + r)[0] == x[0];
      PlainGo(x + r, st);
    }
  }

  lemma PlainGo(r: Text, st: Lex)
    requires !st.esc && r != [] && IsPlain(r[0])
    ensures Step(r, st) == Go(1, st, false)
  {
  }

  /** Its flag would go into the escaped delimiter. */
  lemma UnsafeCommand(isCommit: Text -> bool)
    requires isCommit(SEGMENT)
    ensures !Safe(isCommit, COMMAND)
  {
    hide Pieces, ScanOne, InsideOperator, Contains, PointIn, DelimWord;
    FirstPieces();
    FirstScan();
    HeadPlain();
    FirstSegmentPoint();
    assert COMMAND[..17] == SEGMENT;
    var r := OPERATOR + " \n \n" + QUOTED;
    assert COMMAND == HEAD + r;
    InsideAfterPlain(HEAD, r, Start([]), 3);
    WordCases(r[4..]);
    OperatorInside(r);
  }

  lemma OperatorInside(r: Text)
    requires |r| >= 4 && r[0] == '<' && r[1] == '<' && r[2] == '\\' && DelimWord(r[4..]) == Some(Word([], 0))
    ensures InsideOperator(r, Start([]), 3)
  {
    hide DelimWord, BodyLength;
    assert r[2..][0] == '\\' && r[2..][1] == r[3] && r[2..][2..] == r[4..];
    WordCases(r[2..]);
    assert SkipBlanks(r[2..]) == 0 && r[2 + 0..] == r[2..];
  }
}
