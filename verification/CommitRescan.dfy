/** Running the trailer rewriter twice: scanning its own output resynchronises
    after every inserted flag and finds the same segments, shifted, or refuses. */
module CommitRescan {
  import opened Strings
  import opened Wrappers
  import opened ShellScan
  import opened ShellLocality
  import opened CommitTrailer

  // ---------------------------------------------------------------------
  // The flag leaves the lexer state as it found it

  lemma PlainParts()
    ensures forall i :: 0 <= i < |LEAD| ==> IsPlain(LEAD[i])
    ensures forall i :: 0 <= i < |MARK + " "| ==> IsPlain((MARK + " ")[i])
    ensures forall i :: 0 <= i < |MAIL| ==> IsPlain(MAIL[i])
  {
  }

  lemma FlagText(r: Text)
    ensures Flag() + r == LEAD + (['\''] + ((MARK + " ") + (['<'] + (MAIL + (['\''] + r)))))
  {
  }

  lemma FlagRun(r: Text, st: Lex)
    requires !st.esc
    ensures ScanOne(Flag() + r, st) == Longer(ScanOne(r, st), |Flag()|, false)
  {
    hide ScanOne, Step, IsPlain;
    PlainParts();
    var quoted := Toggled(st);
    var r1 := ['\''] + r;
    var r2 := MAIL + r1;
    var r3 := ['<'] + r2;
    var r4 := (MARK + " ") + r3;
    FlagText(r);
    QuoteStep(r, quoted, st);
    PlainRun(MAIL, r1, quoted);
    AngleStep(r2, quoted);
    PlainRun(MARK + " ", r3, quoted);
    QuoteStep(r4, st, quoted);
    PlainRun(LEAD, ['\''] + r4, st);
    FlagLength(ScanOne(r, st));
  }

  /** Behind an escaping backslash the flag's first blank is what is escaped. */
  lemma EscapedFlag(r: Text, st: Lex, g: Segment)
    requires st.esc && ScanOne(r, st) == Some(g) && Point(g) <= |r| && AllBlank(r[..Point(g)])
    ensures ScanOne(Flag() + r, st) == Longer(Some(g), |Flag()|, false)
  {
    hide ScanOne, HeredocAt, BodyLength, Flag;
    var st' := st.(esc := false);
    FlagOneLine();
    BlankEscaped(Flag() + r, st);
    FlagRun(r, st');
    if r == [] {
      ScanEmpty(st);
      ScanEmpty(st');
    } else {
      ScanUnfolds(r, st);
      assert r[..Point(g)][0] == r[0];
      BlankEscaped(r, st);
    }
  }

  lemma BlankEscaped(r: Text, st: Lex)
    requires st.esc && r != [] && IsBlank(r[0])
    ensures ScanOne(r, st) == ScanOne(r, st.(esc := false))
  {
    hide ScanOne, HeredocAt, BodyLength;
    ScanUnfolds(r, st);
    ScanUnfolds(r, st.(esc := false));
  }

  lemma FlagLength(s: Option<Segment>)
    ensures Longer(Longer(Longer(Longer(Longer(Longer(s, 1, false), |MAIL|, false), 1, false),
                                 |MARK + " "|, false), 1, false), |LEAD|, false)
            == Longer(s, |Flag()|, false)
  {
  }

  /** The state after a single quote. */
  function Toggled(st: Lex): Lex { if st.inDouble then st else st.(inSingle := !st.inSingle) }

  lemma QuoteMove(t: Text, st: Lex)
    requires t != [] && t[0] == '\'' && !st.esc
    ensures Step(t, st) == Go(1, Toggled(st), false)
  {
    hide HeredocAt, BodyLength;
  }

  lemma QuoteStep(r: Text, st: Lex, st': Lex)
    requires !st.esc && st' == Toggled(st)
    ensures ScanOne(['\''] + r, st) == Longer(ScanOne(r, st'), 1, false)
    ensures Toggled(st') == st
  {
    hide ScanOne, Step, Longer;
    QuoteMove(['\''] + r, st);
    OneStep('\'', r, st, st');
  }

  lemma AngleStep(r: Text, st: Lex)
    requires !st.esc && r != [] && r[0] != '<'
    ensures ScanOne(['<'] + r, st) == Longer(ScanOne(r, st), 1, false)
  {
    hide ScanOne, HeredocAt, BodyLength;
    OneStep('<', r, st, st);
  }

  // ---------------------------------------------------------------------
  // Inserting the flag into one segment

  /** Where flags for the segment go, before trimming blanks. */
  function Point(g: Segment): nat { if g.inject.Some? then g.inject.value else g.len }

  predicate EndsSegment(c: char) { c == '\n' || c == ';' || c == '|' || c == '&' }

  lemma {:induction false} PointChar(r: Text, st: Lex, g: Segment)
    requires ScanOne(r, st) == Some(g)
    ensures Point(g) <= |r|
    ensures Point(g) < |r| ==> EndsSegment(r[Point(g)])
    decreases |r|
  {
    hide HeredocAt, BodyLength, ScanOne;
    if r == [] {
      ScanEmpty(st);
    } else {
      ScanUnfolds(r, st);
      if Step(r, st).Go? {
        var n := Step(r, st).n;
        PointChar(r[n..], Step(r, st).st, ScanOne(r[n..], Step(r, st).st).value);
      }
    }
  }

  lemma ScanEmpty(st: Lex)
    ensures ScanOne([], st) == if st.pending != [] then None else Some(Segment(0, None, 0, []))
  {
  }

  /** A heredoc operator begins here. */
  predicate AtOperator(r: Text, st: Lex) {
    |r| > 1 && !st.esc && st.Bare() && r[0] == '<' && r[1] == '<' && !(|r| > 2 && r[2] == '<')
  }

  /** Offset `p` lies strictly inside a heredoc operator of the scan. */
  predicate InsideOperator(r: Text, st: Lex, p: nat)
    decreases |r|
  {
    p > 0 && r != [] && Step(r, st).Go? &&
    var n := Step(r, st).n;
    if p < n then AtOperator(r, st) else InsideOperator(r[n..], Step(r, st).st, p - n)
  }

  /** A jump over blanks up to the point is the operator of an escaped blank. */
  lemma JumpOverBlanks(r: Text, st: Lex, n: nat, p: nat, q: nat)
    requires r != [] && Step(r, st).Go? && Step(r, st).n == n && !OpensBody(r, st)
    requires 0 < p < n <= q <= |r| && AllBlank(r[p..q])
    ensures AtOperator(r, st)
  {
    hide HeredocAt, BodyLength;
    assert r[p..q][0] == r[p];
    if p + 1 < n { assert r[p..q][1] == r[p + 1]; }
  }

  /** A point inside an operator, at which flags would go, has an escaping backslash before
      it: so a command without one there is safe. */
  lemma {:induction false} InsideIsEscaped(r: Text, st: Lex, p: nat, g: Segment)
    requires ScanOne(r, st) == Some(g) && 0 < p <= Point(g) <= |r| && AllBlank(r[p..Point(g)]) && !IsBlank(r[p - 1])
    requires InsideOperator(r, st, p)
    ensures r[p - 1] == '\\'
    decreases |r|
  {
    hide HeredocAt, BodyLength, ScanOne, Step;
    ScanUnfolds(r, st);
    var n := Step(r, st).n;
    if p < n {
      forall i | p <= i < n ensures IsBlank(r[i]) { InsideSegment(r, st, g, p, i); }
      OperatorStep(r, st);
      BlankDelimiterEnd(r, n, p);
    } else {
      var g' := ScanOne(r[n..], Step(r, st).st).value;
      if p > n { NotBody(r, st, p, g); }
      assert r[n..][p - n..Point(g) - n] == r[p..Point(g)];
      InsideIsEscaped(r[n..], Step(r, st).st, p - n, g');
    }
  }

  lemma NotBody(r: Text, st: Lex, p: nat, g: Segment)
    requires r != [] && ScanOne(r, st) == Some(g) && Step(r, st).Go? && 0 < p <= Point(g)
    ensures !Step(r, st).body
  {
    hide ScanOne, Step;
    ScanUnfolds(r, st);
  }

  lemma InsideSegment(r: Text, st: Lex, g: Segment, p: nat, i: nat)
    requires r != [] && ScanOne(r, st) == Some(g) && Step(r, st).Go? && 0 < p <= Point(g) <= |r|
    requires p <= i < Step(r, st).n && AllBlank(r[p..Point(g)])
    ensures i < |r| && IsBlank(r[i])
  {
    hide ScanOne, Step;
    NotBody(r, st, p, g);
    ScanUnfolds(r, st);
    assert r[p..Point(g)][i - p] == r[i];
  }

  lemma OperatorStep(r: Text, st: Lex)
    requires AtOperator(r, st) && Step(r, st).Go?
    ensures HeredocAt(r).Some? && HeredocAt(r).value.n == Step(r, st).n
  {
    hide HeredocAt, BodyLength;
  }

  lemma BlankDelimiterEnd(r: Text, n: nat, p: nat)
    requires |r| >= 2 && HeredocAt(r).Some? && HeredocAt(r).value.n == n
    requires 0 < p < n && !IsBlank(r[p - 1]) && forall i :: p <= i < n ==> IsBlank(r[i])
    ensures r[p - 1] == '\\'
  {
    hide HeredocAt, DelimWord;
    var k := WordStart(r);
    HeredocParts(r);
    WordLast(r[k..]);
    assert r[k..][n - k - 1] == r[n - 1];
    assert n - k >= 2;
    assert r[k..][n - k - 2] == r[n - 2];
  }

  /** Inside `$(` and with no heredoc queued, no point is right here. */
  lemma DeepPoint(r: Text, st: Lex, g: Segment)
    requires r != [] && ScanOne(r, st) == Some(g) && st.stack != [] && st.pending == []
    ensures Point(g) > 0
  {
    hide HeredocAt, BodyLength, ScanOne;
    ScanUnfolds(r, st);
  }

  lemma {:induction false} TabsInsert(x: Text, q: nat, y: Text)
    requires q <= |x| && y != [] && y[0] == ' '
    ensures LeadTabs(Insert(x, q, y)) <= LeadTabs(x)
  {
    var z := Insert(x, q, y);
    if q > 0 && x[0] == '\t' {
      TabsInsert(x[1..], q - 1, y);
      assert z[1..] == Insert(x[1..], q - 1, y);
    }
  }

  /** A delimiter line with the flag in it is no delimiter line. */
  lemma NotClosed(line: Text, q: nat, y: Text, h: Heredoc)
    requires q <= |line| && ClosesHeredoc(line, h) && y != [] && y[0] == ' '
    ensures !ClosesHeredoc(Insert(line, q, y), h)
  {
    hide LeadTabs;
    TabsInsert(line, q, y);
  }

  lemma FlagOneLine()
    ensures Flag() != [] && Flag()[0] == ' ' && '\n' !in Flag()
  {
  }

  /** Text put into the last line of the last heredoc body: it never ends. */
  lemma {:induction false} BodyRefuses(r: Text, p: nat, y: Text, pending: seq<Heredoc>)
    requires pending != [] && BodyLength(r, pending) == Some(|r|) && 0 < p <= |r|
    requires forall i :: p <= i < |r| ==> r[i] != '\n'
    requires y != [] && y[0] == ' ' && '\n' !in y
    ensures BodyLength(Insert(r, p, y), pending) == None
    decreases |r|
  {
    hide BodyLength, ClosesHeredoc, IndexOf, Insert, AfterLine;
    var t, m := Insert(r, p, y), 1 + IndexOf(r[1..], '\n');
    var after := AfterLine(r[1..m], pending);
    BodyCases(r, pending);
    BodyCases(r[m..], after);
    BodyCases(t, pending);
    if m < |r| {
      assert r[1..][m - 1] == r[m];
      EarlierLine(r, p, y, m);
      BodyRefuses(r[m..], p - m, y, after);
    } else {
      LastLine(r, p, y);
      assert after == [];
      OpenLine(r[1..], p - 1, y, pending);
      BodyCases([], pending);
    }
  }

  lemma OpenLine(line: Text, q: nat, y: Text, pending: seq<Heredoc>)
    requires pending != [] && q <= |line| && y != [] && y[0] == ' ' && AfterLine(line, pending) == []
    ensures AfterLine(Insert(line, q, y), pending) == pending
  {
    hide ClosesHeredoc;
    NotClosed(line, q, y, pending[0]);
  }

  lemma EarlierLine(r: Text, p: nat, y: Text, m: nat)
    requires 0 < p <= |r| && m == 1 + IndexOf(r[1..], '\n') < p
    ensures var t := Insert(r, p, y);
            1 + IndexOf(t[1..], '\n') == m && t[1..m] == r[1..m] && t[m..] == Insert(r[m..], p - m, y)
  {
    var t := Insert(r, p, y);
    forall i | 0 <= i < m - 1 ensures t[1..][i] != '\n' { assert t[1..][i] == r[1..][i]; }
    assert t[1..][m - 1] == r[1..][m - 1];
    IndexIs(t[1..], '\n', m - 1);
    assert t[1..m] == r[1..m];
    assert t[m..] == Insert(r[m..], p - m, y);
  }

  lemma LastLine(r: Text, p: nat, y: Text)
    requires 0 < p <= |r| && IndexOf(r[1..], '\n') == |r| - 1 && '\n' !in y
    ensures var t, m := Insert(r, p, y), |Insert(r, p, y)|;
            && 1 + IndexOf(t[1..], '\n') == m && t[1..m] == Insert(r[1..], p - 1, y) && t[m..] == []
            && r[1..|r|] == r[1..] && r[|r|..] == []
  {
    hide IndexOf;
    var t, x := Insert(r, p, y), r[1..];
    InsertTail(r, p, y);
    InsertHasNot(x, p - 1, y, '\n');
    IndexIs(t[1..], '\n', |t| - 1);
  }

  lemma InsertTail(r: Text, p: nat, y: Text)
    requires 0 < p <= |r|
    ensures Insert(r, p, y)[1..] == Insert(r[1..], p - 1, y)
  {
  }

  lemma InsertHasNot(x: Text, q: nat, y: Text, c: char)
    requires q <= |x| && c !in y && forall i :: 0 <= i < |x| ==> x[i] != c
    ensures forall i :: 0 <= i < |Insert(x, q, y)| ==> Insert(x, q, y)[i] != c
  {
  }

  /** The insertion point lies in the last heredoc body of an unfinished `$(`. */
  lemma RefusesInBody(r: Text, st: Lex, p: nat, g: Segment)
    requires OpensBody(r, st) && Step(r, st).Go? && !Step(r, st).body && 0 < p <= Step(r, st).n
    requires ScanOne(r, st) == Some(g) && p <= Point(g) && AllBlank(r[p..Point(g)])
    ensures ScanOne(Insert(r, p, Flag()), st) == None
  {
    hide HeredocAt, BodyLength, ScanOne, Step, Flag;
    var n, t := Step(r, st).n, Insert(r, p, Flag());
    ScanUnfolds(r, st);
    BodyGo(r, st);
    PointChar(r, st, g);
    BodyStops(r, st);
    forall i | p <= i < Point(g) ensures r[i] != '\n' { assert IsBlank(r[p..Point(g)][i - p]); }
    if n < |r| {
      DeepPoint(r[n..], Step(r, st).st, ScanOne(r[n..], Step(r, st).st).value);
      assert false;
    }
    FlagOneLine();
    BodyRefuses(r, p, Flag(), st.pending);
    ScanUnfolds(t, st);
    BodyNone(t, st);
  }

  lemma BodyStops(r: Text, st: Lex)
    requires OpensBody(r, st) && BodyLength(r, st.pending).Some?
    ensures var n := BodyLength(r, st.pending).value; 0 < n <= |r| && (n < |r| ==> r[n] == '\n')
  {
  }

  lemma BodyNone(t: Text, st: Lex)
    requires OpensBody(t, st) && BodyLength(t, st.pending) == None
    ensures Step(t, st) == Refuse
  {
  }

  lemma InsertAfter(r: Text, p: nat, y: Text, n: nat, q: nat)
    requires n <= p <= q <= |r|
    ensures Insert(r, p, y)[..n] == r[..n] && Insert(r, p, y)[n..] == Insert(r[n..], p - n, y)
    ensures r[n..][p - n..q - n] == r[p..q]
  {
  }

  /** An iteration before the point does the same with the flag ahead. */
  lemma PassesBefore(r: Text, st: Lex, p: nat, g: Segment)
    requires ScanOne(r, st) == Some(g) && 0 < p <= Point(g) <= |r| && AllBlank(r[p..Point(g)])
    requires !InsideOperator(r, st, p)
    requires !(OpensBody(r, st) && Step(r, st).Go? && p <= Step(r, st).n)
    ensures Step(r, st).Go? && !Step(r, st).body
    ensures var n, st' := Step(r, st).n, Step(r, st).st;
            && n <= p
            && ScanOne(r[n..], st').Some?
            && ScanOne(r, st) == Longer(ScanOne(r[n..], st'), n, false)
            && ScanOne(Insert(r, p, Flag()), st) == Longer(ScanOne(Insert(r[n..], p - n, Flag()), st'), n, false)
            && !InsideOperator(r[n..], st', p - n)
  {
    hide HeredocAt, BodyLength, ScanOne, Step, Flag, AtOperator;
    var t := Insert(r, p, Flag());
    FlagOneLine();
    ScanUnfolds(r, st);
    ScanUnfolds(t, st);
    var n, st' := Step(r, st).n, Step(r, st).st;
    if p < n { JumpOverBlanks(r, st, n, p, Point(g)); }
    InsertAfter(r, p, Flag(), n, Point(g));
    StepLocal(r, t, st, n);
  }

  /** The flag put at the point of a segment, not inside a heredoc operator, lengthens the
      segment and changes nothing else -- or the scan refuses the command. */
  lemma {:induction false} InsertFlag(r: Text, st: Lex, p: nat, g: Segment)
    requires ScanOne(r, st) == Some(g) && p <= Point(g) <= |r| && AllBlank(r[p..Point(g)])
    requires !InsideOperator(r, st, p)
    ensures var s := ScanOne(Insert(r, p, Flag()), st); s == None || s == Longer(Some(g), |Flag()|, false)
    decreases |r|
  {
    hide ScanOne, Step, Flag, InsideOperator;
    if p == 0 {
      assert Insert(r, p, Flag()) == Flag() + r;
      assert r[0..Point(g)] == r[..Point(g)];
      if st.esc { EscapedFlag(r, st, g); } else { FlagRun(r, st); }
    } else if OpensBody(r, st) && Step(r, st).Go? && p <= Step(r, st).n {
      BodyBeforePoint(r, st, p, g);
      RefusesInBody(r, st, p, g);
    } else {
      PassesBefore(r, st, p, g);
      var n, st' := Step(r, st).n, Step(r, st).st;
      var g' := ScanOne(r[n..], st').value;
      InsertAfter(r, p, Flag(), n, Point(g));
      InsertFlag(r[n..], st', p - n, g');
    }
  }

  lemma BodyBeforePoint(r: Text, st: Lex, p: nat, g: Segment)
    requires ScanOne(r, st) == Some(g) && 0 < p <= Point(g) && OpensBody(r, st)
    ensures Step(r, st).Go? && !Step(r, st).body
  {
    hide ScanOne, Step;
    ScanUnfolds(r, st);
    if Step(r, st).Go? { assert Step(r, st).body ==> g.inject == Some(0); }
  }

  // ---------------------------------------------------------------------
  // Scanning the output again

  /** The flag of the segment that begins the rest of the command, if it gets one, does not
      go inside a heredoc operator. */
  predicate SafeSegment(isCommit: Text -> bool, r: Text, pending: seq<Heredoc>) {
    var s := ScanOne(r, Start(pending));
    s.Some? && NeedsTrailer(isCommit, r[..s.value.len]) ==>
      !InsideOperator(r, Start(pending), PointIn(r[..s.value.len], s.value.inject))
  }

  /** Nor does any later one. */
  predicate SafeFrom(isCommit: Text -> bool, r: Text, pending: seq<Heredoc>)
    decreases |r|
  {
    && SafeSegment(isCommit, r, pending)
    && var s := ScanOne(r, Start(pending));
       s.Some? && s.value.sep > 0 ==> SafeFrom(isCommit, r[s.value.len + s.value.sep..], s.value.pending)
  }

  predicate Safe(isCommit: Text -> bool, command: Text) {
    Pieces(command, []).Some? ==> SafeFrom(isCommit, command, [])
  }

  /** What is inside an operator is decided by the segment and its separator. */
  lemma {:induction false} InsideLocal(r: Text, t: Text, st: Lex, g: Segment, p: nat)
    requires ScanOne(r, st) == Some(g) && g.sep > 0 && p <= g.len
    requires g.len + g.sep <= |t| && r[..g.len + g.sep] == t[..g.len + g.sep]
    requires g.sep == 1 && r[g.len] == '|' && g.len + 1 < |t| ==> t[g.len + 1] != '|'
    ensures InsideOperator(t, st, p) == InsideOperator(r, st, p)
    decreases |r|
  {
    hide Step, ScanOne, AtOperator;
    var m := g.len + g.sep;
    ScanUnfolds(r, st);
    if p > 0 && Step(r, st).Go? {
      var n, st' := Step(r, st).n, Step(r, st).st;
      SliceAgree(r, t, m, n, m);
      assert r[..n] == r[..m][..n] && t[..n] == t[..m][..n];
      StepLocal(r, t, st, n);
      if p < n {
        OperatorLocal(r, t, st, n);
      } else {
        assert r[n..][..m - n] == t[n..][..m - n];
        InsideLocal(r[n..], t[n..], st', ScanOne(r[n..], st').value, p - n);
      }
    }
  }

  lemma OperatorLocal(r: Text, t: Text, st: Lex, n: nat)
    requires r != [] && t != [] && Step(r, st).Go? && Step(r, st) == Step(t, st) && Step(r, st).n == n
    requires n > 1 && n <= |t| && r[..n] == t[..n]
    ensures AtOperator(r, st) == AtOperator(t, st)
  {
    hide HeredocAt, BodyLength;
    SliceAgree(r, t, n, 0, n);
    SliceAgree(r, t, n, 1, n);
    if n > 2 { SliceAgree(r, t, n, 2, n); }
  }

  /** The piece as a second scan finds it. */
  function Moved(isCommit: Text -> bool, p: Piece): Piece {
    if NeedsTrailer(isCommit, p.body) then Piece(Patched(isCommit, p), Shift(p.inject, |Flag()|), p.sep) else p
  }

  function MovedAll(isCommit: Text -> bool, ps: seq<Piece>): seq<Piece> {
    if ps == [] then [] else [Moved(isCommit, ps[0])] + MovedAll(isCommit, ps[1..])
  }

  /** The rewritten rest starts as the rest did, or with a space. */
  lemma HeadKept(isCommit: Text -> bool, r: Text, pending: seq<Heredoc>, ps: seq<Piece>)
    requires Pieces(r, pending) == Some(ps)
    ensures Rebuilt(isCommit, ps) != [] ==>
              Rebuilt(isCommit, ps)[0] == ' ' || (r != [] && Rebuilt(isCommit, ps)[0] == r[0])
  {
    hide ScanOne, Flag, NeedsTrailer;
    FlagOneLine();
    var g := ScanOne(r, Start(pending)).value;
    var x := Patched(isCommit, ps[0]);
    if g.sep == 0 { assert Rebuilt(isCommit, ps[1..]) == []; }
    assert g.len == 0 && g.sep > 0 ==> ps[0].sep[0] == r[0];
  }

  /** A single bar is not followed by another. */
  lemma {:induction false} CutBar(r: Text, st: Lex, g: Segment)
    requires ScanOne(r, st) == Some(g) && g.sep == 1 && r[g.len] == '|' && g.len + 1 < |r|
    ensures r[g.len + 1] != '|'
    decreases |r|
  {
    hide HeredocAt, BodyLength, ScanOne;
    ScanUnfolds(r, st);
    if Step(r, st).Go? {
      var n := Step(r, st).n;
      CutBar(r[n..], Step(r, st).st, ScanOne(r[n..], Step(r, st).st).value);
    }
  }

  /** A rewritten rest does not change the segment before it. */
  lemma SameSegment(r: Text, pending: seq<Heredoc>, g: Segment, tail: Text)
    requires ScanOne(r, Start(pending)) == Some(g)
    requires g.sep == 0 ==> tail == []
    requires tail != [] ==> tail[0] == ' ' || (g.len + g.sep < |r| && tail[0] == r[g.len + g.sep])
    ensures ScanOne(r[..g.len + g.sep] + tail, Start(pending)) == Some(g)
  {
    hide ScanOne;
    var m := g.len + g.sep;
    var x := r[..m] + tail;
    assert x[..m] == r[..m];
    if g.sep > 0 {
      if g.sep == 1 && r[g.len] == '|' && g.len + 1 < |r| { CutBar(r, Start(pending), g); }
      SegmentLocal(r, x, Start(pending), g);
    } else {
      assert x == r;
    }
  }

  lemma SameInside(r: Text, pending: seq<Heredoc>, g: Segment, tail: Text, p: nat)
    requires ScanOne(r, Start(pending)) == Some(g) && p <= g.len
    requires g.sep == 0 ==> tail == []
    requires tail != [] ==> tail[0] == ' ' || (g.len + g.sep < |r| && tail[0] == r[g.len + g.sep])
    ensures InsideOperator(r[..g.len + g.sep] + tail, Start(pending), p) == InsideOperator(r, Start(pending), p)
  {
    hide ScanOne, InsideOperator;
    var m := g.len + g.sep;
    var x := r[..m] + tail;
    assert x[..m] == r[..m];
    if g.sep > 0 {
      if g.sep == 1 && r[g.len] == '|' && g.len + 1 < |r| { CutBar(r, Start(pending), g); }
      InsideLocal(r, x, Start(pending), g, p);
    } else {
      assert x == r;
    }
  }

  /** The first segment of the rewritten command: untouched if it needs no flag,
      else longer by the flag, or the command is refused. */
  lemma FirstSegment(isCommit: Text -> bool, r: Text, pending: seq<Heredoc>, g: Segment, p: Piece, tail: Text)
    requires ScanOne(r, Start(pending)) == Some(g) && p == Piece(r[..g.len], g.inject, r[g.len..g.len + g.sep])
    requires SafeSegment(isCommit, r, pending)
    requires g.sep == 0 ==> tail == []
    requires tail != [] ==> tail[0] == ' ' || (g.len + g.sep < |r| && tail[0] == r[g.len + g.sep])
    ensures var s := ScanOne(Patched(isCommit, p) + p.sep + tail, Start(pending));
            if NeedsTrailer(isCommit, p.body) then s == None || s == Longer(Some(g), |Flag()|, false) else s == Some(g)
  {
    hide ScanOne, Flag, NeedsTrailer, PointIn, Longer, InsideOperator;
    var x := p.body + p.sep + tail;
    assert x == r[..g.len + g.sep] + tail;
    SameSegment(r, pending, g, tail);
    if NeedsTrailer(isCommit, p.body) {
      var k := PointIn(p.body, g.inject);
      PointBlanks(p.body, g, k);
      SliceOfFirst(p.body, p.sep, tail, k, Point(g));
      SameInside(r, pending, g, tail, k);
      InsertFlag(x, Start(pending), k, g);
      PatchInserts(p.body, p.sep, tail, k, Flag());
    }
  }

  lemma SliceOfFirst(body: Text, sep: Text, tail: Text, a: nat, b: nat)
    requires a <= b <= |body|
    ensures (body + sep + tail)[a..b] == body[a..b]
    ensures a > 0 ==> (body + sep + tail)[a - 1] == body[a - 1]
  {
  }

  lemma PatchInserts(body: Text, sep: Text, tail: Text, k: nat, y: Text)
    requires k <= |body|
    ensures (body[..k] + y + body[k..]) + sep + tail == Insert(body + sep + tail, k, y)
  {
  }

  lemma PointBlanks(body: Text, g: Segment, k: nat)
    requires |body| == g.len && k == PointIn(body, g.inject) && (g.inject.Some? ==> g.inject.value < g.len)
    ensures k <= Point(g) <= |body| && AllBlank(body[k..Point(g)])
    ensures k > 0 ==> !IsBlank(body[k - 1])
  {
    var upTo := if g.inject.Some? then body[..g.inject.value] else body;
    assert upTo[k..] == body[k..Point(g)];
  }

  /** Scanning the rewritten command finds the same segments, longer by their
      flags, or refuses it. */
  lemma {:induction false} Rescan(isCommit: Text -> bool, r: Text, pending: seq<Heredoc>, ps: seq<Piece>)
    requires Pieces(r, pending) == Some(ps) && SafeFrom(isCommit, r, pending)
    ensures var o := Pieces(Rebuilt(isCommit, ps), pending); o == None || o == Some(MovedAll(isCommit, ps))
    decreases |r|
  {
    hide ScanOne, Flag, Contains, Pieces, SafeSegment, Patched;
    PiecesUnfold(r, pending);
    var g := ScanOne(r, Start(pending)).value;
    var p, rest := ps[0], ps[1..];
    var tail := Rebuilt(isCommit, rest);
    var out := Rebuilt(isCommit, ps);
    if g.sep > 0 {
      HeadKept(isCommit, r[g.len + g.sep..], g.pending, rest);
      Rescan(isCommit, r[g.len + g.sep..], g.pending, rest);
    }
    FirstSegment(isCommit, r, pending, g, p, tail);
    PiecesUnfold(out, pending);
    FirstPiece(isCommit, p, tail, g);
    assert out == Patched(isCommit, p) + p.sep + tail;
    assert rest == [] ==> MovedAll(isCommit, ps) == [Moved(isCommit, p)];
  }

  /** The rewritten piece, cut out of the rewritten command. */
  lemma FirstPiece(isCommit: Text -> bool, p: Piece, tail: Text, g: Segment)
    requires |p.body| == g.len && |p.sep| == g.sep && p.inject == g.inject
    ensures var out := Patched(isCommit, p) + p.sep + tail;
            var n := if NeedsTrailer(isCommit, p.body) then g.len + |Flag()| else g.len;
            && n + g.sep <= |out|
            && out[..n] == Patched(isCommit, p) && out[n..n + g.sep] == p.sep && out[n + g.sep..] == tail
            && Moved(isCommit, p) ==
                 Piece(out[..n], if NeedsTrailer(isCommit, p.body) then Shift(g.inject, |Flag()|) else g.inject, p.sep)
  {
    hide NeedsTrailer, Flag;
  }

  /** A patched segment needs no second flag. */
  lemma PatchedIsDone(isCommit: Text -> bool, p: Piece)
    ensures !NeedsTrailer(isCommit, Moved(isCommit, p).body)
    ensures Patched(isCommit, Moved(isCommit, p)) == Patched(isCommit, p) && Moved(isCommit, p).sep == p.sep
  {
    hide Flag, OccursAt, PointIn;
    if NeedsTrailer(isCommit, p.body) {
      MarkInFlag();
      OccursInside(p.body, PointIn(p.body, p.inject), Flag(), MARK, |LEAD| + 1);
    }
  }

  lemma MarkInFlag()
    ensures OccursAt(Flag(), MARK, |LEAD| + 1)
  {
    assert Flag()[|LEAD| + 1..|LEAD| + 1 + |MARK|] == MARK;
  }

  lemma OccursInside(x: Text, k: nat, y: Text, pat: Text, i: nat)
    requires k <= |x| && OccursAt(y, pat, i)
    ensures Contains(x[..k] + y + x[k..], pat)
  {
    var z := x[..k] + y + x[k..];
    assert z[k + i..k + i + |pat|] == y[i..i + |pat|];
    assert OccursAt(z, pat, k + i);
  }

  lemma {:induction false} MovedRebuilds(isCommit: Text -> bool, ps: seq<Piece>)
    ensures Rebuilt(isCommit, MovedAll(isCommit, ps)) == Rebuilt(isCommit, ps)
  {
    hide Moved, Patched;
    if ps != [] {
      PatchedIsDone(isCommit, ps[0]);
      MovedRebuilds(isCommit, ps[1..]);
      assert MovedAll(isCommit, ps)[1..] == MovedAll(isCommit, ps[1..]);
    }
  }

  /** The rewriter is idempotent, for every way of recognising commits, on every
      command in which no flag goes inside a heredoc operator. */
  lemma Idempotent(isCommit: Text -> bool, command: Text)
    requires Safe(isCommit, command)
    ensures Enforce(isCommit, Enforce(isCommit, command)) == Enforce(isCommit, command)
  {
    hide Pieces, SafeFrom, Rebuilt;
    var o := Pieces(command, []);
    if command != "" && o.Some? {
      Rescan(isCommit, command, [], o.value);
      MovedRebuilds(isCommit, o.value);
    }
  }
}
