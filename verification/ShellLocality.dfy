/** The scanner looks no further than it has to: what it does with a stretch of
    the command depends on that stretch and, at most, one character more. */
module ShellLocality {
  import opened Wrappers
  import opened ShellScan

  /** `x` with `y` put in at offset `p`. */
  function Insert(x: Text, p: nat, y: Text): (z: Text)
    requires p <= |x|
    ensures |z| == |x| + |y|
    ensures forall i :: 0 <= i < p ==> z[i] == x[i]
    ensures y != [] ==> z[p] == y[0]
  {
    x[..p] + y + x[p..]
  }

  lemma IndexLocal(s: Text, t: Text, c: char, n: nat)
    requires IndexOf(s, c) == n < |s| && n < |t| && s[..n + 1] == t[..n + 1]
    ensures IndexOf(t, c) == n
  {
    forall i | 0 <= i <= n ensures s[i] == t[i] { SliceAgree(s, t, n + 1, i, i); }
    IndexIs(t, c, n);
  }

  lemma IndexIs(t: Text, c: char, n: nat)
    requires n <= |t| && (forall i :: 0 <= i < n ==> t[i] != c) && (n < |t| ==> t[n] == c)
    ensures IndexOf(t, c) == n
  {
  }

  lemma SliceOfTake(s: Text, n: nat, a: nat, b: nat)
    requires a <= b <= n <= |s|
    ensures s[..n][a..b] == s[a..b] && s[..n][a..] == s[a..n] && s[a..][..n - a] == s[a..n]
  {
    assert forall i :: a <= i < b ==> s[..n][i] == s[i];
  }

  lemma SliceAgree(s: Text, t: Text, n: nat, a: nat, b: nat)
    requires a <= b <= n <= |s| && n <= |t| && s[..n] == t[..n]
    ensures s[a..b] == t[a..b]
    ensures s[a..][..n - a] == t[a..][..n - a]
    ensures a < n ==> s[a] == t[a]
  {
    SliceOfTake(s, n, a, b);
    SliceOfTake(t, n, a, b);
    if a < n { assert s[a] == s[..n][a] && t[a] == t[..n][a]; }
  }

  lemma QuoteLocal(s: Text, t: Text, n: nat, close: nat)
    requires 0 < |s| && IndexOf(s[1..], s[0]) == close && close + 2 <= n <= |s| && n <= |t| && s[..n] == t[..n]
    ensures t[0] == s[0] && IndexOf(t[1..], s[0]) == close && s[1..1 + close] == t[1..1 + close]
    ensures s[close + 2..][..n - (close + 2)] == t[close + 2..][..n - (close + 2)]
  {
    hide IndexOf;
    SliceAgree(s, t, n, 0, n);
    SliceAgree(s, t, n, 1, 1 + close);
    SliceAgree(s, t, n, 1, close + 2);
    SliceOfTake(s, close + 2, 1, 1);
    SliceOfTake(t, close + 2, 1, 1);
    IndexLocal(s[1..], t[1..], s[0], close);
    SliceAgree(s, t, n, close + 2, n);
  }

  /** A word is decided by its characters and the one that ends it. */
  lemma {:induction false} WordLocal(s: Text, t: Text, n: nat)
    requires DelimWord(s).Some? && DelimWord(s).value.n == n
    requires n <= |t| && s[..n] == t[..n] && (n < |t| ==> EndsWord(t[n]))
    ensures DelimWord(t) == DelimWord(s)
  {
    hide DelimWord;
    WordCases(s);
    WordCases(t);
    if s == [] || EndsWord(s[0]) {
    } else if s[0] == '\'' || s[0] == '"' {
      var close := IndexOf(s[1..], s[0]);
      QuoteLocal(s, t, n, close);
      WordLocal(s[close + 2..], t[close + 2..], n - (close + 2));
    } else if s[0] == '\\' {
      SliceAgree(s, t, n, 0, n);
      SliceAgree(s, t, n, 1, n);
      SliceAgree(s, t, n, 2, n);
      WordLocal(s[2..], t[2..], n - 2);
    } else {
      SliceAgree(s, t, n, 0, n);
      SliceAgree(s, t, n, 1, n);
      WordLocal(s[1..], t[1..], n - 1);
    }
  }

  /** After a word comes its end. */
  lemma {:induction false} WordEnds(s: Text)
    ensures var w := DelimWord(s); w.Some? && w.value.n < |s| ==> EndsWord(s[w.value.n])
  {
    hide DelimWord;
    WordCases(s);
    if s == [] || EndsWord(s[0]) {
    } else if s[0] == '\'' || s[0] == '"' {
      var close := IndexOf(s[1..], s[0]);
      if close < |s| - 1 { WordEnds(s[close + 2..]); }
    } else if s[0] == '\\' {
      if |s| > 1 { WordEnds(s[2..]); }
    } else {
      WordEnds(s[1..]);
    }
  }

  /** A word ends in a blank only when that blank is escaped. */
  lemma {:induction false} WordLast(s: Text)
    requires DelimWord(s).Some?
    ensures var n := DelimWord(s).value.n; n > 0 && IsBlank(s[n - 1]) ==> n >= 2 && s[n - 2] == '\\'
  {
    hide DelimWord;
    WordCases(s);
    if s == [] || EndsWord(s[0]) {
    } else if s[0] == '\'' || s[0] == '"' {
      var close := IndexOf(s[1..], s[0]);
      assert s[1..][close] == s[close + 1];
      WordLast(s[close + 2..]);
    } else if s[0] == '\\' {
      WordLast(s[2..]);
    } else {
      WordLast(s[1..]);
    }
  }

  lemma {:induction false} BlanksLocal(s: Text, t: Text, n: nat)
    requires SkipBlanks(s) == n < |s| && n < |t| && s[..n + 1] == t[..n + 1]
    ensures SkipBlanks(t) == n
  {
    SliceAgree(s, t, n + 1, 0, 0);
    if n > 0 {
      SliceAgree(s, t, n + 1, 1, 1);
      BlanksLocal(s[1..], t[1..], n - 1);
    }
  }

  /** Where the delimiter word of the operator at the start of `r` begins. */
  function WordStart(r: Text): (k: nat)
    requires |r| >= 2
    ensures 2 <= k <= |r|
  {
    var j := if |r| > 2 && r[2] == '-' then 3 else 2;
    j + SkipBlanks(r[j..])
  }

  lemma HeredocParts(r: Text)
    requires |r| >= 2
    ensures var o, k := HeredocAt(r), WordStart(r);
            o.Some? ==>
              && k < o.value.n && DelimWord(r[k..]).Some? && DelimWord(r[k..]).value.n == o.value.n - k
              && !IsBlank(r[k])
  {
    var k := WordStart(r);
    WordTakes(r[k..]);
    WordCases(r[k..]);
  }

  lemma HeredocFrom(r: Text, t: Text)
    requires |r| >= 2 && |t| >= 2 && WordStart(r) == WordStart(t)
    requires (|r| > 2 && r[2] == '-') == (|t| > 2 && t[2] == '-')
    requires DelimWord(r[WordStart(r)..]) == DelimWord(t[WordStart(t)..])
    ensures HeredocAt(t) == HeredocAt(r)
  {
  }

  /** A heredoc operator is decided by its characters and the one that ends it. */
  lemma HeredocLocal(r: Text, t: Text, n: nat)
    requires |r| >= 2 && HeredocAt(r).Some? && HeredocAt(r).value.n == n
    requires n <= |t| && r[..n] == t[..n] && (n < |t| ==> EndsWord(t[n]))
    ensures |t| >= 2 && HeredocAt(t) == HeredocAt(r)
  {
    hide HeredocAt, DelimWord;
    var k := WordStart(r);
    HeredocParts(r);
    var j := if |r| > 2 && r[2] == '-' then 3 else 2;
    SliceAgree(r, t, n, 2, n);
    SliceAgree(r, t, n, j, n);
    SliceAgree(r, t, n, j, k + 1);
    assert r[j..][..k - j + 1] == r[j..k + 1] && t[j..][..k - j + 1] == t[j..k + 1];
    BlanksLocal(r[j..], t[j..], k - j);
    SliceAgree(r, t, n, k, n);
    WordLocal(r[k..], t[k..], n - k);
    HeredocFrom(r, t);
  }

  /** Heredoc bodies are decided by their lines. */
  lemma {:induction false} BodyLocal(r: Text, t: Text, pending: seq<Heredoc>, n: nat)
    requires BodyLength(r, pending) == Some(n)
    requires n <= |t| && r[..n] == t[..n] && (0 < n < |t| ==> t[n] == '\n')
    ensures BodyLength(t, pending) == BodyLength(r, pending)
    decreases |r|
  {
    BodyCases(r, pending);
    BodyCases(t, pending);
    hide BodyLength;
    if pending != [] {
      var m := 1 + IndexOf(r[1..], '\n');
      LineLocal(r, t, n, m);
      BodyLocal(r[m..], t[m..], AfterLine(r[1..m], pending), n - m);
    }
  }

  lemma BodyCases(r: Text, pending: seq<Heredoc>)
    ensures pending == [] ==> BodyLength(r, pending) == Some(0)
    ensures pending != [] && r == [] ==> BodyLength(r, pending) == None
    ensures pending != [] && r != [] ==>
              var m := 1 + IndexOf(r[1..], '\n');
              BodyLength(r, pending) == Further(BodyLength(r[m..], AfterLine(r[1..m], pending)), m)
  {
  }

  lemma LineLocal(r: Text, t: Text, n: nat, m: nat)
    requires 0 < |r| && m == 1 + IndexOf(r[1..], '\n') <= n <= |r| && n <= |t| && r[..n] == t[..n]
    requires n < |t| ==> t[n] == '\n'
    requires n < |r| ==> r[n] == '\n'
    ensures 1 + IndexOf(t[1..], '\n') == m && r[1..m] == t[1..m]
    ensures r[m..][..n - m] == t[m..][..n - m]
  {
    hide IndexOf;
    SliceAgree(r, t, n, 1, m);
    SliceAgree(r, t, n, m, n);
    forall i | 0 <= i < m - 1 ensures t[1..][i] != '\n' {
      assert t[1..m][i] == r[1..m][i] && r[1..m][i] == r[1..][i];
    }
    if m < |r| { assert r[1..][m - 1] == '\n'; }
    IndexIs(t[1..], '\n', m - 1);
  }

  predicate OpensBody(r: Text, st: Lex) {
    r != [] && r[0] == '\n' && !st.esc && st.Bare() && st.pending != []
  }

  /** One iteration is decided by the characters it takes and the next one, which
      may also become a space unless the iteration reads heredoc bodies. */
  lemma StepLocal(r: Text, t: Text, st: Lex, n: nat)
    requires r != [] && Step(r, st).Go? && Step(r, st).n == n
    requires n <= |t| && r[..n] == t[..n]
    requires n < |t| ==> (n < |r| && t[n] == r[n]) || (t[n] == ' ' && !OpensBody(r, st))
    ensures t != [] && Step(t, st) == Step(r, st)
  {
    hide HeredocAt, BodyLength;
    SliceAgree(r, t, n, 0, n);
    if OpensBody(r, st) {
      BodyGo(r, st);
      BodyLocal(r, t, st.pending, n);
    } else if !st.esc && r[0] == '<' && st.Bare() && |r| > 1 && r[1] == '<' {
      if |r| > 2 && r[2] == '<' {
        SliceAgree(r, t, n, 1, n);
        SliceAgree(r, t, n, 2, n);
      } else {
        SliceAgree(r, t, n, 1, n);
        SliceAgree(r, t, n, 2, n);
        HeredocParts(r);
        WordEndsAfter(r);
        HeredocLocal(r, t, n);
      }
    } else if n == 2 {
      SliceAgree(r, t, n, 1, n);
    }
  }

  lemma BodyGo(r: Text, st: Lex)
    requires OpensBody(r, st) && Step(r, st).Go?
    ensures BodyLength(r, st.pending) == Some(Step(r, st).n)
    ensures Step(r, st) == Go(Step(r, st).n, st.(pending := []), st.stack == [])
  {
  }

  lemma WordEndsAfter(r: Text)
    requires |r| >= 2 && HeredocAt(r).Some?
    ensures HeredocAt(r).value.n < |r| ==> EndsWord(r[HeredocAt(r).value.n])
  {
    hide HeredocAt;
    HeredocParts(r);
    WordEnds(r[WordStart(r)..]);
  }

  /** A segment that ends in a separator is decided by its text, the separator and
      whether a single bar is followed by another. */
  lemma {:induction false} SegmentLocal(r: Text, t: Text, st: Lex, g: Segment)
    requires ScanOne(r, st) == Some(g) && g.sep > 0
    requires g.len + g.sep <= |t| && r[..g.len + g.sep] == t[..g.len + g.sep]
    requires g.sep == 1 && r[g.len] == '|' && g.len + 1 < |t| ==> t[g.len + 1] != '|'
    ensures ScanOne(t, st) == ScanOne(r, st)
    decreases |r|
  {
    hide Step;
    var m := g.len + g.sep;
    ScanUnfolds(r, st);
    match Step(r, st)
    case Cut(sep) => CutLocal(r, t, st, sep);
    case Go(n, st', body) =>
      SliceAgree(r, t, m, n, m);
      assert r[..n] == r[..m][..n] && t[..n] == t[..m][..n];
      StepLocal(r, t, st, n);
      assert r[n..][..m - n] == t[n..][..m - n];
      SegmentLocal(r[n..], t[n..], st', ScanOne(r[n..], st').value);
      ScanUnfolds(t, st);
  }

  lemma ScanUnfolds(r: Text, st: Lex)
    requires r != []
    ensures Step(r, st).Refuse? ==> ScanOne(r, st) == None
    ensures Step(r, st).Cut? ==> ScanOne(r, st) == Some(Segment(0, None, Step(r, st).sep, st.pending))
    ensures Step(r, st).Go? ==>
              ScanOne(r, st) == Longer(ScanOne(r[Step(r, st).n..], Step(r, st).st), Step(r, st).n, Step(r, st).body)
  {
  }

  lemma PiecesUnfold(r: Text, pending: seq<Heredoc>)
    ensures ScanOne(r, Start(pending)) == None ==> Pieces(r, pending) == None
    ensures ScanOne(r, Start(pending)).Some? ==>
              var g := ScanOne(r, Start(pending)).value;
              var p := Piece(r[..g.len], g.inject, r[g.len..g.len + g.sep]);
              && (g.sep == 0 ==> Pieces(r, pending) == Some([p]))
              && (g.sep > 0 ==> Pieces(r, pending) == WithFirst(p, Pieces(r[g.len + g.sep..], g.pending)))
  {
    hide ScanOne, WithFirst;
  }

  lemma CutLocal(r: Text, t: Text, st: Lex, sep: nat)
    requires r != [] && Step(r, st) == Cut(sep)
    requires sep <= |t| && r[..sep] == t[..sep] && (sep == 1 && r[0] == '|' && 1 < |t| ==> t[1] != '|')
    ensures ScanOne(t, st) == ScanOne(r, st)
  {
    SliceAgree(r, t, sep, 0, sep);
    if sep == 2 { SliceAgree(r, t, sep, 1, sep); }
    assert Step(t, st) == Step(r, st);
  }

  // ---------------------------------------------------------------------
  // Plain text

  /** Characters that never change the lexer state. */
  predicate IsPlain(c: char) {
    c != '\\' && c != '\'' && c != '"' && c != '$' && c != ')' && c != '<' && c != '\n' && c != ';' && c != '|' && c != '&'
  }

  lemma LongerTwice(s: Option<Segment>, n: nat, m: nat)
    ensures Longer(Longer(s, n, false), m, false) == Longer(s, n + m, false)
  {
  }

  lemma LongerNone(s: Option<Segment>)
    ensures Longer(s, 0, false) == s
  {
  }

  /** One character that only takes itself. */
  lemma OneStep(c: char, r: Text, st: Lex, st': Lex)
    requires Step([c] + r, st) == Go(1, st', false)
    ensures ScanOne([c] + r, st) == Longer(ScanOne(r, st'), 1, false)
  {
    assert ([c] + r)[1..] == r;
  }

  lemma {:induction false} PlainRun(x: Text, r: Text, st: Lex)
    requires !st.esc && forall i :: 0 <= i < |x| ==> IsPlain(x[i])
    ensures ScanOne(x + r, st) == Longer(ScanOne(r, st), |x|, false)
  {
    hide ScanOne;
    if x == [] {
      assert x + r == r;
      LongerNone(ScanOne(r, st));
    } else {
      PlainRun(x[1..], r, st);
      assert x + r == [x[0]] + (x[1..] + r);
      OneStep(x[0], x[1..] + r, st, st);
      LongerTwice(ScanOne(r, st), |x| - 1, 1);
    }
  }
}
