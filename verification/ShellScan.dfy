/** The shell scanner behind the commit-trailer rewriter
    (internal/agent/commit_policy.go): quotes, escapes, `$(` nesting and heredocs,
    read from the rest of the command and the lexer state alone. */
module ShellScan {
  import opened Wrappers

  /** A Go string; each character stands for one byte. */
  type Text = string

  /** A heredoc operator whose body has not started yet. */
  datatype Heredoc = Heredoc(delim: Text, stripTabs: bool)

  /** The quoting state; `stack` saves `inDouble` at each open `$(`. */
  datatype Lex = Lex(inSingle: bool, inDouble: bool, esc: bool, stack: seq<bool>, pending: seq<Heredoc>) {
    predicate Bare() { !inSingle && !inDouble }
    predicate Top() { Bare() && stack == [] }
  }

  /** The state a segment starts in. */
  function Start(pending: seq<Heredoc>): Lex { Lex(false, false, false, [], pending) }

  predicate IsBlank(c: char) { c == ' ' || c == '\t' }

  predicate AllBlank(s: Text) { forall i :: 0 <= i < |s| ==> IsBlank(s[i]) }

  // ---------------------------------------------------------------------
  // Heredocs

  function IndexOf(s: Text, c: char): (n: nat)
    ensures n <= |s|
    ensures forall i :: 0 <= i < n ==> s[i] != c
    ensures n < |s| ==> s[n] == c
  {
    if s == [] || s[0] == c then 0 else 1 + IndexOf(s[1..], c)
  }

  /** The characters that end an unquoted delimiter word. */
  predicate EndsWord(c: char) {
    IsBlank(c) || c == '\n' || c == ';' || c == '&' || c == '|' || c == '<' || c == '>' || c == '(' || c == ')'
  }

  datatype Word = Word(text: Text, n: nat)

  function Prefixed(text: Text, n: nat, w: Option<Word>): Option<Word> {
    match w case None => None case Some(Word(t, m)) => Some(Word(text + t, n + m))
  }

  /** The delimiter word at the start of `s`, quoting removed, and its length in `s`;
      None when a quote or an escape is left open. */
  function DelimWord(s: Text): (w: Option<Word>)
    ensures w.Some? ==> w.value.n <= |s|
  {
    if s == [] || EndsWord(s[0]) then Some(Word([], 0))
    else if s[0] == '\'' || s[0] == '"' then
      var close := IndexOf(s[1..], s[0]);
      if close == |s| - 1 then None
      else Prefixed(s[1..1 + close], close + 2, DelimWord(s[close + 2..]))
    else if s[0] == '\\' then
      if |s| == 1 then None else Prefixed([s[1]], 2, DelimWord(s[2..]))
    else Prefixed([s[0]], 1, DelimWord(s[1..]))
  }

  function SkipBlanks(s: Text): (n: nat)
    ensures n <= |s| && AllBlank(s[..n])
    ensures n < |s| ==> !IsBlank(s[n])
  {
    if s == [] || !IsBlank(s[0]) then 0
    else
      var n := 1 + SkipBlanks(s[1..]);
      assert s[..n] == [s[0]] + s[1..][..n - 1];
      n
  }

  datatype Operator = Operator(heredoc: Heredoc, n: nat)

  /** The heredoc operator at the start of `r`, which begins with `<<`. */
  function HeredocAt(r: Text): (o: Option<Operator>)
    requires |r| >= 2
    ensures o.Some? ==> 2 < o.value.n <= |r|
  {
    var strip := |r| > 2 && r[2] == '-';
    var j := if strip then 3 else 2;
    var k := j + SkipBlanks(r[j..]);
    match DelimWord(r[k..])
    case None => None
    case Some(Word(text, n)) => if text == [] then None else
      WordTakes(r[k..]);
      Some(Operator(Heredoc(text, strip), k + n))
  }

  lemma WordTakes(s: Text)
    ensures var w := DelimWord(s); w.Some? && w.value.text != [] ==> w.value.n > 0
  {
  }

  function LeadTabs(s: Text): (n: nat)
    ensures n <= |s|
  {
    if s != [] && s[0] == '\t' then 1 + LeadTabs(s[1..]) else 0
  }

  predicate ClosesHeredoc(line: Text, h: Heredoc) {
    (if h.stripTabs then line[LeadTabs(line)..] else line) == h.delim
  }

  /** From a newline (or the end) on: how far the queued heredoc bodies reach, up to
      the end of the last delimiter line; None when a body does not end. */
  function BodyLength(r: Text, pending: seq<Heredoc>): (n: Option<nat>)
    ensures n.Some? ==> n.value <= |r|
    ensures n.Some? && pending != [] ==> n.value > 0
    ensures n.Some? && 0 < n.value < |r| ==> r[n.value] == '\n'
    decreases |r|
  {
    if pending == [] then Some(0)
    else if r == [] then None
    else
      var m := 1 + IndexOf(r[1..], '\n');
      Further(BodyLength(r[m..], AfterLine(r[1..m], pending)), m)
  }

  function Further(n: Option<nat>, m: nat): Option<nat> {
    match n case None => None case Some(k) => Some(m + k)
  }

  /** The heredocs still open after one line. */
  function AfterLine(line: Text, pending: seq<Heredoc>): seq<Heredoc>
    requires pending != []
  {
    if ClosesHeredoc(line, pending[0]) then pending[1..] else pending
  }

  // ---------------------------------------------------------------------
  // One iteration of the scan

  /** What one iteration does: refuse the command; take `n` characters into the
      segment (`body`: they open heredoc bodies at the top level); or end the
      segment before a separator of `sep` characters. */
  datatype Move = Refuse | Go(n: nat, st: Lex, body: bool) | Cut(sep: nat)

  function Step(r: Text, st: Lex): (m: Move)
    requires r != []
    ensures m.Go? ==> 0 < m.n <= |r|
    ensures m.Cut? ==> 0 < m.sep <= |r| && m.sep <= 2 && st.Top() && !st.esc
  {
    var next := if |r| > 1 then r[1] else ' ';
    if st.esc then Go(1, st.(esc := false), false)
    else if r[0] == '\\' then Go(1, st.(esc := true), false)
    else if r[0] == '\'' then Go(1, if st.inDouble then st else st.(inSingle := !st.inSingle), false)
    else if r[0] == '"' then Go(1, if st.inSingle then st else st.(inDouble := !st.inDouble), false)
    else if r[0] == '$' && !st.inSingle && next == '(' then
      Go(2, st.(stack := st.stack + [st.inDouble], inDouble := false), false)
    else if r[0] == ')' && st.Bare() && st.stack != [] then
      Go(1, st.(inDouble := st.stack[|st.stack| - 1], stack := st.stack[..|st.stack| - 1]), false)
    else if r[0] == '<' && st.Bare() && next == '<' then
      if |r| > 2 && r[2] == '<' then Go(3, st, false)
      else match HeredocAt(r)
        case None => Refuse
        case Some(Operator(h, n)) => Go(n, st.(pending := st.pending + [h]), false)
    else if r[0] == '\n' && st.Bare() && st.pending != [] then
      match BodyLength(r, st.pending)
      case None => Refuse
      case Some(n) => Go(n, st.(pending := []), st.stack == [])
    else if (r[0] == ';' || r[0] == '\n') && st.Top() then Cut(1)
    else if r[0] == '|' && st.Top() then Cut(if next == '|' then 2 else 1)
    else if r[0] == '&' && st.Top() && next == '&' then Cut(2)
    else Go(1, st, false)
  }

  /** The segment at the start of the rest of the command: its length, where flags
      must go when a heredoc body follows, its separator (0 at the end) and the
      heredocs still queued. */
  datatype Segment = Segment(len: nat, inject: Option<nat>, sep: nat, pending: seq<Heredoc>)

  function Shift(inject: Option<nat>, n: nat): Option<nat> {
    match inject case None => None case Some(k) => Some(k + n)
  }

  function Longer(s: Option<Segment>, n: nat, body: bool): Option<Segment> {
    match s
    case None => None
    case Some(g) => Some(g.(len := g.len + n, inject := if body then Some(0) else Shift(g.inject, n)))
  }

  function ScanOne(r: Text, st: Lex): (s: Option<Segment>)
    ensures s.Some? ==> s.value.len + s.value.sep <= |r|
    ensures s.Some? && s.value.sep == 0 ==> s.value.len == |r|
    ensures s.Some? && s.value.inject.Some? ==> s.value.inject.value < s.value.len
  {
    if r == [] then (if st.pending != [] then None else Some(Segment(0, None, 0, [])))
    else match Step(r, st)
      case Refuse => None
      case Cut(sep) => Some(Segment(0, None, sep, st.pending))
      case Go(n, st', body) => Longer(ScanOne(r[n..], st'), n, body)
  }

  /** A segment as text: its body, the injection point in it, and its separator. */
  datatype Piece = Piece(body: Text, inject: Option<nat>, sep: Text)

  /** All segments; None when the command is not confidently parsed. */
  function Pieces(r: Text, pending: seq<Heredoc>): Option<seq<Piece>>
    decreases |r|
  {
    match ScanOne(r, Start(pending))
    case None => None
    case Some(g) =>
      var piece := Piece(r[..g.len], g.inject, r[g.len..g.len + g.sep]);
      if g.sep == 0 then Some([piece]) else WithFirst(piece, Pieces(r[g.len + g.sep..], g.pending))
  }

  function WithFirst(p: Piece, rest: Option<seq<Piece>>): Option<seq<Piece>> {
    match rest case None => None case Some(ps) => Some([p] + ps)
  }

  // ---------------------------------------------------------------------
  // The loops

  /** Reads a delimiter word. */
  method LexHeredocDelimiter(s: Text) returns (delim: Text, n: nat, ok: bool)
    ensures ok <==> DelimWord(s).Some? && DelimWord(s).value.text != []
    ensures ok ==> DelimWord(s).value == Word(delim, n)
  {
    hide DelimWord;
    delim, n := [], 0;
    assert s[0..] == s;
    PrefixedNone(DelimWord(s));
    while n < |s| && !EndsWord(s[n])
      invariant n <= |s|
      invariant DelimWord(s) == Prefixed(delim, n, DelimWord(s[n..]))
    {
      WordStep(s, n);
      if s[n] == '\'' || s[n] == '"' {
        var close := IndexOf(s[n + 1..], s[n]);
        if close == |s| - n - 1 { return [], 0, false; }
        PrefixedTwice(delim, n, s[n + 1..n + 1 + close], close + 2, DelimWord(s[n + close + 2..]));
        delim := delim + s[n + 1..n + 1 + close];
        n := n + close + 2;
      } else if s[n] == '\\' {
        if n + 1 >= |s| { return [], 0, false; }
        PrefixedTwice(delim, n, [s[n + 1]], 2, DelimWord(s[n + 2..]));
        delim := delim + [s[n + 1]];
        n := n + 2;
      } else {
        PrefixedTwice(delim, n, [s[n]], 1, DelimWord(s[n + 1..]));
        delim := delim + [s[n]];
        n := n + 1;
      }
    }
    WordStep(s, n);
    PrefixedEnd(delim, n);
    ok := delim != [];
  }

  /** The word from offset `n` on. */
  lemma WordStep(s: Text, n: nat)
    requires n <= |s|
    ensures n == |s| || EndsWord(s[n]) ==> DelimWord(s[n..]) == Some(Word([], 0))
    ensures n < |s| && (s[n] == '\'' || s[n] == '"') ==>
              var close := IndexOf(s[n + 1..], s[n]);
              DelimWord(s[n..]) == if close == |s| - n - 1 then None
                                   else Prefixed(s[n + 1..n + 1 + close], close + 2, DelimWord(s[n + close + 2..]))
    ensures n < |s| && s[n] == '\\' ==>
              DelimWord(s[n..]) == if n + 1 == |s| then None else Prefixed([s[n + 1]], 2, DelimWord(s[n + 2..]))
    ensures n < |s| && !EndsWord(s[n]) && s[n] != '\'' && s[n] != '"' && s[n] != '\\' ==>
              DelimWord(s[n..]) == Prefixed([s[n]], 1, DelimWord(s[n + 1..]))
  {
    hide DelimWord;
    var rest := s[n..];
    WordCases(rest);
    if rest != [] {
      RestOfRest(s, n, 1);
      if s[n] == '\'' || s[n] == '"' {
        var close := IndexOf(rest[1..], rest[0]);
        if close < |rest| - 1 {
          RestOfRest(s, n, close + 2);
          assert rest[1..1 + close] == s[n + 1..n + 1 + close];
        }
      } else if s[n] == '\\' {
        if |rest| > 1 { RestOfRest(s, n, 2); }
      }
    }
  }

  lemma WordCases(r: Text)
    ensures r == [] || EndsWord(r[0]) ==> DelimWord(r) == Some(Word([], 0))
    ensures r != [] && (r[0] == '\'' || r[0] == '"') ==>
              var close := IndexOf(r[1..], r[0]);
              DelimWord(r) == if close == |r| - 1 then None else Prefixed(r[1..1 + close], close + 2, DelimWord(r[close + 2..]))
    ensures r != [] && r[0] == '\\' ==>
              DelimWord(r) == if |r| == 1 then None else Prefixed([r[1]], 2, DelimWord(r[2..]))
    ensures r != [] && !EndsWord(r[0]) && r[0] != '\'' && r[0] != '"' && r[0] != '\\' ==>
              DelimWord(r) == Prefixed([r[0]], 1, DelimWord(r[1..]))
  {
  }

  lemma RestOfRest(s: Text, n: nat, k: nat)
    requires n + k <= |s|
    ensures s[n..][k..] == s[n + k..]
  {
  }

  lemma PrefixedNone(w: Option<Word>)
    ensures Prefixed([], 0, w) == w
  {
    if w.Some? { assert [] + w.value.text == w.value.text; }
  }

  lemma PrefixedEnd(text: Text, n: nat)
    ensures Prefixed(text, n, Some(Word([], 0))) == Some(Word(text, n))
  {
    assert text + [] == text;
  }

  lemma PrefixedTwice(a: Text, n: nat, b: Text, m: nat, w: Option<Word>)
    ensures Prefixed(a, n, Prefixed(b, m, w)) == Prefixed(a + b, n + m, w)
  {
    if w.Some? { assert a + (b + w.value.text) == (a + b) + w.value.text; }
  }
}
