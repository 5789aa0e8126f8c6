/** Where a command is cut (internal/agent/commit_policy.go): an independent reading of the
    command, character by character, says in which state each one stands -- quoted,
    escaped, inside `$(` or inside a heredoc -- and the segments end exactly at the
    separators that stand bare at the top level. */
module ShellReading {
  import opened Wrappers
  import opened ShellScan
  import opened ShellLocality

  // ---------------------------------------------------------------------
  // Heredoc operators and bodies, by position

  /** Inside a delimiter word: outside quotes, inside the given quotes, or behind a
      backslash. */
  datatype Phase = Outside | Within(quote: char) | Behind

  /** The word from offset `p` on, one character after the other, and where it ends; none
      when a quote or a backslash is left open. */
  function WordFrom(s: Text, p: nat, phase: Phase, text: Text): Option<Word>
    requires p <= |s|
    decreases |s| - p
  {
    if p == |s| then (if phase.Outside? then Some(Word(text, p)) else None)
    else
      match phase
      case Behind => WordFrom(s, p + 1, Outside, text + [s[p]])
      case Within(quote) =>
        if s[p] == quote then WordFrom(s, p + 1, Outside, text) else WordFrom(s, p + 1, phase, text + [s[p]])
      case Outside =>
        if EndsWord(s[p]) then Some(Word(text, p))
        else if s[p] == '\'' || s[p] == '"' then WordFrom(s, p + 1, Within(s[p]), text)
        else if s[p] == '\\' then WordFrom(s, p + 1, Behind, text)
        else WordFrom(s, p + 1, Outside, text + [s[p]])
  }

  function BehindBlanks(s: Text, p: nat): (q: nat)
    requires p <= |s|
    ensures p <= q <= |s|
    decreases |s| - p
  {
    if p < |s| && IsBlank(s[p]) then BehindBlanks(s, p + 1) else p
  }

  /** The heredoc that `<<` at `i` announces, and where its operator ends. */
  function Announced(s: Text, i: nat): Option<Operator>
    requires i + 2 <= |s|
  {
    var tabs := i + 2 < |s| && s[i + 2] == '-';
    var w := WordFrom(s, BehindBlanks(s, if tabs then i + 3 else i + 2), Outside, []);
    if w.None? || w.value.text == [] then None else Some(Operator(Heredoc(w.value.text, tabs), w.value.n))
  }

  function LineStop(s: Text, p: nat): (q: nat)
    requires p <= |s|
    ensures p <= q <= |s|
    decreases |s| - p
  {
    if p == |s| || s[p] == '\n' then p else LineStop(s, p + 1)
  }

  /** The line is the delimiter, behind any tabs if those are not to count. */
  ghost predicate IsDelimiter(line: Text, h: Heredoc) {
    if h.stripTabs then
      exists k: nat :: k <= |line| && line[k..] == h.delim && (forall i :: 0 <= i < k ==> line[i] == '\t') &&
        (k < |line| ==> line[k] != '\t')
    else line == h.delim
  }

  /** Where the bodies end that begin behind the line break at `i`: at the end of the line
      that is the last one's delimiter, each body running to the first line that is its own. */
  ghost function BodiesEnd(s: Text, i: nat, pending: seq<Heredoc>): Option<nat>
    requires i <= |s|
    decreases |s| - i
  {
    if pending == [] then Some(i)
    else if i == |s| then None
    else
      var stop := LineStop(s, i + 1);
      BodiesEnd(s, stop, if IsDelimiter(s[i + 1..stop], pending[0]) then pending[1..] else pending)
  }

  // ---------------------------------------------------------------------
  // They are the scanner's

  lemma {:induction false} WordIs(s: Text, p: nat, text: Text)
    requires p <= |s|
    ensures WordFrom(s, p, Outside, text) == Moved(Prefixed(text, 0, DelimWord(s[p..])), p)
    decreases |s| - p
  {
    hide DelimWord, WordFrom, Moved, Prefixed, IndexOf;
    WordStep(s, p);
    FromCases(s, p, text);
    if p == |s| || EndsWord(s[p]) {
      PrefixedEnd(text, 0);
      MovedEnd(text, p);
    } else if s[p] == '\'' || s[p] == '"' {
      var close := IndexOf(s[p + 1..], s[p]);
      QuotedIs(s, p + 1, s[p], text);
      if close < |s| - p - 1 { WordGoes(s, p, text, s[p + 1..p + 1 + close], close + 2); } else { MovedNone(text, p); }
    } else if s[p] == '\\' {
      if p + 1 < |s| { WordGoes(s, p, text, [s[p + 1]], 2); } else { MovedNone(text, p); }
    } else {
      WordGoes(s, p, text, [s[p]], 1);
    }
  }

  lemma FromCases(s: Text, p: nat, text: Text)
    requires p <= |s|
    ensures p == |s| || EndsWord(s[p]) ==> WordFrom(s, p, Outside, text) == Some(Word(text, p))
    ensures p < |s| && (s[p] == '\'' || s[p] == '"') ==>
              WordFrom(s, p, Outside, text) == WordFrom(s, p + 1, Within(s[p]), text)
    ensures p < |s| && s[p] == '\\' ==>
              WordFrom(s, p, Outside, text) == if p + 1 == |s| then None else WordFrom(s, p + 2, Outside, text + [s[p + 1]])
    ensures p < |s| && !EndsWord(s[p]) && s[p] != '\'' && s[p] != '"' && s[p] != '\\' ==>
              WordFrom(s, p, Outside, text) == WordFrom(s, p + 1, Outside, text + [s[p]])
  {
  }

  lemma WordGoes(s: Text, p: nat, text: Text, more: Text, n: nat)
    requires n > 0 && p + n <= |s|
    ensures Moved(Prefixed(text, 0, Prefixed(more, n, DelimWord(s[p + n..]))), p) == WordFrom(s, p + n, Outside, text + more)
    decreases |s| - p, 0
  {
    hide DelimWord, WordFrom;
    WordIs(s, p + n, text + more);
    PrefixedTwice(text, 0, more, n, DelimWord(s[p + n..]));
  }

  lemma MovedEnd(text: Text, p: nat)
    ensures Moved(Some(Word(text, 0)), p) == Some(Word(text, p))
  {
  }

  lemma MovedNone(text: Text, p: nat)
    ensures Moved(Prefixed(text, 0, None), p) == None
  {
  }

  function Moved(w: Option<Word>, p: nat): Option<Word> {
    if w.None? then None else Some(Word(w.value.text, w.value.n + p))
  }

  /** Inside quotes everything up to the closing one is taken. */
  lemma {:induction false} QuotedIs(s: Text, p: nat, quote: char, text: Text)
    requires p <= |s|
    ensures var close := IndexOf(s[p..], quote);
            WordFrom(s, p, Within(quote), text) ==
            if close == |s| - p then None else WordFrom(s, p + close + 1, Outside, text + s[p..p + close])
    decreases |s| - p
  {
    if p < |s| {
      assert s[p..][0] == s[p] && s[p..][1..] == s[p + 1..];
      if s[p] == quote {
        assert text + s[p..p] == text;
      } else {
        QuotedIs(s, p + 1, quote, text + [s[p]]);
        var close := IndexOf(s[p + 1..], quote);
        if close < |s| - p - 1 { assert text + [s[p]] + s[p + 1..p + 1 + close] == text + s[p..p + 1 + close]; }
      }
    }
  }

  lemma {:induction false} BlanksAre(s: Text, p: nat)
    requires p <= |s|
    ensures BehindBlanks(s, p) == p + SkipBlanks(s[p..])
    decreases |s| - p
  {
    if p < |s| {
      assert s[p..][0] == s[p] && s[p..][1..] == s[p + 1..];
      if IsBlank(s[p]) { BlanksAre(s, p + 1); }
    }
  }

  lemma AnnouncedIs(s: Text, i: nat)
    requires i + 2 <= |s|
    ensures var o := HeredocAt(s[i..]);
            Announced(s, i) == if o.None? then None else Some(o.value.(n := i + o.value.n))
  {
    hide DelimWord, WordFrom, SkipBlanks, BehindBlanks;
    var r := s[i..];
    assert i + 2 < |s| ==> r[2] == s[i + 2];
    var tabs := i + 2 < |s| && s[i + 2] == '-';
    var j := if tabs then 3 else 2;
    assert r[j..] == s[i + j..];
    BlanksAre(s, i + j);
    var k := j + SkipBlanks(r[j..]);
    assert r[k..] == s[i + k..];
    WordIs(s, i + k, []);
    PrefixedNone(DelimWord(r[k..]));
  }

  lemma {:induction false} LineStopIs(s: Text, p: nat)
    requires p <= |s|
    ensures LineStop(s, p) == p + IndexOf(s[p..], '\n')
    decreases |s| - p
  {
    if p < |s| {
      assert s[p..][0] == s[p] && s[p..][1..] == s[p + 1..];
      if s[p] != '\n' { LineStopIs(s, p + 1); }
    }
  }

  lemma {:induction false} TabsAre(line: Text)
    ensures var n := LeadTabs(line); (forall i :: 0 <= i < n ==> line[i] == '\t') && (n < |line| ==> line[n] != '\t')
  {
    if line != [] && line[0] == '\t' {
      TabsAre(line[1..]);
      assert forall i :: 1 <= i < |line| ==> line[i] == line[1..][i - 1];
    }
  }

  lemma DelimiterIs(line: Text, h: Heredoc)
    ensures IsDelimiter(line, h) <==> ClosesHeredoc(line, h)
  {
    TabsAre(line);
    if h.stripTabs && IsDelimiter(line, h) {
      var k: nat :| k <= |line| && line[k..] == h.delim && (forall i :: 0 <= i < k ==> line[i] == '\t') &&
        (k < |line| ==> line[k] != '\t');
      assert k == LeadTabs(line);
    }
  }

  lemma BodiesStep(s: Text, i: nat, pending: seq<Heredoc>)
    requires i <= |s|
    ensures pending == [] ==> BodiesEnd(s, i, pending) == Some(i)
    ensures pending != [] && i == |s| ==> BodiesEnd(s, i, pending) == None
    ensures pending != [] && i < |s| ==>
              var stop := LineStop(s, i + 1);
              BodiesEnd(s, i, pending) ==
              BodiesEnd(s, stop, if IsDelimiter(s[i + 1..stop], pending[0]) then pending[1..] else pending)
  {
  }

  lemma LineAt(s: Text, i: nat, m: nat)
    requires i < |s| && 0 < m <= |s| - i
    ensures s[i..][1..] == s[i + 1..] && s[i..][1..m] == s[i + 1..i + m] && s[i..][m..] == s[i + m..]
  {
  }

  lemma {:induction false} BodiesEndIs(s: Text, i: nat, pending: seq<Heredoc>)
    requires i <= |s|
    ensures var n := BodyLength(s[i..], pending);
            BodiesEnd(s, i, pending) == if n.None? then None else Some(i + n.value)
    decreases |s| - i
  {
    hide BodyLength, BodiesEnd, LineStop, IndexOf, IsDelimiter, ClosesHeredoc, AfterLine, Further;
    BodyCases(s[i..], pending);
    BodiesStep(s, i, pending);
    if pending != [] && i < |s| {
      LineStopIs(s, i + 1);
      var m := 1 + IndexOf(s[i + 1..], '\n');
      LineAt(s, i, m);
      AfterLineIs(s[i + 1..i + m], pending);
      BodiesEndIs(s, i + m, AfterLine(s[i + 1..i + m], pending));
      FurtherIs(BodyLength(s[i + m..], AfterLine(s[i + 1..i + m], pending)), m);
    }
  }

  lemma FurtherIs(n: Option<nat>, m: nat)
    ensures Further(n, m) == if n.None? then None else Some(m + n.value)
  {
  }

  lemma AfterLineIs(line: Text, pending: seq<Heredoc>)
    requires pending != []
    ensures AfterLine(line, pending) == if IsDelimiter(line, pending[0]) then pending[1..] else pending
  {
    hide IsDelimiter, ClosesHeredoc;
    DelimiterIs(line, pending[0]);
  }

  // ---------------------------------------------------------------------
  // The reading

  /** The state behind one character that is read on its own. */
  function Behind1(s: Text, i: nat, st: Lex): Lex
    requires i < |s|
  {
    if st.esc then st.(esc := false)
    else if s[i] == '\\' then st.(esc := true)
    else if s[i] == '\'' && !st.inDouble then st.(inSingle := !st.inSingle)
    else if s[i] == '"' && !st.inSingle then st.(inDouble := !st.inDouble)
    else if s[i] == ')' && st.Bare() && st.stack != [] then
      st.(inDouble := st.stack[|st.stack| - 1], stack := st.stack[..|st.stack| - 1])
    else st
  }

  /** A command substitution begins: `$(` outside single quotes, not escaped. */
  predicate SubstitutionAt(s: Text, i: nat, st: Lex) {
    i + 1 < |s| && s[i] == '$' && s[i + 1] == '(' && !st.inSingle && !st.esc
  }

  /** Neither quoted nor escaped. */
  predicate Plainly(st: Lex) { st.Bare() && !st.esc }

  predicate TwoAt(s: Text, i: nat) { i + 1 < |s| && s[i] == '<' && s[i + 1] == '<' }

  predicate ThreeAt(s: Text, i: nat) { TwoAt(s, i) && i + 2 < |s| && s[i + 2] == '<' }

  /** Behind the line break at `i` the queued heredoc bodies begin. */
  predicate BodiesAt(s: Text, i: nat, st: Lex) { i < |s| && s[i] == '\n' && Plainly(st) && st.pending != [] }

  /** In which state each character from `i` on, and the end, is read; none for those inside
      a heredoc or here-string operator, a heredoc body, or `$(`.  No reading when a
      heredoc is malformed or does not end. */
  ghost function Reading(s: Text, i: nat, st: Lex): (r: Option<seq<Option<Lex>>>)
    requires i <= |s|
    ensures r.Some? ==> |r.value| == |s| - i + 1 && r.value[0] == Some(st)
    decreases |s| - i
  {
    if i == |s| then (if st.pending == [] then Some([Some(st)]) else None)
    else if TwoAt(s, i) && Plainly(st) then
      if ThreeAt(s, i) then Onward(s, i, st, i + 3, st)
      else
        var o := Announced(s, i);
        if o.None? || !(i < o.value.n <= |s|) then None
        else Onward(s, i, st, o.value.n, st.(pending := st.pending + [o.value.heredoc]))
    else if BodiesAt(s, i, st) then
      var end := BodiesEnd(s, i, st.pending);
      if end.None? || !(i < end.value <= |s|) then None else Onward(s, i, st, end.value, st.(pending := []))
    else if SubstitutionAt(s, i, st) then Onward(s, i, st, i + 2, st.(stack := st.stack + [st.inDouble], inDouble := false))
    else Onward(s, i, st, i + 1, Behind1(s, i, st))
  }

  /** One stretch from `i` to `j`, then the rest. */
  ghost function Onward(s: Text, i: nat, st: Lex, j: nat, st': Lex): (r: Option<seq<Option<Lex>>>)
    requires i < j <= |s|
    ensures r.Some? ==> |r.value| == |s| - i + 1 && r.value[0] == Some(st)
    decreases |s| - i, 0
  {
    var rest := Reading(s, j, st');
    if rest.None? then None else Some([Some(st)] + seq(j - i - 1, _ => None) + rest.value)
  }

  /** The separator that stands at `i`, or nothing. */
  function Separator(s: Text, i: nat): Text
    requires i < |s|
  {
    if s[i] == ';' then ";"
    else if s[i] == '\n' then "\n"
    else if s[i] == '|' then (if i + 1 < |s| && s[i + 1] == '|' then "||" else "|")
    else if s[i] == '&' && i + 1 < |s| && s[i + 1] == '&' then "&&"
    else ""
  }

  /** The character at `i` begins a separator of segments: it stands bare and unescaped at
      the top level, and is no line break before heredoc bodies. */
  predicate Separates(s: Text, i: nat, read: Option<Lex>) {
    && i < |s| && read.Some? && Plainly(read.value) && read.value.stack == []
    && Separator(s, i) != "" && !BodiesAt(s, i, read.value)
  }

  /** Heredoc bodies of the segment itself begin behind `i`. */
  predicate OpensBodies(s: Text, i: nat, read: Option<Lex>) {
    read.Some? && BodiesAt(s, i, read.value) && read.value.stack == []
  }

  /** Where flags must go among the first `n` characters from `i` on: before the first
      heredoc bodies, if there are any. */
  predicate FirstBodies(s: Text, i: nat, read: seq<Option<Lex>>, n: nat, inject: Option<nat>)
    requires n <= |read|
  {
    match inject
    case None => forall j :: 0 <= j < n ==> !OpensBodies(s, i + j, read[j])
    case Some(k) => k < n && OpensBodies(s, i + k, read[k]) && forall j :: 0 <= j < k ==> !OpensBodies(s, i + j, read[j])
  }

  predicate NoSeparator(s: Text, i: nat, read: seq<Option<Lex>>, n: nat)
    requires n <= |read|
  {
    forall j :: 0 <= j < n ==> !Separates(s, i + j, read[j])
  }

  /** The pieces are the text from `i` on, cut at its separators and nowhere else. */
  predicate CutThere(s: Text, i: nat, read: seq<Option<Lex>>, ps: seq<Piece>)
    decreases |ps|
  {
    && ps != [] && i <= |s| && |read| == |s| - i + 1
    && var p := ps[0];
       && i + |p.body| <= |s| && s[i..i + |p.body|] == p.body
       && NoSeparator(s, i, read, |p.body|) && FirstBodies(s, i, read, |p.body|, p.inject)
       && if |ps| == 1 then p.sep == "" && i + |p.body| == |s|
          else
            && Separates(s, i + |p.body|, read[|p.body|]) && p.sep == Separator(s, i + |p.body|)
            && i + |p.body| + |p.sep| <= |s|
            && CutThere(s, i + |p.body| + |p.sep|, read[|p.body| + |p.sep|..], ps[1..])
  }

  // ---------------------------------------------------------------------
  // One iteration of the scan is one stretch of the reading

  /** The stretch that an iteration which goes on takes. */
  lemma StepReads(s: Text, i: nat, st: Lex)
    requires i < |s| && Step(s[i..], st).Go?
    ensures var m := Step(s[i..], st);
            && i + m.n <= |s| && Reading(s, i, st) == Onward(s, i, st, i + m.n, m.st)
            && !Separates(s, i, Some(st)) && (m.body <==> OpensBodies(s, i, Some(st)))
  {
    hide HeredocAt, BodyLength, Announced, BodiesEnd;
    var r := s[i..];
    assert r[0] == s[i] && (|r| > 1 ==> r[1] == s[i + 1]) && (|r| > 2 ==> r[2] == s[i + 2]);
    if TwoAt(s, i) && !ThreeAt(s, i) { AnnouncedIs(s, i); }
    if BodiesAt(s, i, st) { BodiesEndIs(s, i, st.pending); }
  }

  lemma StepRefuses(s: Text, i: nat, st: Lex)
    requires i < |s| && Step(s[i..], st).Refuse?
    ensures Reading(s, i, st) == None
  {
    hide HeredocAt, BodyLength, Announced, BodiesEnd;
    var r := s[i..];
    assert r[0] == s[i] && (|r| > 1 ==> r[1] == s[i + 1]) && (|r| > 2 ==> r[2] == s[i + 2]);
    if TwoAt(s, i) && !ThreeAt(s, i) { AnnouncedIs(s, i); }
    if BodiesAt(s, i, st) { BodiesEndIs(s, i, st.pending); }
  }

  /** A cut is at a separator, and the reading passes over it in the same state. */
  lemma CutReads(s: Text, i: nat, st: Lex)
    requires i < |s| && Step(s[i..], st).Cut?
    ensures Separates(s, i, Some(st)) && Step(s[i..], st).sep == |Separator(s, i)| && st == Start(st.pending)
  {
    hide HeredocAt, BodyLength;
    var r := s[i..];
    assert r[0] == s[i] && (|r| > 1 ==> r[1] == s[i + 1]) && (|r| > 2 ==> r[2] == s[i + 2]);
  }

  lemma OnwardKeeps(s: Text, i: nat, st: Lex, j: nat, st': Lex)
    requires i < j <= |s|
    ensures Onward(s, i, st, j, st').Some? <==> Reading(s, j, st').Some?
    ensures Onward(s, i, st, j, st').Some? ==>
              var read := Onward(s, i, st, j, st').value;
              && read[0] == Some(st) && (forall k :: 0 < k < j - i ==> read[k] == None)
              && read[j - i..] == Reading(s, j, st').value
  {
    hide Reading;
  }

  /** What is said of a segment's characters from `j` on holds from `i` on, when `i` is no
      separator and the characters between are inside something. */
  lemma StretchBack(s: Text, i: nat, read: seq<Option<Lex>>, n: nat, rest: seq<Option<Lex>>, len: nat,
                    inject: Option<nat>, body: bool)
    requires 0 < n && |read| == n + |rest| && read[n..] == rest && len <= |rest|
    requires (forall k :: 0 < k < n ==> read[k] == None) && !Separates(s, i, read[0]) && (body <==> OpensBodies(s, i, read[0]))
    requires NoSeparator(s, i + n, rest, len) && FirstBodies(s, i + n, rest, len, inject)
    ensures NoSeparator(s, i, read, n + len) && FirstBodies(s, i, read, n + len, if body then Some(0) else Shift(inject, n))
  {
    hide Separates, Plainly, BodiesAt;
    assert forall k :: 0 <= k < |rest| ==> read[n + k] == rest[k];
    forall k | 0 <= k < n + len ensures !Separates(s, i + k, read[k]) {
      if k >= n { assert !Separates(s, i + n + (k - n), rest[k - n]); } else if k > 0 { NoneSeparates(s, i + k); }
    }
    if !body {
      forall k | 0 <= k < n + len && (inject.Some? ==> k < n + inject.value) ensures !OpensBodies(s, i + k, read[k]) {
        if k >= n { assert !OpensBodies(s, i + n + (k - n), rest[k - n]); }
      }
    }
  }

  lemma NoneSeparates(s: Text, i: nat)
    ensures !Separates(s, i, None)
  {
  }

  /** A segment is a stretch of the reading without separators; behind it the reading goes
      on in the state the next segment starts in. */
  lemma {:induction false} SegmentReads(s: Text, i: nat, st: Lex)
    requires i <= |s|
    ensures ScanOne(s[i..], st) == None ==> Reading(s, i, st) == None
    ensures ScanOne(s[i..], st).Some? ==>
              var g := ScanOne(s[i..], st).value;
              && i + g.len + g.sep <= |s|
              && (g.sep > 0 ==> Separates(s, i + g.len, Some(Start(g.pending))) && g.sep == |Separator(s, i + g.len)|)
              && (Reading(s, i, st).Some? <==> g.sep == 0 || Reading(s, i + g.len, Start(g.pending)).Some?)
              && (Reading(s, i, st).Some? ==> ReadsSegment(s, i, Reading(s, i, st).value, g))
    decreases |s| - i
  {
    hide ScanOne, Step, Reading, Onward, Separates, OpensBodies, NoSeparator, FirstBodies;
    if i == |s| {
      EndReads(s, st);
    } else {
      ScanUnfolds(s[i..], st);
      if Step(s[i..], st).Refuse? {
        StepRefuses(s, i, st);
      } else if Step(s[i..], st).Cut? {
        CutReads(s, i, st);
        if Reading(s, i, st).Some? { CutSegment(s, i, st); }
      } else {
        var m := Step(s[i..], st);
        StepReads(s, i, st);
        assert s[i..][m.n..] == s[i + m.n..];
        SegmentReads(s, i + m.n, m.st);
        OnwardKeeps(s, i, st, i + m.n, m.st);
        if Reading(s, i, st).Some? { GoSegment(s, i, st, m); }
      }
    }
  }

  ghost predicate ReadsSegment(s: Text, i: nat, read: seq<Option<Lex>>, g: Segment)
    requires i + g.len + g.sep <= |s| && |read| == |s| - i + 1
  {
    && NoSeparator(s, i, read, g.len) && FirstBodies(s, i, read, g.len, g.inject)
    && (g.sep == 0 ==> i + g.len == |s|)
    && (g.sep > 0 ==> Separates(s, i + g.len, read[g.len]) && g.sep == |Separator(s, i + g.len)|
                      && Reading(s, i + g.len, Start(g.pending)) == Some(read[g.len..]))
  }

  lemma EndReads(s: Text, st: Lex)
    ensures s[|s|..] == [] && (st.pending != [] ==> ScanOne([], st) == None && Reading(s, |s|, st) == None)
    ensures st.pending == [] ==> ScanOne([], st) == Some(Segment(0, None, 0, [])) && Reading(s, |s|, st) == Some([Some(st)])
    ensures NoSeparator(s, |s|, [Some(st)], 0) && FirstBodies(s, |s|, [Some(st)], 0, None)
  {
  }

  lemma CutSegment(s: Text, i: nat, st: Lex)
    requires i < |s| && Step(s[i..], st).Cut? && Separates(s, i, Some(st)) && st == Start(st.pending)
    requires Step(s[i..], st).sep == |Separator(s, i)| && Reading(s, i, st).Some?
    ensures ReadsSegment(s, i, Reading(s, i, st).value, Segment(0, None, Step(s[i..], st).sep, st.pending))
  {
    hide Step, Reading, Separates;
    var read := Reading(s, i, st).value;
    assert read[0..] == read;
  }

  lemma GoSegment(s: Text, i: nat, st: Lex, m: Move)
    requires i < |s| && m.Go? && 0 < m.n && i + m.n <= |s| && Reading(s, i, st) == Onward(s, i, st, i + m.n, m.st)
    requires !Separates(s, i, Some(st)) && (m.body <==> OpensBodies(s, i, Some(st))) && Reading(s, i, st).Some?
    requires ScanOne(s[i + m.n..], m.st).Some?
    requires var g := ScanOne(s[i + m.n..], m.st).value;
             i + m.n + g.len + g.sep <= |s| && Reading(s, i + m.n, m.st).Some? &&
             ReadsSegment(s, i + m.n, Reading(s, i + m.n, m.st).value, g)
    ensures var g := Longer(ScanOne(s[i + m.n..], m.st), m.n, m.body).value;
            i + g.len + g.sep <= |s| && ReadsSegment(s, i, Reading(s, i, st).value, g)
  {
    hide ScanOne, Reading, Onward, Separates, OpensBodies, NoSeparator, FirstBodies;
    OnwardKeeps(s, i, st, i + m.n, m.st);
    var g := ScanOne(s[i + m.n..], m.st).value;
    var read, rest := Reading(s, i, st).value, Reading(s, i + m.n, m.st).value;
    StretchBack(s, i, read, m.n, rest, g.len, g.inject, m.body);
    assert rest[g.len..] == read[m.n + g.len..];
    assert read[m.n + g.len] == rest[g.len];
  }

  lemma OneReads(s: Text, i: nat, pending: seq<Heredoc>)
    requires i < |s| && (s[i] == ';' || s[i] == '|' || s[i] == '&' || (s[i] == '\n' && pending == []))
    ensures Reading(s, i, Start(pending)) == Onward(s, i, Start(pending), i + 1, Start(pending))
  {
  }

  /** The reading passes over a separator in the same state. */
  lemma SeparatorReads(s: Text, i: nat, pending: seq<Heredoc>)
    requires i < |s| && Separates(s, i, Some(Start(pending)))
    ensures var n := |Separator(s, i)|;
            && 0 < n && i + n <= |s| && s[i..i + n] == Separator(s, i)
            && (Reading(s, i, Start(pending)).Some? <==> Reading(s, i + n, Start(pending)).Some?)
            && (Reading(s, i, Start(pending)).Some? ==>
                  Reading(s, i, Start(pending)).value[n..] == Reading(s, i + n, Start(pending)).value)
  {
    hide Reading, Onward;
    var st := Start(pending);
    OneReads(s, i, pending);
    OnwardKeeps(s, i, st, i + 1, st);
    if |Separator(s, i)| == 2 {
      OneReads(s, i + 1, pending);
      OnwardKeeps(s, i + 1, st, i + 2, st);
      if Reading(s, i, st).Some? { assert Reading(s, i, st).value[1..][1..] == Reading(s, i, st).value[2..]; }
    }
  }

  lemma CutOne(s: Text, i: nat, read: seq<Option<Lex>>, p: Piece)
    requires i <= |s| && |read| == |s| - i + 1 && p.body == s[i..] && p.sep == ""
    requires NoSeparator(s, i, read, |p.body|) && FirstBodies(s, i, read, |p.body|, p.inject)
    ensures CutThere(s, i, read, [p])
  {
    hide NoSeparator, FirstBodies;
  }

  lemma CutCons(s: Text, i: nat, read: seq<Option<Lex>>, p: Piece, rest: seq<Piece>)
    requires i + |p.body| + |p.sep| <= |s| && |read| == |s| - i + 1 && s[i..i + |p.body|] == p.body && rest != []
    requires NoSeparator(s, i, read, |p.body|) && FirstBodies(s, i, read, |p.body|, p.inject)
    requires Separates(s, i + |p.body|, read[|p.body|]) && p.sep == Separator(s, i + |p.body|)
    requires CutThere(s, i + |p.body| + |p.sep|, read[|p.body| + |p.sep|..], rest)
    ensures CutThere(s, i, read, [p] + rest)
  {
    hide NoSeparator, FirstBodies, Separates, Separator;
    assert ([p] + rest)[1..] == rest;
  }

  /** A command is cut into segments exactly when it has a reading, and then at exactly the
      separators that the reading shows bare and unescaped at the top level; the flags of a
      segment go before its first heredoc bodies. */
  lemma {:induction false} CutsExactly(s: Text, i: nat, pending: seq<Heredoc>)
    requires i <= |s|
    ensures Pieces(s[i..], pending).Some? <==> Reading(s, i, Start(pending)).Some?
    ensures Pieces(s[i..], pending).Some? ==>
              CutThere(s, i, Reading(s, i, Start(pending)).value, Pieces(s[i..], pending).value)
    decreases |s| - i
  {
    hide ScanOne, Reading, Separates, NoSeparator, FirstBodies, Separator, Pieces, CutThere;
    SegmentReads(s, i, Start(pending));
    PiecesUnfold(s[i..], pending);
    if ScanOne(s[i..], Start(pending)).Some? {
      var g := ScanOne(s[i..], Start(pending)).value;
      var e := i + g.len;
      PieceText(s, i, g);
      var p := Piece(s[i..e], g.inject, s[e..e + g.sep]);
      if g.sep == 0 {
        if Reading(s, i, Start(pending)).Some? { CutOne(s, i, Reading(s, i, Start(pending)).value, p); }
      } else {
        SeparatorReads(s, e, g.pending);
        CutsExactly(s, e + g.sep, g.pending);
        if Reading(s, i, Start(pending)).Some? {
          var read := Reading(s, i, Start(pending)).value;
          RestOfReading(read, g.len, g.sep);
          CutsSome(s, e + g.sep, read[g.len + g.sep..], Pieces(s[e + g.sep..], g.pending).value);
          CutCons(s, i, read, p, Pieces(s[e + g.sep..], g.pending).value);
        }
      }
    }
  }

  lemma PieceText(s: Text, i: nat, g: Segment)
    requires i + g.len + g.sep <= |s|
    ensures s[i..][..g.len] == s[i..i + g.len] && s[i..][g.len..g.len + g.sep] == s[i + g.len..i + g.len + g.sep]
    ensures s[i..][g.len + g.sep..] == s[i + g.len + g.sep..]
  {
  }

  lemma RestOfReading(read: seq<Option<Lex>>, n: nat, m: nat)
    requires n + m <= |read| && n < |read|
    ensures read[n..][m..] == read[n + m..] && read[n..][0] == read[n]
  {
  }

  lemma CutsSome(s: Text, i: nat, read: seq<Option<Lex>>, ps: seq<Piece>)
    requires CutThere(s, i, read, ps)
    ensures ps != []
  {
  }

  /** So the segments are determined by the reading. */
  lemma {:induction false} CutsUnique(s: Text, i: nat, read: seq<Option<Lex>>, a: seq<Piece>, b: seq<Piece>)
    requires CutThere(s, i, read, a) && CutThere(s, i, read, b)
    ensures a == b
    decreases |a|
  {
    hide Separates, Separator, OpensBodies;
    var p, q := a[0], b[0];
    SameLength(s, i, read, a, b);
    assert p.body == q.body && p.inject == q.inject;
    if |a| > 1 {
      CutsUnique(s, i + |p.body| + |p.sep|, read[|p.body| + |p.sep|..], a[1..], b[1..]);
    }
    assert a == [p] + a[1..] && b == [q] + b[1..];
  }

  lemma SameLength(s: Text, i: nat, read: seq<Option<Lex>>, a: seq<Piece>, b: seq<Piece>)
    requires CutThere(s, i, read, a) && CutThere(s, i, read, b)
    ensures |a[0].body| == |b[0].body| && (|a| == 1 <==> |b| == 1) && a[0].sep == b[0].sep
  {
    hide Separator, FirstBodies;
    var n, m := |a[0].body|, |b[0].body|;
    if |a| > 1 { assert Separates(s, i + n, read[n]); }
    if |b| > 1 { assert Separates(s, i + m, read[m]); }
  }
}
