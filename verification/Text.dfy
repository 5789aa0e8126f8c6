/** Text and lines as the edit tools see them; a char stands for a byte. */
module Text {

  predicate OneLine(s: string) { '\n' !in s }

  /** strings.Split(s, "\n"). */
  function Split(s: string): (lines: seq<string>)
    ensures |lines| > 0
  {
    if s == "" then [""]
    else
      var rest := Split(s[1..]);
      if s[0] == '\n' then [""] + rest else [[s[0]] + rest[0]] + rest[1..]
  }

  /** strings.Join(lines, "\n"). */
  function Join(lines: seq<string>): string {
    if lines == [] then "" else if |lines| == 1 then lines[0] else lines[0] + "\n" + Join(lines[1..])
  }

  lemma {:induction false} JoinSplit(s: string)
    ensures Join(Split(s)) == s
  {
    if s != "" {
      JoinSplit(s[1..]);
      var rest := Split(s[1..]);
      if s[0] == '\n' {
        assert ([""] + rest)[1..] == rest;
        assert s == "\n" + s[1..];
      } else {
        var l := [[s[0]] + rest[0]] + rest[1..];
        assert l[1..] == rest[1..];
        assert s == [s[0]] + s[1..];
        if |rest| > 1 { assert [s[0]] + (rest[0] + "\n" + Join(rest[1..])) == [s[0]] + rest[0] + "\n" + Join(rest[1..]); }
      }
    }
  }

  lemma {:induction false} SplitIsLines(s: string)
    ensures forall i :: 0 <= i < |Split(s)| ==> OneLine(Split(s)[i])
  {
    if s != "" { SplitIsLines(s[1..]); }
  }

  lemma {:induction false} SplitOneLine(s: string)
    requires OneLine(s)
    ensures Split(s) == [s]
  {
    if s != "" {
      SplitOneLine(s[1..]);
      assert s == [s[0]] + s[1..];
    }
  }

  /** A line break splits. */
  lemma {:induction false} SplitAtBreak(a: string, b: string)
    requires OneLine(a)
    ensures Split(a + "\n" + b) == [a] + Split(b)
  {
    var s := a + "\n" + b;
    if a == "" {
      assert s[1..] == b;
    } else {
      assert s[1..] == a[1..] + "\n" + b && s[0] == a[0];
      SplitAtBreak(a[1..], b);
      assert a == [a[0]] + a[1..];
      assert ([a[1..]] + Split(b))[1..] == Split(b);
    }
  }

  lemma {:induction false} SplitJoin(lines: seq<string>)
    requires lines != [] && forall i :: 0 <= i < |lines| ==> OneLine(lines[i])
    ensures Split(Join(lines)) == lines
  {
    if |lines| == 1 {
      SplitOneLine(lines[0]);
    } else {
      SplitJoin(lines[1..]);
      SplitAtBreak(lines[0], Join(lines[1..]));
      assert lines == [lines[0]] + lines[1..];
    }
  }

  lemma {:induction false} JoinAppend(a: seq<string>, b: seq<string>)
    requires a != [] && b != []
    ensures Join(a + b) == Join(a) + "\n" + Join(b)
  {
    if |a| == 1 {
      assert (a + b)[1..] == b;
    } else {
      assert (a + b)[1..] == a[1..] + b;
      JoinAppend(a[1..], b);
      assert a[0] + "\n" + (Join(a[1..]) + "\n" + Join(b)) == a[0] + "\n" + Join(a[1..]) + "\n" + Join(b);
    }
  }

  // ---------------------------------------------------------------------
  // White space

  predicate IsSpace(c: char) {
    c == ' ' || c == '\t' || c == '\n' || c == '\r' || c == '\U{b}' || c == '\U{c}'
  }

  /** strings.TrimSpace(s) == "". */
  predicate Blank(s: string) { forall i :: 0 <= i < |s| ==> IsSpace(s[i]) }

  function TrimLeft(s: string): string {
    if s != "" && IsSpace(s[0]) then TrimLeft(s[1..]) else s
  }

  function TrimRight(s: string): string {
    if s != "" && IsSpace(s[|s| - 1]) then TrimRight(s[..|s| - 1]) else s
  }

  function TrimSpace(s: string): string { TrimRight(TrimLeft(s)) }

  lemma {:induction false} TrimLeftBlank(s: string)
    ensures TrimLeft(s) == "" <==> Blank(s)
    ensures !Blank(s) ==> !Blank(TrimLeft(s))
  {
    if s != "" {
      TrimLeftBlank(s[1..]);
      assert Blank(s) <==> IsSpace(s[0]) && Blank(s[1..]);
    }
  }

  lemma {:induction false} TrimRightBlank(s: string)
    ensures TrimRight(s) == "" <==> Blank(s)
  {
    if s != "" {
      TrimRightBlank(s[..|s| - 1]);
      assert Blank(s) <==> IsSpace(s[|s| - 1]) && Blank(s[..|s| - 1]);
    }
  }

  lemma TrimBlank(s: string)
    ensures TrimSpace(s) == "" <==> Blank(s)
  {
    TrimLeftBlank(s);
    TrimRightBlank(TrimLeft(s));
  }

  /** The leading tabs and spaces of a line. */
  function Lead(l: string): (r: string)
    ensures |r| <= |l| && r == l[..|r|]
  {
    if l != "" && (l[0] == ' ' || l[0] == '\t') then [l[0]] + Lead(l[1..]) else ""
  }

  predicate IsIndent(s: string) { forall i :: 0 <= i < |s| ==> s[i] == ' ' || s[i] == '\t' }

  lemma {:induction false} LeadIs(l: string)
    ensures IsIndent(Lead(l))
    ensures |Lead(l)| < |l| ==> l[|Lead(l)|] != ' ' && l[|Lead(l)|] != '\t'
    ensures !Blank(l) ==> |Lead(l)| < |l|
  {
    if l != "" && (l[0] == ' ' || l[0] == '\t') {
      LeadIs(l[1..]);
      assert !Blank(l) ==> !Blank(l[1..]);
    }
  }

  /** An indentation in front of text that starts with none is that line's. */
  lemma {:induction false} LeadOf(indent: string, rest: string)
    requires IsIndent(indent) && (rest != "" ==> rest[0] != ' ' && rest[0] != '\t')
    ensures Lead(indent + rest) == indent
  {
    if indent == "" {
      assert indent + rest == rest;
    } else {
      assert (indent + rest)[1..] == indent[1..] + rest;
      LeadOf(indent[1..], rest);
    }
  }

  function Repeat(s: string, n: nat): string {
    if n == 0 then "" else s + Repeat(s, n - 1)
  }
}
