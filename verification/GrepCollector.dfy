/** The per-file line collector of the pure-Go grep backend
    (internal/agent/grep_scan.go): which lines of a file are reported, and where
    the scan of a file stops. */
module GrepCollect {

  type Text = string

  /** One line of a file and whether the query matches it. */
  datatype Line = Line(text: Text, hit: bool)

  /** One reported line, numbered from 1. */
  datatype Printed = Printed(num: nat, text: Text, hit: bool)

  /** `content` is the content mode; the other modes only count. */
  datatype Query = Query(content: bool, context: nat, max: int)

  datatype FileResult = FileResult(count: nat, lines: seq<Printed>)

  // ---------------------------------------------------------------------
  // What is to be reported

  /** Line `i` lies within `context` lines of a match. */
  ghost predicate Near(context: nat, ls: seq<Line>, i: int) {
    exists m :: 0 <= m < |ls| && ls[m].hit && i - context <= m <= i + context
  }

  function Mark(ls: seq<Line>, i: nat): Printed
    requires i < |ls|
  {
    Printed(i + 1, ls[i].text, ls[i].hit)
  }

  /** The lines below index `n` that lie near a match, in order. */
  ghost function NearLines(context: nat, ls: seq<Line>, n: nat): seq<Printed>
    requires n <= |ls|
  {
    if n == 0 then []
    else NearLines(context, ls, n - 1) + (if Near(context, ls, n - 1) then [Mark(ls, n - 1)] else [])
  }

  function MatchCount(ls: seq<Line>): nat {
    if ls == [] then 0 else MatchCount(ls[..|ls| - 1]) + (if ls[|ls| - 1].hit then 1 else 0)
  }

  ghost function Report(q: Query, ls: seq<Line>): FileResult {
    FileResult(MatchCount(ls), if q.content then NearLines(q.context, ls, |ls|) else [])
  }

  /** The scan needs no more lines: more than `budget` matches, and no match
      among the last `context` lines that is still owed context. */
  ghost predicate Done(q: Query, ls: seq<Line>, budget: int) {
    q.content && MatchCount(ls) > budget &&
    forall i :: 0 <= i < |ls| && |ls| - q.context <= i ==> !ls[i].hit
  }

  /** How many lines the scan of `ls` tests, having tested `k` of them. */
  ghost function StopFrom(q: Query, ls: seq<Line>, budget: int, k: nat): (n: nat)
    requires k <= |ls|
    ensures k <= n <= |ls|
    decreases |ls| - k
  {
    if k == |ls| then k
    else if Done(q, ls[..k + 1], budget) then k + 1
    else StopFrom(q, ls, budget, k + 1)
  }

  /** The result of searching a file with these lines under this budget. */
  ghost function Result(q: Query, ls: seq<Line>, budget: int): FileResult {
    Report(q, ls[..StopFrom(q, ls, budget, 0)])
  }

  // ---------------------------------------------------------------------
  // The collector

  /** The index of the last match, or -1. */
  ghost function LastMatch(ls: seq<Line>): (m: int)
    ensures -1 <= m < |ls|
    ensures m >= 0 ==> ls[m].hit
    ensures forall i :: m < i < |ls| ==> !ls[i].hit
  {
    if ls == [] then -1
    else if ls[|ls| - 1].hit then |ls| - 1
    else
      var init := ls[..|ls| - 1];
      assert forall i :: 0 <= i < |init| ==> ls[i] == init[i];
      LastMatch(init)
  }

  /** Context lines still owed after the last match. */
  ghost function Owed(context: nat, ls: seq<Line>): nat {
    var m := LastMatch(ls);
    if m < 0 || |ls| - 1 - m >= context then 0 else context - (|ls| - 1 - m)
  }

  /** The first line that a match right after `ls` would still bring in. */
  ghost function HeldFrom(context: nat, ls: seq<Line>): (lo: nat)
    ensures lo <= |ls|
  {
    var m := LastMatch(ls);
    var recent := if |ls| <= context then 0 else |ls| - context;
    var printed := if m < 0 then 0 else m + context + 1;
    var lo := if recent < printed then printed else recent;
    if |ls| < lo then |ls| else lo
  }

  ghost function Marks(ls: seq<Line>, lo: nat, hi: nat): (r: seq<Printed>)
    requires lo <= hi <= |ls|
    ensures |r| == hi - lo
    ensures forall i :: 0 <= i < |r| ==> r[i] == Mark(ls, lo + i)
  {
    seq(hi - lo, i requires 0 <= i < hi - lo => Mark(ls, lo + i))
  }

  /** A matching line brings in exactly the held lines and itself. */
  lemma MatchExtends(context: nat, ls: seq<Line>, x: Line)
    requires x.hit
    ensures var n := |ls|; var lo := HeldFrom(context, ls);
            NearLines(context, ls + [x], n + 1) == NearLines(context, ls, n) + Marks(ls, lo, n) + [Mark(ls + [x], n)]
  {
    var lo := HeldFrom(context, ls);
    NearSplit(context, ls, x, |ls|);
    assert (ls + [x])[|ls|].hit;
    assert Near(context, ls + [x], |ls|);
  }

  /** A match appended to `ls` reaches exactly the held lines, none of which was
      near a match before. */
  lemma Reach(context: nat, ls: seq<Line>, x: Line, i: nat)
    requires x.hit && i < |ls|
    ensures var lo := HeldFrom(context, ls);
            && (i < lo ==> (Near(context, ls + [x], i) <==> Near(context, ls, i)))
            && (i >= lo ==> Near(context, ls + [x], i) && !Near(context, ls, i))
  {
    var ls', lo, m := ls + [x], HeldFrom(context, ls), LastMatch(ls);
    assert ls'[|ls|] == x;
    if i >= lo {
      assert ls'[|ls|].hit;
    } else {
      if i + context >= |ls| { assert ls[m].hit; }
      NearKept(context, ls, x, i);
    }
  }

  lemma NearKept(context: nat, ls: seq<Line>, x: Line, i: nat)
    requires i < |ls|
    ensures Near(context, ls, i) ==> Near(context, ls + [x], i)
  {
    if Near(context, ls, i) {
      var w :| 0 <= w < |ls| && ls[w].hit && i - context <= w <= i + context;
      assert (ls + [x])[w].hit;
    }
  }

  /** Below a match appended to `ls`: nothing changes up to the held lines, and
      every held line comes in. */
  lemma {:induction false} NearSplit(context: nat, ls: seq<Line>, x: Line, k: nat)
    requires x.hit && k <= |ls|
    ensures var lo := HeldFrom(context, ls);
            NearLines(context, ls + [x], k) ==
            NearLines(context, ls, k) + (if k <= lo then [] else Marks(ls, lo, k))
  {
    hide Near, HeldFrom;
    if k > 0 {
      NearSplit(context, ls, x, k - 1);
      var i, lo := k - 1, HeldFrom(context, ls);
      Reach(context, ls, x, i);
      assert Mark(ls + [x], i) == Mark(ls, i);
      if i >= lo {
        assert Marks(ls, lo, k) == (if i <= lo then [] else Marks(ls, lo, i)) + [Mark(ls, i)];
      }
    }
  }

  /** A line that does not match is printed exactly when context is owed. */
  lemma PlainExtends(context: nat, ls: seq<Line>, x: Line)
    requires !x.hit
    ensures var n := |ls|;
            NearLines(context, ls + [x], n + 1) ==
            NearLines(context, ls, n) + (if Owed(context, ls) > 0 then [Mark(ls + [x], n)] else [])
  {
    var ls', n, m := ls + [x], |ls|, LastMatch(ls);
    NearSame(context, ls, x, n);
    if Owed(context, ls) > 0 {
      assert ls'[m].hit;
      assert Near(context, ls', n);
    } else {
      assert forall j :: 0 <= j < |ls| ==> ls'[j] == ls[j];
      assert !Near(context, ls', n);
    }
  }

  lemma {:induction false} NearSame(context: nat, ls: seq<Line>, x: Line, k: nat)
    requires !x.hit && k <= |ls|
    ensures NearLines(context, ls + [x], k) == NearLines(context, ls, k)
  {
    if k > 0 {
      NearSame(context, ls, x, k - 1);
      var i, ls' := k - 1, ls + [x];
      assert Mark(ls', i) == Mark(ls, i);
      assert forall j :: 0 <= j < |ls| ==> ls'[j] == ls[j];
      NearKept(context, ls, x, i);
      assert Near(context, ls', i) <==> Near(context, ls, i);
    }
  }

  lemma CountAppend(ls: seq<Line>, x: Line)
    ensures MatchCount(ls + [x]) == MatchCount(ls) + (if x.hit then 1 else 0)
  {
    assert (ls + [x])[..|ls|] == ls;
  }

  lemma LastAppend(ls: seq<Line>, x: Line)
    ensures LastMatch(ls + [x]) == if x.hit then |ls| else LastMatch(ls)
  {
    assert (ls + [x])[..|ls|] == ls;
  }

  /** Lines held back: unreported, but within reach of the next match. */
  ghost function Held(context: nat, ls: seq<Line>): seq<Printed> {
    Marks(ls, HeldFrom(context, ls), |ls|)
  }

  lemma StepHit(q: Query, ls: seq<Line>, x: Line)
    requires x.hit && q.content
    ensures var ls' := ls + [x];
            && Report(q, ls') == FileResult(MatchCount(ls) + 1, Report(q, ls).lines + Held(q.context, ls) + [Mark(ls', |ls|)])
            && Held(q.context, ls') == []
            && Owed(q.context, ls') == q.context
  {
    CountAppend(ls, x);
    MatchExtends(q.context, ls, x);
    NothingHeldAfterHit(q.context, ls, x);
  }

  lemma NothingHeldAfterHit(context: nat, ls: seq<Line>, x: Line)
    requires x.hit
    ensures Held(context, ls + [x]) == [] && Owed(context, ls + [x]) == context
  {
    LastAppend(ls, x);
    assert HeldFrom(context, ls + [x]) == |ls| + 1;
  }

  lemma StepPlain(q: Query, ls: seq<Line>, x: Line)
    requires !x.hit && q.content
    ensures var ls' := ls + [x]; var mark := Mark(ls', |ls|);
            var held, owed := Held(q.context, ls), Owed(q.context, ls);
            && Report(q, ls') == FileResult(MatchCount(ls), Report(q, ls).lines + (if owed > 0 then [mark] else []))
            && Owed(q.context, ls') == (if owed > 0 then owed - 1 else 0)
            && (owed > 0 || q.context == 0 ==> held == [])
            && Held(q.context, ls') == (
                 if owed > 0 || q.context == 0 then []
                 else (if |held| == q.context then held[1..] else held) + [mark])
  {
    CountAppend(ls, x);
    LastAppend(ls, x);
    PlainExtends(q.context, ls, x);
    HeldAfterPlain(q.context, ls, x);
  }

  lemma HeldAfterPlain(context: nat, ls: seq<Line>, x: Line)
    requires !x.hit
    ensures var held := Held(context, ls);
            Held(context, ls + [x]) ==
            if Owed(context, ls) > 0 || context == 0 then []
            else (if |held| == context then held[1..] else held) + [Mark(ls + [x], |ls|)]
  {
    hide LastMatch;
    var held, held' := Held(context, ls), Held(context, ls + [x]);
    var lo, lo' := HeldFrom(context, ls), HeldFrom(context, ls + [x]);
    HeldFromPlain(context, ls, x);
    if lo' <= |ls| {
      assert forall i :: 0 <= i < |held'| ==> held'[i] == Mark(ls + [x], lo' + i);
      assert forall i :: lo <= i < |ls| ==> held[i - lo] == Mark(ls + [x], i);
    }
  }

  lemma HeldFromPlain(context: nat, ls: seq<Line>, x: Line)
    requires !x.hit
    ensures var lo := HeldFrom(context, ls);
            HeldFrom(context, ls + [x]) ==
            if Owed(context, ls) > 0 || context == 0 then |ls| + 1
            else if |ls| - lo == context then lo + 1 else lo
  {
    LastAppend(ls, x);
  }

  lemma StepCount(q: Query, ls: seq<Line>, x: Line)
    requires !q.content
    ensures Report(q, ls + [x]) == FileResult(MatchCount(ls) + (if x.hit then 1 else 0), [])
  {
    CountAppend(ls, x);
  }

  lemma DoneIff(q: Query, ls: seq<Line>, budget: int)
    ensures Done(q, ls, budget) <==> q.content && MatchCount(ls) > budget && Owed(q.context, ls) == 0
  {
  }

  /** Gathers one file's result as its lines are tested. */
  class GrepCollector {
    const q: Query
    const budget: int
    var count: nat
    var lines: seq<Printed>
    var before: seq<Printed>
    var after: nat
    ghost var seen: seq<Line>

    /** After every line, `lines` is exactly what the lines seen so far call for. */
    ghost predicate Valid() reads this {
      && FileResult(count, lines) == Report(q, seen)
      && after == (if q.content then Owed(q.context, seen) else 0)
      && before == (if q.content then Held(q.context, seen) else [])
    }

    constructor (q: Query, budget: int)
      ensures Valid() && seen == [] && this.q == q && this.budget == budget
    {
      this.q, this.budget := q, budget;
      count, lines, before, after, seen := 0, [], [], 0, [];
    }

    /** Records line `num`; the result says whether the file needs no more lines. */
    method Add(num: nat, text: Text, hit: bool) returns (done: bool)
      requires Valid() && num == |seen| + 1
      modifies this
      ensures Valid() && seen == old(seen) + [Line(text, hit)]
      ensures done <==> Done(q, seen, budget)
    {
      hide NearLines, MatchCount, Held, Owed, Near;
      ghost var x := Line(text, hit);
      ghost var was := seen;
      seen := seen + [x];
      if hit {
        count := count + 1;
        if q.content {
          StepHit(q, was, x);
          lines := lines + before;
          before := [];
          lines := lines + [Printed(num, text, true)];
          after := q.context;
        }
      } else if !q.content {
      } else {
        StepPlain(q, was, x);
        if after > 0 {
          lines := lines + [Printed(num, text, false)];
          after := after - 1;
        } else if q.context > 0 {
          if |before| == q.context {
            before := before[1..];
          }
          before := before + [Printed(num, text, false)];
        }
      }
      if !q.content { StepCount(q, was, x); }
      DoneIff(q, seen, budget);
      done := q.content && count > budget && after == 0;
    }
  }

  // ---------------------------------------------------------------------
  // What the result means

  /** Uncut, the report holds exactly the lines near a match, each once, in order. */
  lemma {:induction false} PrintedExactly(context: nat, ls: seq<Line>, n: nat)
    requires n <= |ls|
    ensures var r := NearLines(context, ls, n);
            && (forall a, b :: 0 <= a < b < |r| ==> r[a].num < r[b].num)
            && (forall p :: p in r <==> 1 <= p.num <= n && p == Mark(ls, p.num - 1) && Near(context, ls, p.num - 1))
  {
    if n > 0 { PrintedExactly(context, ls, n - 1); }
  }

  lemma {:induction false} CountMonotone(ls: seq<Line>, a: nat, b: nat)
    requires a <= b <= |ls|
    ensures MatchCount(ls[..a]) <= MatchCount(ls[..b])
    decreases b
  {
    if a < b {
      CountMonotone(ls, a, b - 1);
      assert ls[..b][..b - 1] == ls[..b - 1];
    }
  }

  lemma StopIsDone(q: Query, ls: seq<Line>, budget: int, k: nat)
    requires k <= |ls|
    ensures var n := StopFrom(q, ls, budget, k); n < |ls| ==> Done(q, ls[..n], budget)
    decreases |ls| - k
  {
    if k < |ls| && !Done(q, ls[..k + 1], budget) { StopIsDone(q, ls, budget, k + 1); }
  }

  /** However early the budget cuts the scan, every line around the first
      budget + 1 matches is reported. */
  lemma CutKeepsFirstMatches(q: Query, ls: seq<Line>, budget: int, m: nat, i: nat)
    requires q.content && m < |ls| && i < |ls| && ls[m].hit && i - q.context <= m <= i + q.context
    requires MatchCount(ls[..m]) <= budget
    ensures Mark(ls, i) in Result(q, ls, budget).lines
  {
    hide StopFrom, MatchCount;
    var n := StopFrom(q, ls, budget, 0);
    var part := ls[..n];
    if n < |ls| {
      StopIsDone(q, ls, budget, 0);
      if n <= m { CountMonotone(ls, n, m); }
      assert part[m].hit;
    }
    assert part[m].hit;
    assert Near(q.context, part, i);
    PrintedExactly(q.context, part, n);
    assert Mark(ls, i) == Mark(part, i);
  }

  lemma ReportStep(q: Query, part: seq<Line>, x: Line)
    ensures Report(q, part).lines <= Report(q, part + [x]).lines
    ensures Report(q, part).count <= Report(q, part + [x]).count
  {
    var ls := part + [x];
    assert ls[..|part|] == part && ls[..|ls|] == ls;
    CountMonotone(ls, |part|, |ls|);
    hide NearLines, HeldFrom, Owed, MatchCount;
    if x.hit { MatchExtends(q.context, part, x); } else { PlainExtends(q.context, part, x); }
  }

  /** Scanning further only appends to the report. */
  lemma {:induction false} ReportGrows(q: Query, ls: seq<Line>, a: nat, b: nat)
    requires a <= b <= |ls|
    ensures Report(q, ls[..a]).lines <= Report(q, ls[..b]).lines
    ensures Report(q, ls[..a]).count <= Report(q, ls[..b]).count
    decreases b
  {
    hide Report;
    if a < b {
      ReportGrows(q, ls, a, b - 1);
      assert ls[..b] == ls[..b - 1] + [ls[b - 1]];
      ReportStep(q, ls[..b - 1], ls[b - 1]);
    }
  }

  lemma {:induction false} StopMonotone(q: Query, ls: seq<Line>, lo: int, hi: int, k: nat)
    requires lo <= hi && k <= |ls|
    ensures StopFrom(q, ls, lo, k) <= StopFrom(q, ls, hi, k)
    decreases |ls| - k
  {
    if k < |ls| && !Done(q, ls[..k + 1], lo) { StopMonotone(q, ls, lo, hi, k + 1); }
  }

  /** A budget taken from an older, smaller match count never loses anything: the
      larger budget reports the same, unless the smaller one was exceeded, and
      then it reports an extension. */
  lemma LargerBudget(q: Query, ls: seq<Line>, lo: int, hi: int)
    requires lo <= hi
    ensures Result(q, ls, lo).lines <= Result(q, ls, hi).lines
    ensures Result(q, ls, lo).count <= Result(q, ls, hi).count
    ensures !q.content || Result(q, ls, lo).count <= lo ==> Result(q, ls, lo) == Result(q, ls, hi)
  {
    var n, n' := StopFrom(q, ls, lo, 0), StopFrom(q, ls, hi, 0);
    StopMonotone(q, ls, lo, hi, 0);
    ReportGrows(q, ls, n, n');
    StopIsDone(q, ls, lo, 0);
  }

  ghost function MatchingLines(ps: seq<Printed>): seq<Printed> {
    if ps == [] then []
    else MatchingLines(ps[..|ps| - 1]) + (if ps[|ps| - 1].hit then [ps[|ps| - 1]] else [])
  }

  lemma {:induction false} MatchingAppend(a: seq<Printed>, b: seq<Printed>)
    ensures MatchingLines(a + b) == MatchingLines(a) + MatchingLines(b)
  {
    if b == [] {
      assert a + b == a;
    } else {
      var c, x := b[..|b| - 1], b[|b| - 1];
      assert (a + b)[..|a + b| - 1] == a + c;
      MatchingAppend(a, c);
    }
  }

  /** In content mode every counted match is a reported matching line. */
  lemma {:induction false} CountIsMatching(q: Query, ls: seq<Line>)
    requires q.content
    ensures |MatchingLines(Report(q, ls).lines)| == Report(q, ls).count
  {
    if ls != [] {
      var part, x := ls[..|ls| - 1], ls[|ls| - 1];
      CountIsMatching(q, part);
      assert ls == part + [x];
      var mark, held := Mark(ls, |part|), Held(q.context, part);
      if x.hit {
        StepHit(q, part, x);
        MatchingStep(Report(q, part).lines, held, mark);
      } else {
        StepPlain(q, part, x);
        MatchingStep(Report(q, part).lines, [], mark);
        assert Report(q, part).lines + [] + [mark] == Report(q, part).lines + [mark];
      }
    }
  }

  lemma MatchingStep(printed: seq<Printed>, held: seq<Printed>, mark: Printed)
    requires forall i :: 0 <= i < |held| ==> !held[i].hit
    ensures |MatchingLines(printed + held + [mark])| == |MatchingLines(printed)| + (if mark.hit then 1 else 0)
    ensures printed + [] == printed
  {
    HeldDoNotMatch(held);
    MatchingAppend(printed + held, [mark]);
    MatchingAppend(printed, held);
    OneMatching(mark);
  }

  lemma OneMatching(p: Printed)
    ensures MatchingLines([p]) == if p.hit then [p] else []
  {
    assert [p][..0] == [];
  }

  lemma {:induction false} HeldDoNotMatch(held: seq<Printed>)
    requires forall i :: 0 <= i < |held| ==> !held[i].hit
    ensures MatchingLines(held) == []
  {
    if held != [] { HeldDoNotMatch(held[..|held| - 1]); }
  }
}
