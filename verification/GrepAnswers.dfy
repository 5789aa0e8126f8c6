/** What the parallel search answers (internal/agent/grep_scan.go:443-488), said over
    the walked files and the lines that match. */
module GrepAnswers {
  import opened Wrappers
  import opened GrepCollect
  import opened GrepProtocol
  import opened GrepRefinement
  import opened GrepTheorems

  // ---------------------------------------------------------------------
  // The files and lines that are to be found

  /** The matching lines of a file, by index. */
  ghost function HitLines(f: File): set<nat> {
    match f
    case Skipped => {}
    case Readable(ls) => set i: nat | i < |ls| && ls[i].hit
  }

  ghost predicate Matching(f: File) { HitLines(f) != {} }

  /** The matching ones among the first `n` lines, in order. */
  ghost function Hits(ls: seq<Line>, n: nat): seq<Printed>
    requires n <= |ls|
  {
    if n == 0 then [] else Hits(ls, n - 1) + (if ls[n - 1].hit then [Mark(ls, n - 1)] else [])
  }

  /** All matching lines of the first `n` files, in order. */
  ghost function AllHits(g: Search, n: nat): seq<(nat, Printed)>
    requires n <= |g.files|
  {
    if n == 0 then [] else
      AllHits(g, n - 1) +
      match g.files[n - 1]
      case Skipped => []
      case Readable(ls) => Tagged(n - 1, Hits(ls, |ls|))
  }

  predicate Named(results: seq<Reported>, k: nat) { exists i :: 0 <= i < |results| && results[i].file == k }

  predicate Behind(results: seq<Reported>, k: nat) { |results| > 0 && results[|results| - 1].file < k }

  /** Of the first `n` files the matching ones are reported, in order and once; only
      when the search was stopped are those behind the last one left out. */
  ghost predicate Lists(g: Search, n: nat, results: seq<Reported>, stopped: bool)
    requires n <= |g.files|
  {
    && (forall i, j :: 0 <= i < j < |results| ==> results[i].file < results[j].file)
    && (forall i :: 0 <= i < |results| ==> results[i].file < n && Matching(g.files[results[i].file]))
    && (forall k: nat :: k < n && Matching(g.files[k]) ==> Named(results, k) || (stopped && Behind(results, k)))
  }

  /** Outside content mode a file's result is the number of its matching lines. */
  ghost predicate Counted(g: Search, results: seq<Reported>) {
    forall i :: 0 <= i < |results| ==>
      results[i].file < |g.files| && results[i].fr == FileResult(|HitLines(g.files[results[i].file])|, [])
  }

  // ---------------------------------------------------------------------
  // The answer

  lemma {:induction false} StoppedStays(g: Search, n: nat, m: nat)
    requires n <= m <= |g.files| && Sequential(g, n).stopped
    ensures Sequential(g, m) == Sequential(g, n)
    decreases m
  {
    if n < m { StoppedStays(g, n, m - 1); }
  }

  /** When the consumer has finished, its results are the sequential search's. */
  lemma FinishedAgrees(g: Search, s: State)
    requires Inv(g, s) && s.consumer.Finished?
    ensures Agrees(g, Sequential(g, |g.files|), s.results)
    ensures s.stopped <==> Sequential(g, |g.files|).stopped
  {
    hide Agrees, Sequential, Honest;
    if s.stopped {
      StoppedStays(g, s.ahead.committed, |g.files|);
    } else {
      NoneHeld(s.workers);
      assert s.workers[0].Exited?;
      var n := s.ahead.committed;
      assert multiset(s.pending.Keys)[n] == if n in s.pending then 1 else 0;
      assert (WorkerNums(s.workers) + DoneNums(s.dones) + multiset(s.pending.Keys))[n] == 0;
      assert n == |g.files|;
      AgreesSame(g, Sequential(g, n), s.results);
    }
  }

  lemma AgreesSame(g: Search, r: Run, results: seq<Reported>)
    requires r.results == results
    ensures Agrees(g, r, results)
  {
  }

  ghost function Matches(results: seq<Reported>): seq<(nat, Printed)> {
    if results == [] then []
    else Matches(results[..|results| - 1]) + Tagged(results[|results| - 1].file, MatchingLines(results[|results| - 1].fr.lines))
  }

  ghost function Tagged(file: nat, ps: seq<Printed>): (r: seq<(nat, Printed)>)
    ensures |r| == |ps| && forall i :: 0 <= i < |r| ==> r[i] == (file, ps[i])
  {
    seq(|ps|, i requires 0 <= i < |ps| => (file, ps[i]))
  }

  lemma {:induction false} MatchesAreCounted(g: Search, n: nat)
    requires n <= |g.files| && g.Valid() && g.q.content
    ensures |Matches(Sequential(g, n).results)| == Sequential(g, n).total
  {
    hide Result, Report;
    if n > 0 {
      MatchesAreCounted(g, n - 1);
      var r := Sequential(g, n - 1);
      if !r.stopped && SearchOne(g.q, g.files[n - 1], g.q.max - r.total).Some? {
        var fr := SearchOne(g.q, g.files[n - 1], g.q.max - r.total).value;
        ResultCounts(g.q, g.files[n - 1].lines, g.q.max - r.total);
        assert (r.results + [Reported(n - 1, fr)])[..|r.results|] == r.results;
      }
    }
  }

  lemma ResultCounts(q: Query, ls: seq<Line>, budget: int)
    requires q.content
    ensures |MatchingLines(Result(q, ls, budget).lines)| == Result(q, ls, budget).count
  {
    CountIsMatching(q, ls[..StopFrom(q, ls, budget, 0)]);
  }

  lemma PrefixMatching(a: seq<Printed>, b: seq<Printed>)
    requires a <= b
    ensures MatchingLines(a) <= MatchingLines(b)
  {
    assert b == a + b[|a|..];
    MatchingAppend(a, b[|a|..]);
  }

  /** What agreeing results have in common: the files, hence where the search is
      cut, and in content mode the first max_results + 1 matching lines. */
  lemma AgreementMeans(g: Search, n: nat, results: seq<Reported>)
    requires g.Valid() && n <= |g.files| && Agrees(g, Sequential(g, n), results)
    ensures var r := Sequential(g, n);
            && |results| == |r.results|
            && (forall i :: 0 <= i < |results| ==> results[i].file == r.results[i].file)
            && (forall i :: 0 <= i < |results| && results[i] != r.results[i] ==> g.q.content && i == |results| - 1)
            && (g.q.content ==> Matches(r.results) <= Matches(results))
            && (g.q.content ==> r.stopped || r.results == results)
            && (g.q.content && r.stopped ==> |Matches(r.results)| > g.q.max)
  {
    hide Sequential;
    var r := Sequential(g, n);
    SequentialFacts(g, n);
    if g.q.content { MatchesAreCounted(g, n); }
    if r.results != results {
      var k := |results| - 1;
      assert forall i :: 0 <= i < k ==> results[i] == r.results[..k][i];
      PrefixMatching(r.results[k].fr.lines, results[k].fr.lines);
    }
  }

  // ---------------------------------------------------------------------
  // What one file gives

  lemma {:induction false} CountIsHits(ls: seq<Line>, n: nat)
    requires n <= |ls|
    ensures MatchCount(ls[..n]) == |set i: nat | i < n && ls[i].hit| == |Hits(ls, n)|
  {
    if n > 0 {
      CountIsHits(ls, n - 1);
      assert ls[..n][..n - 1] == ls[..n - 1];
      var was, now := set i: nat | i < n - 1 && ls[i].hit, set i: nat | i < n && ls[i].hit;
      if ls[n - 1].hit { assert now == was + {n - 1}; } else { assert now == was; }
    }
  }

  lemma {:induction false} PlainRunsOn(q: Query, ls: seq<Line>, budget: int, k: nat)
    requires !q.content && k <= |ls|
    ensures StopFrom(q, ls, budget, k) == |ls|
    decreases |ls| - k
  {
    if k < |ls| { PlainRunsOn(q, ls, budget, k + 1); }
  }

  /** Outside content mode a file is reported with the number of its matching lines,
      if there are any, whatever the budget. */
  lemma PlainFound(q: Query, f: File, budget: int)
    requires !q.content
    ensures SearchOne(q, f, budget) == if Matching(f) then Some(FileResult(|HitLines(f)|, [])) else None
  {
    match f
    case Skipped =>
    case Readable(ls) =>
      PlainRunsOn(q, ls, budget, 0);
      CountIsHits(ls, |ls|);
      assert ls[..|ls|] == ls;
      assert HitLines(f) == set i: nat | i < |ls| && ls[i].hit;
  }

  /** The lines near a match hold the matching lines. */
  lemma {:induction false} NearHits(context: nat, ls: seq<Line>, n: nat)
    requires n <= |ls|
    ensures MatchingLines(NearLines(context, ls, n)) == Hits(ls, n)
  {
    if n > 0 {
      NearHits(context, ls, n - 1);
      var p := Mark(ls, n - 1);
      MatchingAppend(NearLines(context, ls, n - 1), [p]);
      OneMatching(p);
      if !Near(context, ls, n - 1) {
        assert !ls[n - 1].hit;
        assert NearLines(context, ls, n) == NearLines(context, ls, n - 1);
      }
    }
  }

  lemma {:induction false} HitsOfPart(ls: seq<Line>, n: nat, m: nat)
    requires n <= m <= |ls|
    ensures Hits(ls[..m], n) == Hits(ls, n)
  {
    if n > 0 { HitsOfPart(ls, n - 1, m); }
  }

  lemma {:induction false} HitsOfMore(ls: seq<Line>, n: nat, m: nat)
    requires n <= m <= |ls|
    ensures Hits(ls, n) <= Hits(ls, m)
    decreases m
  {
    if n < m { HitsOfMore(ls, n, m - 1); }
  }

  /** In content mode a file gives its first matching lines: all of them, unless
      there are more than the budget. */
  lemma ContentFound(q: Query, ls: seq<Line>, budget: int)
    requires q.content
    ensures var r := Result(q, ls, budget);
            && MatchingLines(r.lines) <= Hits(ls, |ls|)
            && |MatchingLines(r.lines)| == r.count
            && (r.count <= budget ==> MatchingLines(r.lines) == Hits(ls, |ls|) && r == Report(q, ls))
  {
    hide Done, Hits, MatchingLines, MatchCount, NearLines, StopFrom;
    var n := StopFrom(q, ls, budget, 0);
    StopIsDone(q, ls, budget, 0);
    ResultCounts(q, ls, budget);
    NearHits(q.context, ls[..n], n);
    HitsOfPart(ls, n, n);
    HitsOfMore(ls, n, |ls|);
    DoneIsOver(q, ls[..n], budget);
    assert ls[..|ls|] == ls;
  }

  lemma DoneIsOver(q: Query, ls: seq<Line>, budget: int)
    ensures Done(q, ls, budget) ==> MatchCount(ls) > budget
  {
  }

  // ---------------------------------------------------------------------
  // What the one-file-at-a-time search finds

  lemma {:induction false} ListsAdd(g: Search, n: nat, results: seq<Reported>, fr: FileResult)
    requires n < |g.files| && Lists(g, n, results, false) && Matching(g.files[n])
    ensures Lists(g, n + 1, results + [Reported(n, fr)], false)
  {
    var more := results + [Reported(n, fr)];
    forall k: nat | k < n + 1 && Matching(g.files[k])
      ensures Named(more, k)
    {
      if k < n {
        var i :| 0 <= i < |results| && results[i].file == k;
        assert more[i].file == k;
      } else {
        assert more[|results|].file == k;
      }
    }
  }

  lemma ListsSkip(g: Search, n: nat, results: seq<Reported>, stopped: bool)
    requires n < |g.files| && Lists(g, n, results, stopped)
    requires if stopped then |results| > 0 else !Matching(g.files[n])
    ensures Lists(g, n + 1, results, stopped)
  {
  }

  lemma ListsStop(g: Search, n: nat, results: seq<Reported>)
    requires n <= |g.files| && Lists(g, n, results, false)
    ensures Lists(g, n, results, true)
  {
  }

  lemma {:induction false} PlainSequential(g: Search, n: nat)
    requires n <= |g.files| && g.Valid() && !g.q.content
    ensures var r := Sequential(g, n);
            && Lists(g, n, r.results, r.stopped) && Counted(g, r.results)
            && |r.results| <= g.q.max + 1 && (r.stopped <==> |r.results| == g.q.max + 1)
  {
    hide Lists, SearchOne, HitLines, Matching;
    if n == 0 {
      ListsNone(g);
    } else {
      PlainSequential(g, n - 1);
      var r := Sequential(g, n - 1);
      if r.stopped {
        ListsSkip(g, n - 1, r.results, true);
      } else {
        PlainFound(g.q, g.files[n - 1], g.q.max - r.total);
        if Matching(g.files[n - 1]) {
          var fr := FileResult(|HitLines(g.files[n - 1])|, []);
          ListsAdd(g, n - 1, r.results, fr);
          ListsStop(g, n, r.results + [Reported(n - 1, fr)]);
        } else {
          ListsSkip(g, n - 1, r.results, false);
        }
      }
    }
  }

  lemma ListsNone(g: Search)
    ensures Lists(g, 0, [], false)
  {
  }

  // Content mode

  /** Up to where the search stopped, every reported file shows all that is near a match. */
  ghost predicate Shown(g: Search, results: seq<Reported>, stopped: bool) {
    forall i :: 0 <= i < |results| && (stopped ==> i < |results| - 1) ==> ShownWhole(g, results[i])
  }

  ghost predicate ShownWhole(g: Search, rep: Reported) {
    && rep.file < |g.files| && g.files[rep.file].Readable?
    && rep.fr == Report(g.q, g.files[rep.file].lines)
  }

  lemma ContentSearched(q: Query, f: File, budget: int)
    requires q.content && budget >= 0
    ensures SearchOne(q, f, budget).Some? <==> Matching(f)
    ensures f.Readable? && SearchOne(q, f, budget).Some? ==> SearchOne(q, f, budget).value == Result(q, f.lines, budget)
    ensures f.Readable? ==> (Matching(f) <==> Hits(f.lines, |f.lines|) != [])
  {
    match f
    case Skipped =>
    case Readable(ls) =>
      ContentFound(q, ls, budget);
      CountIsHits(ls, |ls|);
      assert HitLines(f) == set i: nat | i < |ls| && ls[i].hit;
  }

  lemma TaggedPrefix(file: nat, a: seq<Printed>, b: seq<Printed>)
    requires a <= b
    ensures Tagged(file, a) <= Tagged(file, b)
  {
  }

  lemma HitsGrow(g: Search, n: nat)
    requires n < |g.files|
    ensures AllHits(g, n) <= AllHits(g, n + 1)
  {
    hide Tagged, Hits;
  }

  /** The search stops at the first file with which there are too many matching lines. */
  ghost predicate StoppedAt(g: Search, results: seq<Reported>) {
    && |results| > 0 && results[|results| - 1].file < |g.files|
    && |AllHits(g, results[|results| - 1].file)| <= g.q.max < |Matches(results)|
  }

  /** What the one-file-at-a-time search has found after `n` files. */
  ghost predicate Found(g: Search, n: nat, r: Run)
    requires n <= |g.files|
  {
    var ms := Matches(r.results);
    && Lists(g, n, r.results, r.stopped)
    && Shown(g, r.results, r.stopped)
    && r.total == |ms|
    && (if r.stopped then ms <= AllHits(g, n) && StoppedAt(g, r.results) else ms == AllHits(g, n) && |ms| <= g.q.max)
  }

  lemma FoundNone(g: Search, n: nat, r: Run)
    requires 0 < n <= |g.files| && g.q.content && Found(g, n - 1, r) && !r.stopped
    requires !Matching(g.files[n - 1])
    ensures Found(g, n, r)
  {
    hide Lists, Shown, Matches, SearchOne;
    ListsSkip(g, n - 1, r.results, false);
    ContentSearched(g.q, g.files[n - 1], 0);
  }

  lemma FoundStopped(g: Search, n: nat, r: Run)
    requires 0 < n <= |g.files| && Found(g, n - 1, r) && r.stopped && g.Valid()
    ensures Found(g, n, r)
  {
    hide Lists, Shown, AllHits, Matches;
    HitsGrow(g, n - 1);
    ListsSkip(g, n - 1, r.results, true);
  }

  lemma FoundMore(g: Search, n: nat, r: Run, r': Run)
    requires 0 < n <= |g.files| && g.q.content && Found(g, n - 1, r) && !r.stopped
    requires g.files[n - 1].Readable? && Matching(g.files[n - 1])
    requires var fr := Result(g.q, g.files[n - 1].lines, g.q.max - r.total);
             var results := r.results + [Reported(n - 1, fr)];
             r' == Run(results, r.total + fr.count, Over(g.q, results, r.total + fr.count))
    ensures Found(g, n, r')
  {
    hide Lists, Matching, Result, Report, Hits, MatchingLines, Shown;
    var ls := g.files[n - 1].lines;
    var fr := Result(g.q, ls, g.q.max - r.total);
    ContentFound(g.q, ls, g.q.max - r.total);
    TaggedPrefix(n - 1, MatchingLines(fr.lines), Hits(ls, |ls|));
    assert r'.results[..|r'.results| - 1] == r.results;
    assert Matches(r'.results) == Matches(r.results) + Tagged(n - 1, MatchingLines(fr.lines));
    ListsAdd(g, n - 1, r.results, fr);
    if r'.stopped { ListsStop(g, n, r'.results); }
    ShownAdd(g, n, r.results, fr, r'.stopped);
  }

  lemma ShownAdd(g: Search, n: nat, results: seq<Reported>, fr: FileResult, stopped: bool)
    requires 0 < n <= |g.files| && g.files[n - 1].Readable? && Shown(g, results, false)
    requires !stopped ==> fr == Report(g.q, g.files[n - 1].lines)
    ensures Shown(g, results + [Reported(n - 1, fr)], stopped)
  {
    hide ShownWhole;
    var more := results + [Reported(n - 1, fr)];
    if !stopped { WholeIs(g, more[|results|]); }
  }

  lemma WholeIs(g: Search, rep: Reported)
    requires rep.file < |g.files| && g.files[rep.file].Readable? && rep.fr == Report(g.q, g.files[rep.file].lines)
    ensures ShownWhole(g, rep)
  {
  }

  lemma {:induction false} ContentSequential(g: Search, n: nat)
    requires n <= |g.files| && g.Valid() && g.q.content
    ensures Found(g, n, Sequential(g, n))
  {
    hide Found, Matching, Result, Over;
    if n == 0 {
      NothingFound(g);
    } else {
      ContentSequential(g, n - 1);
      var r := Sequential(g, n - 1);
      if r.stopped {
        FoundStopped(g, n, r);
      } else {
        BudgetLeft(g, n - 1, r);
        ContentSearched(g.q, g.files[n - 1], g.q.max - r.total);
        if SearchOne(g.q, g.files[n - 1], g.q.max - r.total).None? {
          FoundNone(g, n, r);
        } else {
          FoundMore(g, n, r, Sequential(g, n));
        }
      }
    }
  }

  lemma BudgetLeft(g: Search, n: nat, r: Run)
    requires n <= |g.files| && Found(g, n, r) && !r.stopped
    ensures r.total <= g.q.max
  {
  }

  lemma NothingFound(g: Search)
    requires g.Valid()
    ensures Found(g, 0, Run([], 0, false))
  {
  }

  // ---------------------------------------------------------------------
  // What the parallel search answers

  /** The first `n` of these, or all of them if they are fewer. */
  function First<T>(s: seq<T>, n: nat): seq<T> { if |s| <= n then s else s[..n] }

  lemma FirstIsSame<T>(a: seq<T>, b: seq<T>, c: seq<T>, n: nat)
    requires a <= b && a <= c && (n <= |a| || b == c)
    ensures First(b, n) == First(c, n)
  {
    if n <= |a| { assert b[..n] == a[..n] == c[..n]; }
  }

  lemma ListsAlike(g: Search, n: nat, a: seq<Reported>, b: seq<Reported>, stopped: bool)
    requires n <= |g.files| && Lists(g, n, a, stopped)
    requires |a| == |b| && forall i :: 0 <= i < |a| ==> a[i].file == b[i].file
    ensures Lists(g, n, b, stopped)
  {
    hide Matching;
    forall k: nat | k < n && Matching(g.files[k]) && Named(a, k)
      ensures Named(b, k)
    {
      var i :| 0 <= i < |a| && a[i].file == k;
      assert b[i].file == k;
    }
  }

  lemma ShownAlike(g: Search, a: seq<Reported>, b: seq<Reported>)
    requires Shown(g, a, true)
    requires |a| == |b| && forall i :: 0 <= i < |a| - 1 ==> a[i] == b[i]
    ensures Shown(g, b, true)
  {
    hide ShownWhole;
  }

  /** Outside content mode the first max_results + 1 files with a matching line are
      reported, or all of them, each with the number of its matching lines. */
  lemma PlainAnswers(g: Search, s: State)
    requires Inv(g, s) && s.consumer.Finished? && !g.q.content
    ensures Lists(g, |g.files|, s.results, s.stopped) && Counted(g, s.results)
    ensures |s.results| <= g.q.max + 1 && (s.stopped <==> |s.results| == g.q.max + 1)
  {
    hide Sequential, Lists, Counted, Shape, Located, Honest, Refines;
    FinishedAgrees(g, s);
    PlainSequential(g, |g.files|);
  }

  /** In content mode the reported matching lines begin with the first max_results + 1 of
      all files, and the search is stopped exactly when there are more than max_results. */
  lemma ContentAnswers(g: Search, s: State)
    requires Inv(g, s) && s.consumer.Finished? && g.q.content
    ensures Lists(g, |g.files|, s.results, s.stopped) && Shown(g, s.results, s.stopped)
    ensures First(Matches(s.results), g.q.max + 1) == First(AllHits(g, |g.files|), g.q.max + 1)
    ensures s.stopped <==> |AllHits(g, |g.files|)| > g.q.max
    ensures s.stopped ==> StoppedAt(g, s.results)
  {
    hide Sequential, Lists, Shown, Shape, Located, Honest, Refines, Agrees, Matches, AllHits, First;
    FinishedAgrees(g, s);
    ContentSequential(g, |g.files|);
    var r := Sequential(g, |g.files|);
    AgreementMeans(g, |g.files|, s.results);
    ListsAlike(g, |g.files|, r.results, s.results, s.stopped);
    if s.stopped { ShownAlike(g, r.results, s.results); }
    FirstIsSame(Matches(r.results), Matches(s.results), AllHits(g, |g.files|), g.q.max + 1);
  }

  /** The main result: whatever the interleaving, once the consumer has finished
      the reported files are those of the one-file-at-a-time search, in its order
      and cut at the same file, and so are the first max_results + 1 matching
      lines -- although each file's budget came from an older match count.  And
      these are the first max_results + 1 matching files or lines there are. */
  lemma ParallelSearchAnswersInOrder(g: Search, trace: seq<State>)
    requires g.Valid() && Execution(g, trace) && trace[|trace| - 1].consumer.Finished?
    ensures var r, results := Sequential(g, |g.files|), trace[|trace| - 1].results;
            && Agrees(g, r, results)
            && |results| == |r.results|
            && (forall i :: 0 <= i < |results| ==> results[i].file == r.results[i].file)
            && (!g.q.content ==> results == r.results)
            && (g.q.content ==> First(Matches(results), g.q.max + 1) == First(Matches(r.results), g.q.max + 1))
    ensures var s := trace[|trace| - 1];
            && Lists(g, |g.files|, s.results, s.stopped)
            && (!g.q.content ==>
                  Counted(g, s.results) && |s.results| <= g.q.max + 1 && (s.stopped <==> |s.results| == g.q.max + 1))
            && (g.q.content ==>
                  && Shown(g, s.results, s.stopped)
                  && First(Matches(s.results), g.q.max + 1) == First(AllHits(g, |g.files|), g.q.max + 1)
                  && (s.stopped <==> |AllHits(g, |g.files|)| > g.q.max)
                  && (s.stopped ==> StoppedAt(g, s.results)))
  {
    hide Inv, Enabled, Next, Init, Agrees, Sequential, Lists, Counted, Shown, StoppedAt, AllHits;
    var s := trace[|trace| - 1];
    ReachedInv(g, trace, |trace| - 1);
    FinishedAgrees(g, s);
    AgreementMeans(g, |g.files|, s.results);
    if g.q.content { ContentAnswers(g, s); } else { PlainAnswers(g, s); }
  }
}
