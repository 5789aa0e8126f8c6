/** The block-anchor tier (internal/agent/fuzzy_edit.go): candidate blocks are
    first scored by a cheap bound and only the promising ones aligned for real.
    The pruned, cached and budgeted search is proved to find exactly what the
    exhaustive search finds, or to give up. */
module BlockAnchor {
  import opened Wrappers
  import opened Levenshtein
  import opened Alignment

  /** A line as the scorer sees it: trimmed, clipped to 200 runes, with its bag. */
  datatype ScoredLine = ScoredLine(runes: Text, bag: seq<RuneCount>) {
    predicate Valid() { |bag| <= |runes| <= 200 && Ascending(bag) && BagOf(bag) == multiset(runes) }
  }

  /** `sorted` is the library's sort of the line's runes. */
  method NewScoredLine(runes: Text, sorted: Text) returns (sl: ScoredLine)
    requires |runes| <= 200 && Sorted(sorted) && multiset(sorted) == multiset(runes)
    ensures sl.Valid() && sl.runes == runes
  {
    var bag := NewBag(sorted);
    assert |multiset(sorted)| == |sorted| && |multiset(runes)| == |runes|;
    sl := ScoredLine(runes, bag);
  }

  /** The similarity of quoted line `a` and file line `i`, or the bound on it. */
  function PairScore(exact: bool, want: seq<ScoredLine>, lines: seq<ScoredLine>, a: nat, i: nat): real {
    if a < |want| && i < |lines| then
      if exact then Levenshtein.Similarity(want[a].runes, lines[i].runes)
      else Levenshtein.Bound(want[a].runes, lines[i].runes)
    else 0.0
  }

  /** The scores a pass aligns by, from file line `first` on. */
  function Scores(exact: bool, want: seq<ScoredLine>, lines: seq<ScoredLine>, first: nat): Score {
    (a: nat, b: nat) => PairScore(exact, want, lines, a, first + b)
  }

  /** The table cells a comparison costs. */
  function Cells(x: Text, y: Text): nat { |x| * |y| }

  /** What scoring a pair can cost: the bags of two lines, and the table of them. */
  const BOUND_COST: nat := 400
  const SIMILARITY_COST: nat := 40_000

  predicate Covers(granted: int, budget: int, bounds: nat, sims: nat) {
    budget + BOUND_COST * bounds + SIMILARITY_COST * sims >= granted
  }

  lemma BoundPaid(granted: int, budget: int, bounds: nat, sims: nat, cost: nat)
    requires Covers(granted, budget, bounds, sims) && cost <= BOUND_COST
    ensures Covers(granted, budget - cost, bounds + 1, sims)
  {
  }

  lemma SimilarityPaid(granted: int, budget: int, bounds: nat, sims: nat, cost: nat)
    requires Covers(granted, budget, bounds, sims) && cost <= SIMILARITY_COST
    ensures Covers(granted, budget - cost, bounds, sims + 1)
  {
  }

  lemma CellsAtMost(x: Text, y: Text)
    requires |x| <= 200 && |y| <= 200
    ensures Cells(x, y) <= SIMILARITY_COST
  {
    MulAtMost(|x|, |y|, 200);
  }

  lemma {:induction false} MulAtMost(a: nat, b: nat, m: nat)
    requires b <= m
    ensures a * b <= a * m
  {
    if a > 0 {
      MulAtMost(a - 1, b, m);
      assert a * b == (a - 1) * b + b && a * m == (a - 1) * m + m;
    }
  }

  lemma BoundCases(x: Text, y: Text)
    ensures Max(|x|, |y|) == 0 ==> Levenshtein.Bound(x, y) == 1.0
    ensures var n := Max(|x|, |y|);
            n > 0 ==>
              Levenshtein.Bound(x, y) ==
                1.0 - Max(Lacking(multiset(x), multiset(y)), Lacking(multiset(y), multiset(x))) as real / n as real
  {
    hide Lacking;
  }

  lemma SimilarityCases(x: Text, y: Text)
    ensures x == y ==> Levenshtein.Similarity(x, y) == 1.0
    ensures x != y ==> Max(|x|, |y|) > 0 &&
                       Levenshtein.Similarity(x, y) == 1.0 - Distance(x, y, |x|, |y|) as real / Max(|x|, |y|) as real
  {
  }

  /** Scores quoted lines against the lines of the file, caching every score and
      charging the work to a budget. */
  class LineScorer {
    const want: seq<ScoredLine>
    const lines: seq<ScoredLine>
    // For the statements only: the budget at first.
    const granted: int
    var budget: int
    var bounds: map<(nat, nat), real>
    var sims: map<(nat, nat), real>

    ghost predicate Valid() reads this {
      && (forall a :: 0 <= a < |want| ==> want[a].Valid())
      && (forall i :: 0 <= i < |lines| ==> lines[i].Valid())
      && Holds(bounds, false)
      // A similarity computed after the budget ran out is a placeholder; the
      // budget never grows back, so it is never taken for a score.
      && (budget >= 0 ==> Holds(sims, true))
      && Accounted()
    }

    /** Every score is paid for once: what has been spent is what the cached ones cost. */
    ghost predicate Accounted() reads this {
      Covers(granted, budget, |bounds|, |sims|) && InFile(bounds) && InFile(sims)
    }

    predicate InFile(cache: map<(nat, nat), real>) {
      forall k :: k in cache ==> k.0 < |want| && k.1 < |lines|
    }

    /** Every cached score is the pair's. */
    predicate Holds(cache: map<(nat, nat), real>, exact: bool) {
      forall k :: k in cache ==> cache[k] == PairScore(exact, want, lines, k.0, k.1)
    }

    function BoundOf(a: nat, i: nat): real { PairScore(false, want, lines, a, i) }

    function SimilarityOf(a: nat, i: nat): real { PairScore(true, want, lines, a, i) }

    constructor (want: seq<ScoredLine>, lines: seq<ScoredLine>, budget: int)
      requires (forall a :: 0 <= a < |want| ==> want[a].Valid()) && (forall i :: 0 <= i < |lines| ==> lines[i].Valid())
      ensures Valid() && this.want == want && this.lines == lines && this.budget == this.granted == budget
    {
      this.want, this.lines, this.budget, this.granted := want, lines, budget, budget;
      bounds, sims := map[], map[];
    }

    /** The bound, exact whatever the budget. */
    method Bound(a: nat, i: nat) returns (v: real)
      requires Valid() && a < |want| && i < |lines|
      modifies this
      ensures Valid() && budget <= old(budget) && v == BoundOf(a, i)
    {
      hide BagOf, Lacking, Covers, InFile, Holds, Ascending, Levenshtein.Bound;
      if (a, i) in bounds { return CachedScore(bounds, false, a, i); }
      var x, y := want[a], lines[i];
      BoundCases(x.runes, y.runes);
      BoundPaid(granted, budget, |bounds|, |sims|, 0);
      BoundPaid(granted, budget, |bounds|, |sims|, |x.bag| + |y.bag|);
      var n := Max(|x.runes|, |y.runes|);
      if n == 0 {
        v := 1.0;
      } else {
        budget := budget - (|x.bag| + |y.bag|);
        var onlyX, onlyY := CompareBags(x.bag, y.bag);
        v := 1.0 - Max(onlyX, onlyY) as real / n as real;
      }
      OneMore(bounds, (a, i), v);
      StaysInFile(bounds, a, i, v);
      ScoreCached(bounds, false, a, i);
      bounds := bounds[(a, i) := v];
    }

    /** The similarity, exact unless the budget has run out. */
    method Similarity(a: nat, i: nat) returns (v: real)
      requires Valid() && a < |want| && i < |lines|
      modifies this
      ensures Valid() && budget <= old(budget)
      ensures budget >= 0 ==> v == SimilarityOf(a, i)
    {
      hide Distance, Ascending, BagOf, Levenshtein.Bound, Levenshtein.Similarity, Holds, Cells, Covers, InFile;
      if (a, i) in sims { return CachedScore(sims, true, a, i); }
      var ra, rb := want[a].runes, lines[i].runes;
      SimilarityCases(ra, rb);
      CellsAtMost(ra, rb);
      SimilarityPaid(granted, budget, |bounds|, |sims|, 0);
      SimilarityPaid(granted, budget, |bounds|, |sims|, Cells(ra, rb));
      if ra == rb {
        v := 1.0;
      } else {
        budget := budget - Cells(ra, rb);
        if budget < 0 {
          v := 0.0;
        } else {
          var d := EditDistance(ra, rb);
          v := 1.0 - d as real / Max(|ra|, |rb|) as real;
        }
      }
      OneMore(sims, (a, i), v);
      StaysInFile(sims, a, i, v);
      ScoreCached(sims, true, a, i);
      sims := sims[(a, i) := v];
    }

    function CachedScore(cache: map<(nat, nat), real>, exact: bool, a: nat, i: nat): (v: real)
      requires (a, i) in cache
      ensures Holds(cache, exact) ==> v == PairScore(exact, want, lines, a, i)
    {
      cache[(a, i)]
    }

    lemma OneMore(cache: map<(nat, nat), real>, k: (nat, nat), v: real)
      requires k !in cache
      ensures |cache[k := v]| == |cache| + 1
    {
      assert cache[k := v].Keys == cache.Keys + {k};
    }

    lemma StaysInFile(cache: map<(nat, nat), real>, a: nat, i: nat, v: real)
      requires InFile(cache) && a < |want| && i < |lines|
      ensures InFile(cache[(a, i) := v])
    {
    }

    /** A budget that covers every pair is never used up. */
    lemma NeverSpent()
      requires Valid() && granted >= (BOUND_COST + SIMILARITY_COST) * (|want| * |lines|)
      ensures budget >= 0
    {
      PairsAtMost(bounds.Keys, |want|, |lines|);
      PairsAtMost(sims.Keys, |want|, |lines|);
      assert |bounds| == |bounds.Keys| && |sims| == |sims.Keys|;
    }

    lemma ScoreCached(cache: map<(nat, nat), real>, exact: bool, a: nat, i: nat)
      ensures Holds(cache, exact) ==> Holds(cache[(a, i) := PairScore(exact, want, lines, a, i)], exact)
    {
    }

    function ScoreOf(exact: bool, first: nat): Score { Scores(exact, want, lines, first) }

    method ScorePair(exact: bool, a: nat, i: nat) returns (v: real)
      requires Valid() && a < |want| && i < |lines|
      modifies this
      ensures Valid() && budget <= old(budget)
      ensures !exact || budget >= 0 ==> v == if exact then SimilarityOf(a, i) else BoundOf(a, i)
    {
      if exact { v := Similarity(a, i); } else { v := Bound(a, i); }
    }

    /** Row `a` of the table holds the best totals, as far as `n`. */
    ghost predicate Row(row: array<real>, exact: bool, first: nat, band: nat, a: nat, n: nat)
      requires n <= row.Length
      reads row
    {
      forall b :: 0 <= b < n ==> row[b] == Best(a, b, band, ScoreOf(exact, first))
    }

    method AlignRow(exact: bool, first: nat, a: nat, nb: nat, band: nat, prev: array<real>, cur: array<real>)
      requires Valid() && 0 < a <= |want| && first + nb <= |lines|
      requires prev != cur && prev.Length == cur.Length == nb + 1
      requires !exact || budget >= 0 ==> Row(prev, exact, first, band, a - 1, nb + 1)
      modifies this, cur
      ensures Valid() && budget <= old(budget)
      ensures !exact || budget >= 0 ==> Row(cur, exact, first, band, a, nb + 1)
    {
      hide Valid, Best;
      cur[0] := 0.0;
      BestStep(a, 0, band, ScoreOf(exact, first));
      for b := 1 to nb + 1
        invariant Valid() && budget <= old(budget)
        invariant prev[..] == old(prev[..])
        invariant !exact || budget >= 0 ==> Row(cur, exact, first, band, a, b)
      {
        BestStep(a, b, band, ScoreOf(exact, first));
        var v := MaxReal(prev[b], cur[b - 1]);
        if InBand(band, a, b) {
          var s := ScorePair(exact, a - 1, first + (b - 1));
          v := MaxReal(v, prev[b - 1] + s);
        }
        cur[b] := v;
      }
    }

    /** For every b, the best total of all quoted lines against the first b file
        lines from `first` on; a placeholder once the budget has run out. */
    method AlignPrefixes(exact: bool, first: nat, nb: nat, band: nat) returns (totals: seq<real>)
      requires Valid() && first + nb <= |lines|
      modifies this
      ensures Valid() && budget <= old(budget) && |totals| == nb + 1
      ensures !exact || budget >= 0 ==>
                forall b :: 0 <= b <= nb ==> totals[b] == Best(|want|, b, band, ScoreOf(exact, first))
    {
      hide Valid, Best;
      var prev, cur := new real[nb + 1](_ => 0.0), new real[nb + 1](_ => 0.0);
      forall b | 0 <= b <= nb ensures Best(0, b, band, ScoreOf(exact, first)) == 0.0 {
        BestStep(0, b, band, ScoreOf(exact, first));
      }
      for a := 1 to |want| + 1
        invariant Valid() && budget <= old(budget)
        invariant fresh(prev) && fresh(cur) && prev != cur && prev.Length == cur.Length == nb + 1
        invariant !exact || budget >= 0 ==> Row(prev, exact, first, band, a - 1, nb + 1)
      {
        AlignRow(exact, first, a, nb, band, prev, cur);
        prev, cur := cur, prev;
      }
      totals := prev[..];
    }
  }

  lemma {:induction false} PairsAtMost(keys: set<(nat, nat)>, n: nat, m: nat)
    requires forall k :: k in keys ==> k.0 < n && k.1 < m
    ensures |keys| <= n * m
  {
    if n == 0 {
      assert keys == {};
    } else {
      var last := set k | k in keys && k.0 == n - 1;
      PairsAtMost(keys - last, n - 1, m);
      ColumnAtMost(last, n - 1, m);
      assert keys == (keys - last) + last && (n - 1) * m + m == n * m;
    }
  }

  lemma {:induction false} ColumnAtMost(keys: set<(nat, nat)>, a: nat, m: nat)
    requires forall k :: k in keys ==> k.0 == a && k.1 < m
    ensures |keys| <= m
  {
    if m == 0 {
      assert keys == {};
    } else {
      ColumnAtMost(keys - {(a, m - 1)}, a, m - 1);
    }
  }

  // ---------------------------------------------------------------------
  // The exhaustive search

  /** The quote: its trimmed first and last line, and the lines between. */
  datatype Quote = Quote(first: Text, last: Text, want: seq<ScoredLine>)

  /** The file: its trimmed lines, their scored form, and whether two of its lines
      sit at the relative depth of the quote's anchors. */
  datatype File = File(trimmed: seq<Text>, lines: seq<ScoredLine>, agrees: (nat, nat) -> bool) {
    predicate Valid() {
      |lines| == |trimmed| && forall i :: 0 <= i < |lines| ==> lines[i].Valid()
    }
  }

  /** A block of `size` lines from line `first` on. */
  datatype Block = Block(first: nat, size: nat, sim: real)

  const MIN_SIMILARITY := 0.7

  /** The anchors are distinctive: not blank, not both under four characters. */
  predicate Usable(q: Quote) {
    |q.want| >= 1 && q.first != "" && q.last != "" && !(|q.first| < 4 && |q.last| < 4)
  }

  function Tolerance(q: Quote): nat { Max(1, (|q.want| + 2) / 4) }

  predicate EndsAt(q: Quote, f: File, i: nat, size: nat) {
    size >= 1 && i + size - 1 < |f.trimmed| && f.trimmed[i + size - 1] == q.last && f.agrees(i, i + size - 1)
  }

  /** The block sizes up to `n` that end in the last anchor. */
  function Sizes(q: Quote, f: File, i: nat, n: nat): (r: seq<nat>)
    ensures forall k :: 0 <= k < |r| ==> 3 <= r[k] <= n && i + r[k] <= |f.trimmed|
    ensures forall k, l :: 0 <= k < l < |r| ==> r[k] < r[l]
  {
    if n < 3 || n < |q.want| + 2 - Tolerance(q) then []
    else Sizes(q, f, i, n - 1) + (if EndsAt(q, f, i, n) then [n] else [])
  }

  function Ratio(wanted: nat, size: nat, total: real): real {
    var n := Max(wanted, size - 2);
    if n > 0 then total / n as real else 1.0
  }

  /** The first of the best-scoring sizes, given the total for every prefix. */
  function Pick(wanted: nat, sizes: seq<nat>, totals: nat -> real): (nat, real)
    requires forall k :: 0 <= k < |sizes| ==> sizes[k] >= 2
  {
    if sizes == [] then (0, -1.0)
    else
      var best := Pick(wanted, sizes[..|sizes| - 1], totals);
      var s := sizes[|sizes| - 1];
      var v := Ratio(wanted, s, totals(s - 2));
      if v > best.1 then (s, v) else best
  }

  /** The alignment totals of the lines after anchor `i`. */
  function TotalsOf(exact: bool, q: Quote, f: File, i: nat): nat -> real {
    (b: nat) => Best(|q.want|, b, Tolerance(q) + 1, Scores(exact, q.want, f.lines, i + 1))
  }

  /** The block at anchor `i`, scored in full. */
  function BlockAt(q: Quote, f: File, i: nat): Option<Block>
    requires i < |f.trimmed|
  {
    var sizes := Sizes(q, f, i, |q.want| + 2 + Tolerance(q));
    if f.trimmed[i] != q.first || sizes == [] then None
    else
      var (size, sim) := Pick(|q.want|, sizes, TotalsOf(true, q, f, i));
      if sim < MIN_SIMILARITY then None else Some(Block(i, size, sim))
  }

  /** Overlapping blocks are one block: the closer fit stays. */
  function Record(blocks: seq<Block>, b: Block): seq<Block> {
    var n := |blocks|;
    if n > 0 && b.first < blocks[n - 1].first + blocks[n - 1].size then
      if b.sim > blocks[n - 1].sim then blocks[n - 1 := b] else blocks
    else blocks + [b]
  }

  /** What scoring every anchor below line `n` in full finds. */
  function Exhaustive(q: Quote, f: File, n: nat): seq<Block>
    requires n <= |f.trimmed|
  {
    if n == 0 then []
    else match BlockAt(q, f, n - 1)
      case None => Exhaustive(q, f, n - 1)
      case Some(b) => Record(Exhaustive(q, f, n - 1), b)
  }

  /** Blocks of at least three lines within the first `lines`, starting below `n`,
      in order and without overlap, all similar enough. */
  predicate Laid(r: seq<Block>, n: nat, lines: nat) {
    && (forall k :: 0 <= k < |r| ==> r[k].first < n && 3 <= r[k].size && r[k].first + r[k].size <= lines)
    && (forall k, l :: 0 <= k < l < |r| ==> r[k].first + r[k].size <= r[l].first)
    && (forall k :: 0 <= k < |r| ==> r[k].sim >= MIN_SIMILARITY)
  }

  lemma RecordLaid(r: seq<Block>, b: Block, n: nat, lines: nat)
    requires Laid(r, n, lines) && b.first == n && 3 <= b.size && n + b.size <= lines && b.sim >= MIN_SIMILARITY
    ensures Laid(Record(r, b), n + 1, lines)
  {
    if r != [] { assert forall k :: 0 <= k < |r| - 1 ==> r[k].first + r[k].size <= r[|r| - 1].first; }
  }

  /** The blocks found lie in the file, in order and without overlap. */
  lemma {:induction false} BlocksDisjoint(q: Quote, f: File, n: nat)
    requires n <= |f.trimmed|
    ensures Laid(Exhaustive(q, f, n), n, |f.trimmed|)
  {
    hide Best, Pick, Record, Sizes;
    if n > 0 {
      BlocksDisjoint(q, f, n - 1);
      var sizes := Sizes(q, f, n - 1, |q.want| + 2 + Tolerance(q));
      PickMember(|q.want|, sizes, TotalsOf(true, q, f, n - 1));
      var b := BlockAt(q, f, n - 1);
      if b.Some? { RecordLaid(Exhaustive(q, f, n - 1), b.value, n - 1, |f.trimmed|); }
    }
  }

  lemma {:induction false} PickMember(wanted: nat, sizes: seq<nat>, totals: nat -> real)
    requires forall k :: 0 <= k < |sizes| ==> sizes[k] >= 2
    ensures var r := Pick(wanted, sizes, totals); r.0 in sizes || r.1 == -1.0
  {
    if sizes != [] { PickMember(wanted, sizes[..|sizes| - 1], totals); }
  }

  // ---------------------------------------------------------------------
  // Pruning

  lemma RatioMonotone(wanted: nat, size: nat, lo: real, hi: real)
    requires lo <= hi
    ensures Ratio(wanted, size, lo) <= Ratio(wanted, size, hi)
  {
    var n := Max(wanted, size - 2);
    if n > 0 { DivMonotone(lo, hi, n as real); }
  }

  lemma {:induction false} PickMonotone(wanted: nat, sizes: seq<nat>, lo: nat -> real, hi: nat -> real)
    requires forall k :: 0 <= k < |sizes| ==> sizes[k] >= 2 && lo(sizes[k] - 2) <= hi(sizes[k] - 2)
    ensures Pick(wanted, sizes, lo).1 <= Pick(wanted, sizes, hi).1
  {
    if sizes != [] {
      PickMonotone(wanted, sizes[..|sizes| - 1], lo, hi);
      var s := sizes[|sizes| - 1];
      RatioMonotone(wanted, s, lo(s - 2), hi(s - 2));
    }
  }

  lemma ScoreBelowBound(want: seq<ScoredLine>, lines: seq<ScoredLine>, first: nat, a: nat, b: nat)
    ensures Scores(true, want, lines, first)(a, b) <= Scores(false, want, lines, first)(a, b)
  {
    PairBelowBound(want, lines, a, first + b);
    hide PairScore;
    var lo, hi := Scores(true, want, lines, first), Scores(false, want, lines, first);
    assert lo(a, b) == PairScore(true, want, lines, a, first + b);
    assert hi(a, b) == PairScore(false, want, lines, a, first + b);
  }

  lemma PairBelowBound(want: seq<ScoredLine>, lines: seq<ScoredLine>, a: nat, i: nat)
    ensures PairScore(true, want, lines, a, i) <= PairScore(false, want, lines, a, i)
  {
    hide Levenshtein.Similarity, Levenshtein.Bound;
    if a < |want| && i < |lines| { BoundIsAbove(want[a].runes, lines[i].runes); }
  }

  /** An anchor whose bound falls short holds no block. */
  lemma PruningIsSound(q: Quote, f: File, i: nat)
    requires i < |f.trimmed|
    requires var sizes := Sizes(q, f, i, |q.want| + 2 + Tolerance(q));
             Pick(|q.want|, sizes, TotalsOf(false, q, f, i)).1 < MIN_SIMILARITY
    ensures BlockAt(q, f, i) == None
  {
    hide Best, Levenshtein.Similarity, Levenshtein.Bound, Sizes, Pick;
    var sizes := Sizes(q, f, i, |q.want| + 2 + Tolerance(q));
    var exact, bound := TotalsOf(true, q, f, i), TotalsOf(false, q, f, i);
    forall b: nat ensures exact(b) <= bound(b) {
      var lo, hi := Scores(true, q.want, f.lines, i + 1), Scores(false, q.want, f.lines, i + 1);
      forall a: nat, c: nat ensures lo(a, c) <= hi(a, c) { ScoreBelowBound(q.want, f.lines, i + 1, a, c); }
      BestMonotone(|q.want|, b, Tolerance(q) + 1, lo, hi);
    }
    PickMonotone(|q.want|, sizes, exact, bound);
  }

  /** Scores the candidate sizes of one anchor by alignment totals. */
  method BestSize(wanted: nat, sizes: seq<nat>, scores: seq<real>, ghost totals: nat -> real) returns (size: nat, sim: real)
    requires forall k :: 0 <= k < |sizes| ==>
               2 <= sizes[k] && sizes[k] - 2 < |scores| && scores[sizes[k] - 2] == totals(sizes[k] - 2)
    ensures (size, sim) == Pick(wanted, sizes, totals)
  {
    size, sim := 0, -1.0;
    for k := 0 to |sizes|
      invariant (size, sim) == Pick(wanted, sizes[..k], totals)
    {
      assert sizes[..k + 1][..k] == sizes[..k];
      var s := sizes[k];
      var n := Max(wanted, s - 2);
      var v := 1.0;
      if n > 0 { v := scores[s - 2] / n as real; }
      if v > sim { size, sim := s, v; }
    }
    assert sizes[..|sizes|] == sizes;
  }

  /** One anchor: bounded first, aligned only when it could pass. */
  method ScoreAnchor(sc: LineScorer, q: Quote, f: File, i: nat, sizes: seq<nat>) returns (gaveUp: bool, block: Option<Block>)
    requires sc.Valid() && f.Valid() && sc.want == q.want && sc.lines == f.lines
    requires i < |f.trimmed| && f.trimmed[i] == q.first
    requires sizes == Sizes(q, f, i, |q.want| + 2 + Tolerance(q)) && sizes != []
    modifies sc
    ensures sc.Valid() && (gaveUp ==> sc.budget < 0)
    ensures !gaveUp ==> block == BlockAt(q, f, i)
  {
    hide Best, Sizes, Pick, LineScorer.Valid;
    gaveUp, block := false, None;
    var nb := sizes[|sizes| - 1] - 2;
    var bounds := sc.AlignPrefixes(false, i + 1, nb, Tolerance(q) + 1);
    var _, ub := BestSize(|q.want|, sizes, bounds, TotalsOf(false, q, f, i));
    if ub < MIN_SIMILARITY {
      PruningIsSound(q, f, i);
      return;
    }
    var totals := sc.AlignPrefixes(true, i + 1, nb, Tolerance(q) + 1);
    if sc.budget < 0 {
      gaveUp := true;
      return;
    }
    var size, sim := BestSize(|q.want|, sizes, totals, TotalsOf(true, q, f, i));
    if sim >= MIN_SIMILARITY { block := Some(Block(i, size, sim)); }
  }

  /** What scoring every pair of a quoted and a file line can cost. */
  function FullCost(q: Quote, f: File): nat { (BOUND_COST + SIMILARITY_COST) * (|q.want| * |f.lines|) }

  /** The tier: whatever the budget, it gives up or finds exactly what scoring
      every candidate in full finds; and it gives up only on a budget that does not
      cover the pairs. */
  method FindBlockAnchor(q: Quote, f: File, budget: int) returns (gaveUp: bool, blocks: seq<Block>)
    requires f.Valid() && forall a :: 0 <= a < |q.want| ==> q.want[a].Valid()
    ensures gaveUp ==> blocks == [] && Usable(q) && budget < FullCost(q, f)
    ensures !gaveUp ==> blocks == if Usable(q) then Exhaustive(q, f, |f.trimmed|) else []
  {
    hide Best, BlockAt, EndsAt, LineScorer.Valid;
    gaveUp, blocks := false, [];
    if !Usable(q) { return; }
    var sc := new LineScorer(q.want, f.lines, budget);
    var k := |q.want| + 2;
    for i := 0 to |f.trimmed|
      invariant fresh(sc) && sc.Valid() && sc.want == q.want && sc.lines == f.lines && sc.granted == budget
      invariant blocks == Exhaustive(q, f, i)
    {
      NotAnchored(q, f, i);
      if f.trimmed[i] != q.first { continue; }
      if budget >= FullCost(q, f) { sc.NeverSpent(); }
      if sc.budget < 0 { return true, []; }
      var sizes := CandidateSizes(q, f, i);
      if |sizes| == 0 { continue; }
      var gave, block := ScoreAnchor(sc, q, f, i, sizes);
      if budget >= FullCost(q, f) { sc.NeverSpent(); }
      if gave { return true, []; }
      if block.Some? { blocks := Record(blocks, block.value); }
    }
  }

  lemma NotAnchored(q: Quote, f: File, i: nat)
    requires i < |f.trimmed|
    ensures f.trimmed[i] != q.first || Sizes(q, f, i, |q.want| + 2 + Tolerance(q)) == [] ==> BlockAt(q, f, i) == None
  {
  }

  /** The sizes within a quarter of the quote's that end in its last line. */
  method CandidateSizes(q: Quote, f: File, i: nat) returns (sizes: seq<nat>)
    requires i < |f.trimmed|
    ensures sizes == Sizes(q, f, i, |q.want| + 2 + Tolerance(q))
  {
    hide Sizes, EndsAt;
    var k, tol := |q.want| + 2, Tolerance(q);
    sizes := [];
    var size := Max(3, k - tol);
    SizesStep(q, f, i, size - 1);
    while size <= k + tol && i + size - 1 < |f.trimmed|
      invariant Max(3, k - tol) <= size <= k + tol + 1
      invariant sizes == Sizes(q, f, i, size - 1)
      decreases k + tol + 1 - size
    {
      SizesStep(q, f, i, size);
      if f.trimmed[i + size - 1] == q.last && f.agrees(i, i + size - 1) {
        sizes := sizes + [size];
      }
      size := size + 1;
    }
    SizesPastEnd(q, f, i, size - 1, k + tol);
  }

  lemma SizesStep(q: Quote, f: File, i: nat, n: nat)
    ensures n < 3 || n < |q.want| + 2 - Tolerance(q) ==> Sizes(q, f, i, n) == []
    ensures n >= 3 && n >= |q.want| + 2 - Tolerance(q) ==>
              Sizes(q, f, i, n) == Sizes(q, f, i, n - 1) +
                (if i + n - 1 < |f.trimmed| && f.trimmed[i + n - 1] == q.last && f.agrees(i, i + n - 1) then [n] else [])
  {
  }

  lemma {:induction false} SizesPastEnd(q: Quote, f: File, i: nat, n: nat, m: nat)
    requires n <= m && (n < m ==> i + n >= |f.trimmed|)
    ensures Sizes(q, f, i, m) == Sizes(q, f, i, n)
    decreases m
  {
    if n < m { SizesPastEnd(q, f, i, n, m - 1); }
  }
}
