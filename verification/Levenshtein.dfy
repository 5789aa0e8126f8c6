/** Line similarity of the block-anchor search (internal/agent/fuzzy_edit.go): the
    two-row edit distance, proved to be the least cost of an edit script, and the
    rune-bag bound, proved to be a bound. */
module Levenshtein {
  import opened Wrappers

  type Text = string

  // ---------------------------------------------------------------------
  // Edit scripts

  /** One edit, read from the end of the text. */
  datatype Edit = Keep | Replace(c: char) | Insert(c: char) | Delete

  /** What a script makes of a text; None when it does not fit it. */
  function Apply(script: seq<Edit>, x: Text): Option<Text> {
    if script == [] then (if x == [] then Some([]) else None)
    else
      var init := script[..|script| - 1];
      match script[|script| - 1]
      case Insert(c) => Then(Apply(init, x), [c])
      case Delete => if x == [] then None else Apply(init, x[..|x| - 1])
      case Keep => if x == [] then None else Then(Apply(init, x[..|x| - 1]), [x[|x| - 1]])
      case Replace(c) => if x == [] then None else Then(Apply(init, x[..|x| - 1]), [c])
  }

  function Then(o: Option<Text>, t: Text): Option<Text> {
    match o case None => None case Some(s) => Some(s + t)
  }

  function Cost(script: seq<Edit>): nat {
    if script == [] then 0 else Cost(script[..|script| - 1]) + (if script[|script| - 1].Keep? then 0 else 1)
  }

  function Min(x: int, y: int): int { if x < y then x else y }

  function Max(x: int, y: int): int { if x > y then x else y }

  /** The recurrence of the table: the distance of the first `p` characters of `a`
      from the first `q` of `b`. */
  function Distance(a: Text, b: Text, p: nat, q: nat): nat
    requires p <= |a| && q <= |b|
    decreases p + q
  {
    if p == 0 then q
    else if q == 0 then p
    else Min(Min(Distance(a, b, p - 1, q) + 1, Distance(a, b, p, q - 1) + 1),
             Distance(a, b, p - 1, q - 1) + (if a[p - 1] == b[q - 1] then 0 else 1))
  }

  /** No script is cheaper than the distance. */
  lemma {:induction false} NoCheaperScript(script: seq<Edit>, a: Text, b: Text, p: nat, q: nat)
    requires p <= |a| && q <= |b| && Apply(script, a[..p]) == Some(b[..q])
    ensures Cost(script) >= Distance(a, b, p, q)
  {
    if script != [] {
      var init, e := script[..|script| - 1], script[|script| - 1];
      if p > 0 { assert a[..p][..p - 1] == a[..p - 1]; }
      if q > 0 { assert b[..q][..q - 1] == b[..q - 1]; }
      var o := Apply(init, if e.Insert? then a[..p] else a[..p - 1]);
      if !e.Delete? { assert (o.value + [b[q - 1]])[..q - 1] == o.value; }
      NoCheaperScript(init, a, b, if e.Insert? then p else p - 1, if e.Delete? then q else q - 1);
    }
  }

  /** Some script costs exactly the distance. */
  lemma {:induction false} CheapestScript(a: Text, b: Text, p: nat, q: nat) returns (script: seq<Edit>)
    requires p <= |a| && q <= |b|
    ensures Apply(script, a[..p]) == Some(b[..q]) && Cost(script) == Distance(a, b, p, q)
    decreases p + q
  {
    hide Distance;
    DistanceStep(a, b, p, q);
    if p == 0 && q == 0 { return []; }
    var d := Distance(a, b, p, q);
    var init, e;
    if q > 0 && (p == 0 || d == Distance(a, b, p, q - 1) + 1) {
      DistanceStep(a, b, p, q - 1);
      init := CheapestScript(a, b, p, q - 1);
      e := Insert(b[q - 1]);
    } else if q == 0 || d == Distance(a, b, p - 1, q) + 1 {
      DistanceStep(a, b, p - 1, q);
      init := CheapestScript(a, b, p - 1, q);
      e := Delete;
    } else {
      init := CheapestScript(a, b, p - 1, q - 1);
      e := if a[p - 1] == b[q - 1] then Keep else Replace(b[q - 1]);
    }
    script := init + [e];
    ScriptPush(init, e, a, b, p, q);
  }

  lemma ScriptPush(init: seq<Edit>, e: Edit, a: Text, b: Text, p: nat, q: nat)
    requires p <= |a| && q <= |b|
    requires !e.Delete? ==> q > 0
    requires !e.Insert? ==> p > 0
    requires e.Insert? ==> e.c == b[q - 1] && Apply(init, a[..p]) == Some(b[..q - 1])
    requires e.Delete? ==> Apply(init, a[..p - 1]) == Some(b[..q])
    requires e.Keep? ==> a[p - 1] == b[q - 1]
    requires e.Replace? ==> e.c == b[q - 1]
    requires e.Keep? || e.Replace? ==> Apply(init, a[..p - 1]) == Some(b[..q - 1])
    ensures Apply(init + [e], a[..p]) == Some(b[..q])
    ensures Cost(init + [e]) == Cost(init) + (if e.Keep? then 0 else 1)
  {
    assert (init + [e])[..|init|] == init;
    if p > 0 { assert a[..p][..p - 1] == a[..p - 1]; }
    if q > 0 { assert b[..q] == b[..q - 1] + [b[q - 1]]; }
  }

  lemma DistanceStep(a: Text, b: Text, p: nat, q: nat)
    requires p <= |a| && q <= |b|
    ensures p == 0 ==> Distance(a, b, p, q) == q
    ensures q == 0 ==> Distance(a, b, p, q) == p
    ensures p > 0 && q > 0 ==>
              Distance(a, b, p, q) == Min(Min(Distance(a, b, p - 1, q) + 1, Distance(a, b, p, q - 1) + 1),
                                          Distance(a, b, p - 1, q - 1) + (if a[p - 1] == b[q - 1] then 0 else 1))
  {
  }

  /** `row` holds the distances of the first `p` characters from every prefix shorter than `n`. */
  ghost predicate Row(row: array<int>, ra: Text, rb: Text, p: nat, n: nat)
    requires p <= |ra| && n <= |rb| + 1 && row.Length == |rb| + 1
    reads row
  {
    forall k :: 0 <= k < n ==> row[k] == Distance(ra, rb, p, k)
  }

  /** One row of the table from the row above it. */
  method FillRow(ra: Text, rb: Text, p: nat, prev: array<int>, cur: array<int>)
    requires 0 < p <= |ra| && prev != cur && prev.Length == cur.Length == |rb| + 1
    requires Row(prev, ra, rb, p - 1, |rb| + 1)
    modifies cur
    ensures Row(cur, ra, rb, p, |rb| + 1)
  {
    hide Distance;
    cur[0] := p;
    DistanceStep(ra, rb, p, 0);
    for q := 1 to |rb| + 1
      invariant Row(prev, ra, rb, p - 1, |rb| + 1) && Row(cur, ra, rb, p, q)
    {
      DistanceStep(ra, rb, p, q);
      var cost := 1;
      if ra[p - 1] == rb[q - 1] { cost := 0; }
      cur[q] := Min(Min(prev[q] + 1, cur[q - 1] + 1), prev[q - 1] + cost);
    }
  }

  /** The two-row program: `prev` and `cur` are swapped after every row. */
  method EditDistance(ra: Text, rb: Text) returns (d: nat)
    ensures d == Distance(ra, rb, |ra|, |rb|)
  {
    hide Distance;
    var prev, cur := new int[|rb| + 1], new int[|rb| + 1];
    for j := 0 to |rb| + 1
      invariant Row(prev, ra, rb, 0, j)
    {
      DistanceStep(ra, rb, 0, j);
      prev[j] := j;
    }
    for p := 1 to |ra| + 1
      invariant prev != cur && prev.Length == cur.Length == |rb| + 1
      invariant fresh(prev) && fresh(cur)
      invariant Row(prev, ra, rb, p - 1, |rb| + 1)
    {
      FillRow(ra, rb, p, prev, cur);
      prev, cur := cur, prev;
    }
    d := prev[|rb|];
  }

  // ---------------------------------------------------------------------
  // Rune bags

  datatype RuneCount = RuneCount(r: char, n: nat)

  function BagOf(bag: seq<RuneCount>): multiset<char> {
    if bag == [] then multiset{}
    else
      var init := BagOf(bag[..|bag| - 1]);
      init[bag[|bag| - 1].r := init[bag[|bag| - 1].r] + bag[|bag| - 1].n]
  }

  predicate Ascending(bag: seq<RuneCount>) {
    forall i, j :: 0 <= i < j < |bag| ==> bag[i].r < bag[j].r
  }

  /** The runes one text has that another lacks. */
  function Lacking(x: multiset<char>, y: multiset<char>): nat { |x - y| }

  lemma {:induction false} BagHas(bag: seq<RuneCount>, r: char)
    requires forall i :: 0 <= i < |bag| ==> bag[i].r != r
    ensures BagOf(bag)[r] == 0
  {
    if bag != [] { BagHas(bag[..|bag| - 1], r); }
  }

  lemma BagPush(bag: seq<RuneCount>, r: char, n: nat)
    ensures BagOf(bag + [RuneCount(r, n)]) == BagOf(bag)[r := BagOf(bag)[r] + n]
  {
    assert (bag + [RuneCount(r, n)])[..|bag|] == bag;
  }

  lemma BagBump(bag: seq<RuneCount>)
    requires bag != []
    ensures var n := |bag| - 1; var r := bag[n].r;
            BagOf(bag[n := RuneCount(r, bag[n].n + 1)]) == BagOf(bag)[r := BagOf(bag)[r] + 1]
  {
    var n := |bag| - 1;
    assert bag[n := RuneCount(bag[n].r, bag[n].n + 1)][..n] == bag[..n];
  }

  predicate Sorted(s: seq<char>) {
    forall i, j :: 0 <= i < j < |s| ==> s[i] <= s[j]
  }

  /** `bag` counts the first `k` runes, the last of them last. */
  ghost predicate Counted(bag: seq<RuneCount>, sorted: seq<char>, k: nat) {
    && |bag| <= k <= |sorted|
    && Ascending(bag) && BagOf(bag) == multiset(sorted[..k])
    && (bag == [] <==> k == 0)
    && (k > 0 ==> bag[|bag| - 1].r == sorted[k - 1])
  }

  lemma CountedAgain(bag: seq<RuneCount>, sorted: seq<char>, k: nat)
    requires Counted(bag, sorted, k) && k < |sorted| && bag != [] && bag[|bag| - 1].r == sorted[k]
    ensures Counted(bag[|bag| - 1 := RuneCount(sorted[k], bag[|bag| - 1].n + 1)], sorted, k + 1)
  {
    hide BagOf;
    BagBump(bag);
    assert sorted[..k + 1] == sorted[..k] + [sorted[k]];
  }

  lemma CountedNew(bag: seq<RuneCount>, sorted: seq<char>, k: nat)
    requires Counted(bag, sorted, k) && k < |sorted| && Sorted(sorted) && (bag != [] ==> bag[|bag| - 1].r != sorted[k])
    ensures Counted(bag + [RuneCount(sorted[k], 1)], sorted, k + 1)
  {
    hide BagOf;
    BagPush(bag, sorted[k], 1);
    assert sorted[..k + 1] == sorted[..k] + [sorted[k]];
    if bag != [] { assert sorted[k - 1] < sorted[k]; }
  }

  /** Counts the sorted runes of a line. */
  method NewBag(sorted: seq<char>) returns (bag: seq<RuneCount>)
    requires Sorted(sorted)
    ensures Ascending(bag) && BagOf(bag) == multiset(sorted) && |bag| <= |sorted|
  {
    bag := [];
    for k := 0 to |sorted|
      invariant Counted(bag, sorted, k)
    {
      var r, n := sorted[k], |bag|;
      if n > 0 && bag[n - 1].r == r {
        CountedAgain(bag, sorted, k);
        bag := bag[n - 1 := RuneCount(r, bag[n - 1].n + 1)];
      } else {
        CountedNew(bag, sorted, k);
        bag := bag + [RuneCount(r, 1)];
      }
    }
    assert sorted[..|sorted|] == sorted;
  }

  /** Adding a new rune to one side, or to both, moves the difference by what the
      first side has more of. */
  lemma LackingStep(x: multiset<char>, y: multiset<char>, r: char, n: nat, m: nat)
    requires x[r] == 0 && y[r] == 0
    ensures Lacking(x[r := n], y[r := m]) == Lacking(x, y) + (if n > m then n - m else 0)
  {
    var k := if n > m then n - m else 0;
    assert x[r := n] - y[r := m] == (x - y)[r := k];
  }

  /** The counts so far, and no rune ahead occurs behind on the other side. */
  ghost predicate Walked(x: seq<RuneCount>, y: seq<RuneCount>, p: nat, q: nat, onlyX: nat, onlyY: nat) {
    && p <= |x| && q <= |y|
    && onlyX == Lacking(BagOf(x[..p]), BagOf(y[..q]))
    && onlyY == Lacking(BagOf(y[..q]), BagOf(x[..p]))
    && (forall i, j :: p <= i < |x| && 0 <= j < q ==> y[j].r < x[i].r)
    && (forall i, j :: q <= i < |y| && 0 <= j < p ==> x[j].r < y[i].r)
  }

  lemma WalkedFirst(x: seq<RuneCount>, y: seq<RuneCount>, p: nat, q: nat, onlyX: nat, onlyY: nat)
    requires Ascending(x) && Ascending(y) && Walked(x, y, p, q, onlyX, onlyY)
    requires p < |x| && (q == |y| || x[p].r < y[q].r)
    ensures Walked(x, y, p + 1, q, onlyX + x[p].n, onlyY)
    ensures Walked(y, x, q, p + 1, onlyY, onlyX + x[p].n)
  {
    hide BagOf, Lacking;
    var mx, my := BagOf(x[..p]), BagOf(y[..q]);
    NextRune(x, y, p, q);
    LackingStep(mx, my, x[p].r, x[p].n, 0);
    LackingStep(my, mx, x[p].r, 0, x[p].n);
    assert my[x[p].r := 0] == my;
  }

  lemma WalkedBoth(x: seq<RuneCount>, y: seq<RuneCount>, p: nat, q: nat, onlyX: nat, onlyY: nat)
    requires Ascending(x) && Ascending(y) && Walked(x, y, p, q, onlyX, onlyY)
    requires p < |x| && q < |y| && x[p].r == y[q].r
    ensures var d := x[p].n - y[q].n;
            Walked(x, y, p + 1, q + 1, if d > 0 then onlyX + d else onlyX, if d > 0 then onlyY else onlyY - d)
  {
    hide BagOf, Lacking;
    var mx, my := BagOf(x[..p]), BagOf(y[..q]);
    NextRune(x, y, p, q);
    NextRune(y, x, q, p);
    LackingStep(mx, my, x[p].r, x[p].n, y[q].n);
    LackingStep(my, mx, x[p].r, y[q].n, x[p].n);
  }

  /** Walks two bags in step and counts what each has that the other lacks. */
  method CompareBags(x: seq<RuneCount>, y: seq<RuneCount>) returns (onlyX: nat, onlyY: nat)
    requires Ascending(x) && Ascending(y)
    ensures onlyX == Lacking(BagOf(x), BagOf(y))
    ensures onlyY == Lacking(BagOf(y), BagOf(x))
  {
    hide BagOf, Lacking, Walked, Ascending;
    onlyX, onlyY := 0, 0;
    var p, q := 0, 0;
    WalkedStart(x, y);
    while p < |x| || q < |y|
      invariant p <= |x| && q <= |y|
      invariant Walked(x, y, p, q, onlyX, onlyY) && Walked(y, x, q, p, onlyY, onlyX)
      decreases |x| - p + |y| - q
    {
      if q == |y| || (p < |x| && x[p].r < y[q].r) {
        WalkedFirst(x, y, p, q, onlyX, onlyY);
        onlyX := onlyX + x[p].n;
        p := p + 1;
      } else if p == |x| || y[q].r < x[p].r {
        WalkedFirst(y, x, q, p, onlyY, onlyX);
        onlyY := onlyY + y[q].n;
        q := q + 1;
      } else {
        WalkedBoth(x, y, p, q, onlyX, onlyY);
        WalkedBoth(y, x, q, p, onlyY, onlyX);
        var d := x[p].n - y[q].n;
        if d > 0 {
          onlyX := onlyX + d;
        } else {
          onlyY := onlyY - d;
        }
        p := p + 1;
        q := q + 1;
      }
    }
    WalkedEnd(x, y, onlyX, onlyY);
  }

  lemma WalkedStart(x: seq<RuneCount>, y: seq<RuneCount>)
    ensures Walked(x, y, 0, 0, 0, 0) && Walked(y, x, 0, 0, 0, 0)
  {
  }

  lemma WalkedEnd(x: seq<RuneCount>, y: seq<RuneCount>, onlyX: nat, onlyY: nat)
    requires Walked(x, y, |x|, |y|, onlyX, onlyY)
    ensures onlyX == Lacking(BagOf(x), BagOf(y)) && onlyY == Lacking(BagOf(y), BagOf(x))
  {
    assert x[..|x|] == x && y[..|y|] == y;
  }

  lemma BagPrefix(x: seq<RuneCount>, p: nat)
    requires p <= |x|
    ensures p == 0 ==> BagOf(x[..p]) == multiset{}
    ensures p > 0 ==> var m := BagOf(x[..p - 1]); BagOf(x[..p]) == m[x[p - 1].r := m[x[p - 1].r] + x[p - 1].n]
  {
    if p > 0 { assert x[..p][..p - 1] == x[..p - 1]; }
  }

  /** The next rune of `x` is in neither part walked so far. */
  lemma NextRune(x: seq<RuneCount>, y: seq<RuneCount>, p: nat, q: nat)
    requires Ascending(x) && p < |x| && q <= |y|
    requires forall j :: 0 <= j < q ==> y[j].r < x[p].r
    ensures BagOf(x[..p])[x[p].r] == 0 && BagOf(y[..q])[x[p].r] == 0
    ensures BagOf(x[..p + 1]) == BagOf(x[..p])[x[p].r := x[p].n]
  {
    BagHas(x[..p], x[p].r);
    BagHas(y[..q], x[p].r);
    BagPrefix(x, p + 1);
  }

  /** A script needs at least as many edits as runes one text has that the other lacks. */
  lemma {:induction false} BagBelowDistance(a: Text, b: Text, p: nat, q: nat)
    requires p <= |a| && q <= |b|
    ensures Lacking(multiset(a[..p]), multiset(b[..q])) <= Distance(a, b, p, q)
    ensures Lacking(multiset(b[..q]), multiset(a[..p])) <= Distance(a, b, p, q)
    decreases p + q
  {
    hide Distance, Lacking;
    DistanceStep(a, b, p, q);
    if p == 0 || q == 0 {
      LackingAtMost(multiset(a[..p]), multiset(b[..q]));
      LackingAtMost(multiset(b[..q]), multiset(a[..p]));
    } else {
      BagBelowDistance(a, b, p - 1, q);
      BagBelowDistance(a, b, p, q - 1);
      BagBelowDistance(a, b, p - 1, q - 1);
      LackingGrows(a[..p - 1], b[..q - 1], a[p - 1], b[q - 1]);
      LackingGrows(b[..q - 1], a[..p - 1], b[q - 1], a[p - 1]);
      assert a[..p] == a[..p - 1] + [a[p - 1]] && b[..q] == b[..q - 1] + [b[q - 1]];
    }
  }

  /** One more character on either side, or on both. */
  lemma LackingGrows(x: Text, y: Text, c: char, d: char)
    ensures var l := Lacking(multiset(x + [c]), multiset(y + [d]));
            && l <= Lacking(multiset(x), multiset(y + [d])) + 1
            && l <= Lacking(multiset(x + [c]), multiset(y)) + 1
            && l <= Lacking(multiset(x), multiset(y)) + (if c == d then 0 else 1)
  {
    hide Lacking;
    assert multiset(x + [c]) == multiset(x) + multiset{c};
    assert multiset(y + [d]) == multiset(y) + multiset{d};
    OneMore(multiset(x), multiset(y + [d]), c);
    OneMore(multiset(y), multiset(x + [c]), d);
    OneEach(multiset(x), multiset(y), c, d);
  }

  lemma LackingAtMost(x: multiset<char>, y: multiset<char>)
    ensures Lacking(x, y) <= |x|
  {
    assert x == (x - y) + (x * y);
  }

  lemma OneMore(x: multiset<char>, y: multiset<char>, c: char)
    ensures Lacking(x + multiset{c}, y) <= Lacking(x, y) + 1
    ensures Lacking(y, x + multiset{c}) <= Lacking(y, x)
  {
    assert (x + multiset{c}) - y == x - y || (x + multiset{c}) - y == (x - y) + multiset{c};
    assert y - (x + multiset{c}) == y - x || (y - (x + multiset{c})) + multiset{c} == y - x;
  }

  lemma OneEach(x: multiset<char>, y: multiset<char>, c: char, d: char)
    ensures Lacking(x + multiset{c}, y + multiset{d}) <= Lacking(x, y) + (if c == d then 0 else 1)
  {
    if c == d {
      assert (x + multiset{c}) - (y + multiset{d}) == x - y;
    } else {
      OneMore(x, y + multiset{d}, c);
      OneMore(y, x, d);
    }
  }

  // ---------------------------------------------------------------------
  // Scores

  /** How similar two lines are: 1 for equal, less one part per edit. */
  function Similarity(x: Text, y: Text): real {
    if x == y then 1.0
    else 1.0 - Distance(x, y, |x|, |y|) as real / Max(|x|, |y|) as real
  }

  /** The cheap bound on it. */
  function Bound(x: Text, y: Text): real {
    var n := Max(|x|, |y|);
    if n == 0 then 1.0
    else 1.0 - Max(Lacking(multiset(x), multiset(y)), Lacking(multiset(y), multiset(x))) as real / n as real
  }

  lemma DivMonotone(a: real, b: real, n: real)
    requires a <= b && n > 0.0
    ensures a / n <= b / n
  {
  }

  /** The bound never undercuts the similarity. */
  lemma BoundIsAbove(x: Text, y: Text)
    ensures Similarity(x, y) <= Bound(x, y)
  {
    var n := Max(|x|, |y|);
    var least := Max(Lacking(multiset(x), multiset(y)), Lacking(multiset(y), multiset(x)));
    assert x[..|x|] == x && y[..|y|] == y;
    if x == y {
      assert multiset(x) - multiset(y) == multiset{};
    } else {
      hide Distance, Lacking;
      BagBelowDistance(x, y, |x|, |y|);
      DivMonotone(least as real, Distance(x, y, |x|, |y|) as real, n as real);
    }
  }
}
