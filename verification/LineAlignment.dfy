/** The longest common subsequence of two line lists, by table and greedy walk
    (internal/agent/edit_indent.go, reindentPerLine). */
module LineAlignment {

  /** Entry [i, j] of the table: the longest pairing of x[i..] with y[j..]. */
  function Lcs(x: seq<string>, y: seq<string>, i: nat, j: nat): nat
    requires i <= |x| && j <= |y|
    decreases |x| - i + |y| - j
  {
    if i == |x| || j == |y| then 0
    else if x[i] == y[j] then Lcs(x, y, i + 1, j + 1) + 1
    else
      var down, right := Lcs(x, y, i + 1, j), Lcs(x, y, i, j + 1);
      if down >= right then down else right
  }

  type Pairs = seq<(nat, nat)>

  /** The walk from entry [i, j]. */
  function Walk(x: seq<string>, y: seq<string>, i: nat, j: nat): Pairs
    requires i <= |x| && j <= |y|
    decreases |x| - i + |y| - j
  {
    if i == |x| || j == |y| then []
    else if x[i] == y[j] then [(i, j)] + Walk(x, y, i + 1, j + 1)
    else if Lcs(x, y, i + 1, j) >= Lcs(x, y, i, j + 1) then Walk(x, y, i + 1, j)
    else Walk(x, y, i, j + 1)
  }

  /** Pairs of equal lines, from line `i` of x and `j` of y on, both sides strictly
      increasing. */
  ghost predicate IsPairing(x: seq<string>, y: seq<string>, p: Pairs, i: nat, j: nat) {
    && (forall k :: 0 <= k < |p| ==> i <= p[k].0 < |x| && j <= p[k].1 < |y| && x[p[k].0] == y[p[k].1])
    && (forall k, m :: 0 <= k < m < |p| ==> p[k].0 < p[m].0 && p[k].1 < p[m].1)
  }

  lemma FirstPair(x: seq<string>, y: seq<string>, p: Pairs, i: nat, j: nat)
    requires i < |x| && j < |y| && x[i] == y[j] && IsPairing(x, y, p, i + 1, j + 1)
    ensures IsPairing(x, y, [(i, j)] + p, i, j)
  {
  }

  lemma PairingFromBefore(x: seq<string>, y: seq<string>, p: Pairs, i: nat, j: nat, i': nat, j': nat)
    requires i' <= i && j' <= j && IsPairing(x, y, p, i, j)
    ensures IsPairing(x, y, p, i', j')
  {
  }

  lemma {:induction false} WalkIsPairing(x: seq<string>, y: seq<string>, i: nat, j: nat)
    requires i <= |x| && j <= |y|
    ensures IsPairing(x, y, Walk(x, y, i, j), i, j) && |Walk(x, y, i, j)| == Lcs(x, y, i, j)
    decreases |x| - i + |y| - j
  {
    if i < |x| && j < |y| {
      hide IsPairing;
      if x[i] == y[j] {
        WalkIsPairing(x, y, i + 1, j + 1);
        FirstPair(x, y, Walk(x, y, i + 1, j + 1), i, j);
      } else if Lcs(x, y, i + 1, j) >= Lcs(x, y, i, j + 1) {
        WalkIsPairing(x, y, i + 1, j);
        PairingFromBefore(x, y, Walk(x, y, i + 1, j), i + 1, j, i, j);
      } else {
        WalkIsPairing(x, y, i, j + 1);
        PairingFromBefore(x, y, Walk(x, y, i, j + 1), i, j + 1, i, j);
      }
    }
  }

  /** No pairing is longer than the table says. */
  lemma {:induction false} NoLongerPairing(x: seq<string>, y: seq<string>, p: Pairs, i: nat, j: nat)
    requires i <= |x| && j <= |y| && IsPairing(x, y, p, i, j)
    ensures |p| <= Lcs(x, y, i, j)
    decreases |x| - i + |y| - j
  {
    if p != [] {
      var first := p[0];
      if x[i] == y[j] {
        NoLongerPairing(x, y, p[1..], i + 1, j + 1);
      } else if first.0 > i {
        NoLongerPairing(x, y, p, i + 1, j);
      } else {
        NoLongerPairing(x, y, p, i, j + 1);
      }
    }
  }

  /** The walk pairs equal lines, strictly increasing, and as many as can be. */
  lemma WalkIsLongest(x: seq<string>, y: seq<string>, p: Pairs)
    requires IsPairing(x, y, p, 0, 0)
    ensures IsPairing(x, y, Walk(x, y, 0, 0), 0, 0) && |p| <= |Walk(x, y, 0, 0)|
  {
    WalkIsPairing(x, y, 0, 0);
    NoLongerPairing(x, y, p, 0, 0);
  }

  /** The walk of two equal lists pairs each line with itself. */
  lemma {:induction false} WalkOfEqual(x: seq<string>, i: nat)
    requires i <= |x|
    ensures |Walk(x, x, i, i)| == |x| - i
    ensures forall k :: 0 <= k < |x| - i ==> Walk(x, x, i, i)[k] == (i + k, i + k)
    decreases |x| - i
  {
    if i < |x| { WalkOfEqual(x, i + 1); }
  }

  // ---------------------------------------------------------------------
  // The table

  /** Rows from `i` on, and of row i - 1 the entries from `j` on, are filled. */
  ghost predicate FilledFrom(x: seq<string>, y: seq<string>, dp: array2<nat>, i: nat, j: nat)
    reads dp
  {
    && dp.Length0 == |x| + 1 && dp.Length1 == |y| + 1 && i <= |x| + 1 && j <= |y| + 1
    && (forall r, c :: 0 <= r <= |x| && 0 <= c <= |y| && (r >= i || c == |y| || r == |x| || (r == i - 1 && c >= j)) ==>
          dp[r, c] == Lcs(x, y, r, c))
  }

  method FillTable(x: seq<string>, y: seq<string>) returns (dp: array2<nat>)
    ensures fresh(dp) && FilledFrom(x, y, dp, 0, 0)
  {
    var a, b := |x|, |y|;
    dp := new nat[a + 1, b + 1]((_, _) => 0);
    var i := a;
    while i > 0
      invariant 0 <= i <= a && fresh(dp) && FilledFrom(x, y, dp, i, b)
    {
      var j := b;
      while j > 0
        invariant 0 <= j <= b && fresh(dp) && FilledFrom(x, y, dp, i, j)
      {
        j := j - 1;
        if x[i - 1] == y[j] {
          dp[i - 1, j] := dp[i, j + 1] + 1;
        } else {
          dp[i - 1, j] := if dp[i, j] >= dp[i - 1, j + 1] then dp[i, j] else dp[i - 1, j + 1];
        }
      }
      i := i - 1;
    }
  }

  method GreedyWalk(x: seq<string>, y: seq<string>, dp: array2<nat>) returns (pairs: Pairs)
    requires FilledFrom(x, y, dp, 0, 0)
    ensures pairs == Walk(x, y, 0, 0)
  {
    pairs := [];
    var i, j := 0, 0;
    while i < |x| && j < |y|
      invariant 0 <= i <= |x| && 0 <= j <= |y| && pairs + Walk(x, y, i, j) == Walk(x, y, 0, 0)
      decreases |x| - i + |y| - j
    {
      if x[i] == y[j] {
        assert pairs + ([(i, j)] + Walk(x, y, i + 1, j + 1)) == pairs + [(i, j)] + Walk(x, y, i + 1, j + 1);
        pairs := pairs + [(i, j)];
        i, j := i + 1, j + 1;
      } else if dp[i + 1, j] >= dp[i, j + 1] {
        i := i + 1;
      } else {
        j := j + 1;
      }
    }
    assert pairs + [] == pairs;
  }
}
