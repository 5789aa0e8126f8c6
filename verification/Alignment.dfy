/** The banded line alignment of the block-anchor search
    (internal/agent/fuzzy_edit.go), over exact arithmetic. */
module Alignment {

  /** The score of pairing quoted line `a` with file line `b`. */
  type Score = (nat, nat) -> real

  /** Pairs further than this from the diagonal are not scored. */
  predicate InBand(band: nat, a: nat, b: nat) { a - b <= band && b - a <= band }

  // ---------------------------------------------------------------------
  // Matchings

  /** A monotone pairing of some of the first `na` lines with some of the first
      `nb`, each line used at most once, within the band. */
  ghost predicate IsMatching(m: seq<(nat, nat)>, na: nat, nb: nat, band: nat) {
    && (forall k :: 0 <= k < |m| ==> m[k].0 < na && m[k].1 < nb && InBand(band, m[k].0, m[k].1))
    && (forall k, l :: 0 <= k < l < |m| ==> m[k].0 < m[l].0 && m[k].1 < m[l].1)
  }

  function Total(m: seq<(nat, nat)>, score: Score): real {
    if m == [] then 0.0 else Total(m[..|m| - 1], score) + score(m[|m| - 1].0, m[|m| - 1].1)
  }

  function MaxReal(x: real, y: real): real { if x < y then y else x }

  /** The recurrence of the table. */
  function Best(na: nat, nb: nat, band: nat, score: Score): real
    decreases na + nb
  {
    if na == 0 || nb == 0 then 0.0
    else
      var v := MaxReal(Best(na - 1, nb, band, score), Best(na, nb - 1, band, score));
      if InBand(band, na - 1, nb - 1) then MaxReal(v, Best(na - 1, nb - 1, band, score) + score(na - 1, nb - 1)) else v
  }

  /** One cell of the table from its neighbours. */
  lemma BestStep(na: nat, nb: nat, band: nat, score: Score)
    ensures na == 0 || nb == 0 ==> Best(na, nb, band, score) == 0.0
    ensures na > 0 && nb > 0 ==>
              var v := MaxReal(Best(na - 1, nb, band, score), Best(na, nb - 1, band, score));
              Best(na, nb, band, score) ==
              if InBand(band, na, nb) then MaxReal(v, Best(na - 1, nb - 1, band, score) + score(na - 1, nb - 1)) else v
  {
  }

  lemma {:induction false} BestNonNegative(na: nat, nb: nat, band: nat, score: Score)
    ensures Best(na, nb, band, score) >= 0.0
    decreases na + nb
  {
    if na > 0 && nb > 0 { BestNonNegative(na - 1, nb, band, score); }
  }

  /** No matching totals more. */
  lemma {:induction false} NoBetterMatching(m: seq<(nat, nat)>, na: nat, nb: nat, band: nat, score: Score)
    requires IsMatching(m, na, nb, band)
    ensures Total(m, score) <= Best(na, nb, band, score)
    decreases na + nb
  {
    if m == [] {
      BestNonNegative(na, nb, band, score);
    } else {
      var init, last := m[..|m| - 1], m[|m| - 1];
      if last.0 < na - 1 {
        NoBetterMatching(m, na - 1, nb, band, score);
      } else if last.1 < nb - 1 {
        NoBetterMatching(m, na, nb - 1, band, score);
      } else {
        NoBetterMatching(init, na - 1, nb - 1, band, score);
      }
    }
  }

  /** Some matching totals exactly that. */
  lemma {:induction false} BestMatching(na: nat, nb: nat, band: nat, score: Score) returns (m: seq<(nat, nat)>)
    ensures IsMatching(m, na, nb, band) && Total(m, score) == Best(na, nb, band, score)
    decreases na + nb
  {
    hide Best, IsMatching, Total;
    BestStep(na, nb, band, score);
    if na == 0 || nb == 0 {
      EmptyMatching(na, nb, band, score);
      return [];
    }
    var best := Best(na, nb, band, score);
    if best == Best(na - 1, nb, band, score) {
      m := BestMatching(na - 1, nb, band, score);
      MatchingWidens(m, na - 1, nb, na, nb, band);
    } else if best == Best(na, nb - 1, band, score) {
      m := BestMatching(na, nb - 1, band, score);
      MatchingWidens(m, na, nb - 1, na, nb, band);
    } else {
      var init := BestMatching(na - 1, nb - 1, band, score);
      m := init + [(na - 1, nb - 1)];
      PairAdded(init, na, nb, band, score);
    }
  }

  lemma EmptyMatching(na: nat, nb: nat, band: nat, score: Score)
    ensures IsMatching([], na, nb, band) && Total([], score) == 0.0
  {
  }

  lemma MatchingWidens(m: seq<(nat, nat)>, na: nat, nb: nat, na': nat, nb': nat, band: nat)
    requires IsMatching(m, na, nb, band) && na <= na' && nb <= nb'
    ensures IsMatching(m, na', nb', band)
  {
  }

  lemma PairAdded(init: seq<(nat, nat)>, na: nat, nb: nat, band: nat, score: Score)
    requires na > 0 && nb > 0 && InBand(band, na - 1, nb - 1) && IsMatching(init, na - 1, nb - 1, band)
    ensures IsMatching(init + [(na - 1, nb - 1)], na, nb, band)
    ensures Total(init + [(na - 1, nb - 1)], score) == Total(init, score) + score(na - 1, nb - 1)
  {
    assert (init + [(na - 1, nb - 1)])[..|init|] == init;
  }

  /** Higher scores never give a lower total. */
  lemma {:induction false} BestMonotone(na: nat, nb: nat, band: nat, lo: Score, hi: Score)
    requires forall a: nat, b: nat :: a < na && b < nb ==> lo(a, b) <= hi(a, b)
    ensures Best(na, nb, band, lo) <= Best(na, nb, band, hi)
    decreases na + nb
  {
    if na > 0 && nb > 0 {
      BestMonotone(na - 1, nb, band, lo, hi);
      BestMonotone(na, nb - 1, band, lo, hi);
      BestMonotone(na - 1, nb - 1, band, lo, hi);
    }
  }

}
