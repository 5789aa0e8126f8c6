/** What re-indentation keeps and what it restores, and the loops that do it
    (internal/agent/edit_indent.go, reindentForFile and reindentPerLine). */
module ReindentProofs {
  import opened Wrappers
  import opened Text
  import opened LineAlignment
  import opened Reindent

  // ---------------------------------------------------------------------
  // Only indentation changes

  function Rest(l: string): string { l[|Lead(l)|..] }

  /** A blank line is kept; of any other only the indentation may differ. */
  predicate SameText(l: string, l': string) {
    if Blank(l) then l' == l else !Blank(l') && Rest(l') == Rest(l)
  }

  lemma ReleadIs(l: string, lead: string)
    requires !Blank(l) && IsIndent(lead)
    ensures Lead(Relead(l, lead)) == lead && SameText(l, Relead(l, lead))
    ensures OneLine(l) ==> OneLine(Relead(l, lead))
  {
    LeadIs(l);
    LeadOf(lead, Rest(l));
    var i := |Lead(l)|;
    assert Relead(l, lead)[|lead|..] == Rest(l);
    var j: nat :| j < |l| && !IsSpace(l[j]);
    assert forall p :: 0 <= p < i ==> l[p] == Lead(l)[p];
    assert Relead(l, lead)[|lead| + j - i] == l[j];
  }

  lemma {:induction false} RepeatIndent(s: string, n: nat)
    requires IsIndent(s)
    ensures IsIndent(Repeat(s, n))
  {
    if n > 0 { RepeatIndent(s, n - 1); }
  }

  lemma {:induction false} StripIndent(s: string, unit: string, n: nat)
    requires IsIndent(s)
    ensures IsIndent(Strip(s, unit, n))
    decreases n
  {
    if n > 0 && |unit| <= |s| && s[|s| - |unit|..] == unit { StripIndent(s[..|s| - |unit|], unit, n - 1); }
  }

  lemma UnitIndent(u: Unit)
    ensures IsIndent(Str(u))
  {
    RepeatIndent(" ", u.width);
  }

  lemma LevelIndent(st: Style, lead: string)
    requires IsIndent(st.fileBase)
    ensures Level(st, lead).Some? ==> IsIndent(Level(st, lead).value)
  {
    UnitIndent(st.file);
    var qc := Cols(st.quote);
    var depth, base := IndentCols(lead, qc), IndentCols(st.oldBase, qc);
    if depth < base {
      StripIndent(st.fileBase, Str(st.file), CeilDiv(base - depth, qc));
    } else {
      RepeatIndent(Str(st.file), (depth - base) / qc);
      RepeatIndent(" ", (depth - base) % qc);
    }
  }

  lemma ShiftIndentIndent(lead: string, from: nat, to: nat, qc: nat, unit: Unit)
    requires qc > 0 && IsIndent(lead)
    ensures IsIndent(ShiftIndent(lead, from, to, qc, unit))
  {
    UnitIndent(unit);
    if to >= from {
      RepeatIndent(" ", to - from);
      RepeatIndent(Str(unit), (to - from) / qc);
      RepeatIndent(" ", (to - from) % qc);
    } else {
      StripIndent(lead, " ", from - to);
      StripIndent(lead, Str(unit), CeilDiv(from - to, qc));
    }
  }

  lemma MapLineKeeps(how: Mapping, st: Style, l: string)
    requires IsIndent(st.fileBase)
    ensures SameText(l, MapLine(how, st, l)) && (OneLine(l) ==> OneLine(MapLine(how, st, l)))
  {
    hide Level, Blank, SameText, OneLine;
    LeadIs(l);
    LevelIndent(st, Lead(l));
    if !Blank(l) && Map(how, st, Lead(l)).Some? {
      ReleadIs(l, Map(how, st, Lead(l)).value);
    } else if !Blank(l) && Level(st, Lead(l)).Some? {
      ReleadIs(l, Level(st, Lead(l)).value);
    } else {
      SameTextSelf(l);
    }
  }

  lemma SameTextSelf(l: string)
    ensures SameText(l, l)
  {
  }

  lemma PerLineLeadIndent(lines: seq<string>, file: seq<string>, m: map<nat, nat>, quote: Unit, unit: Unit, i: nat)
    requires i < |lines| && InRange(m, lines, file)
    ensures IsIndent(PerLineLead(lines, file, m, quote, unit, i))
  {
    LeadIs(lines[i]);
    var anchor := Anchor(m, i, |lines|);
    if i in m {
      LeadIs(file[m[i]]);
    } else if anchor.Some? {
      LeadIs(file[m[anchor.value]]);
      var qc := Cols(quote);
      ShiftIndentIndent(Lead(file[m[anchor.value]]), IndentCols(Lead(lines[anchor.value]), qc),
                        IndentCols(Lead(lines[i]), qc), qc, unit);
    }
  }

  lemma ApplyKeeps(plan: Plan, lines: seq<string>, file: seq<string>, st: Style, i: nat)
    requires IsIndent(st.fileBase) && i < |lines| && (plan.Aligned? ==> InRange(plan.m, lines, file))
    ensures |Apply(plan, lines, file, st)| == |lines| && SameText(lines[i], Apply(plan, lines, file, st)[i])
    ensures OneLine(lines[i]) ==> OneLine(Apply(plan, lines, file, st)[i])
  {
    hide MapLine, PerLineLead, SameText, OneLine, Blank, Relead;
    SameTextSelf(lines[i]);
    match plan {
      case Keep =>
      case Uniform(how) => MapLineKeeps(how, st, lines[i]);
      case Aligned(m) =>
        var unit := if Known(st.file) then st.file else st.quote;
        PerLineLeadIndent(lines, file, m, st.quote, unit, i);
        if !Blank(lines[i]) { ReleadIs(lines[i], PerLineLead(lines, file, m, st.quote, unit, i)); }
    }
  }

  /** Whatever the quote, the file and the units guessed: the lines stay as many, blank
      ones stay as they are, and of the others everything behind the indentation does. */
  lemma OnlyIndentationChanges(lines: seq<string>, quoted: seq<string>, file: seq<string>, quote: Unit, fileUnit: Unit)
    ensures var out := ReindentLines(lines, quoted, file, quote, fileUnit);
            |out| == |lines| &&
            forall i :: 0 <= i < |lines| ==> SameText(lines[i], out[i]) && (OneLine(lines[i]) ==> OneLine(out[i]))
  {
    hide Apply, PlanFor, SameText, OneLine;
    var base := Base(quoted, file, 0);
    forall i | 0 <= i < |lines|
      ensures |ReindentLines(lines, quoted, file, quote, fileUnit)| == |lines|
      ensures SameText(lines[i], ReindentLines(lines, quoted, file, quote, fileUnit)[i])
      ensures OneLine(lines[i]) ==> OneLine(ReindentLines(lines, quoted, file, quote, fileUnit)[i])
    {
      if base.None? {
        SameTextSelf(lines[i]);
      } else {
        var st := StyleOf(quoted, file, base.value, quote, fileUnit);
        LeadIs(file[base.value]);
        ApplyKeeps(PlanFor(lines, quoted, file, st), lines, file, st, i);
      }
    }
    if base.Some? {
      var st := StyleOf(quoted, file, base.value, quote, fileUnit);
      SameLength(PlanFor(lines, quoted, file, st), lines, file, st);
    }
  }

  lemma SameLength(plan: Plan, lines: seq<string>, file: seq<string>, st: Style)
    requires plan.Aligned? ==> InRange(plan.m, lines, file)
    ensures |Apply(plan, lines, file, st)| == |lines|
  {
  }

  // ---------------------------------------------------------------------
  // A quote of the block

  /** The new lines begin with the quote, the rest of them is blank, and the quote is
      the file's block line by line but for white space at the ends. */
  predicate QuotesBlock(lines: seq<string>, quoted: seq<string>, file: seq<string>) {
    && |quoted| == |file| <= |lines| && lines[..|quoted|] == quoted
    && (forall i :: |quoted| <= i < |lines| ==> Blank(lines[i]))
    && (forall i :: 0 <= i < |quoted| ==> TrimSpace(quoted[i]) == TrimSpace(file[i]))
  }

  lemma BothBlank(lines: seq<string>, quoted: seq<string>, file: seq<string>, i: nat)
    requires QuotesBlock(lines, quoted, file) && i < |quoted|
    ensures Blank(quoted[i]) == Blank(file[i]) == Blank(lines[i])
  {
    TrimBlank(quoted[i]);
    TrimBlank(file[i]);
    assert lines[i] == lines[..|quoted|][i];
  }

  lemma {:induction false} SameIndices(lines: seq<string>, quoted: seq<string>, file: seq<string>, n: nat)
    requires QuotesBlock(lines, quoted, file) && n <= |quoted|
    ensures NonBlank(lines, n) == Comparables(quoted, file, n)
  {
    if n > 0 {
      SameIndices(lines, quoted, file, n - 1);
      BothBlank(lines, quoted, file, n - 1);
    }
  }

  lemma {:induction false} TrailingBlank(lines: seq<string>, k: nat, n: nat)
    requires k <= n <= |lines| && forall i :: k <= i < n ==> Blank(lines[i])
    ensures NonBlank(lines, n) == NonBlank(lines, k)
    decreases n
  {
    if k < n { TrailingBlank(lines, k, n - 1); }
  }

  lemma {:induction false} InNonBlank(lines: seq<string>, n: nat, i: nat) returns (k: nat)
    requires i < n <= |lines| && !Blank(lines[i])
    ensures k < |NonBlank(lines, n)| && NonBlank(lines, n)[k] == i
    decreases n
  {
    if i == n - 1 {
      k := |NonBlank(lines, n - 1)|;
    } else {
      k := InNonBlank(lines, n - 1, i);
    }
  }

  predicate Increasing(idx: seq<nat>) {
    forall i, j :: 0 <= i < j < |idx| ==> idx[i] < idx[j]
  }

  lemma {:induction false} MatchesDiagonal(pairs: Pairs, idx: seq<nat>, k: nat)
    requires |pairs| <= |idx| && k < |pairs|
    requires Increasing(idx)
    requires forall i :: 0 <= i < |pairs| ==> pairs[i] == (i, i)
    ensures idx[k] in Matches(pairs, idx, idx) && Matches(pairs, idx, idx)[idx[k]] == idx[k]
    decreases |pairs|
  {
    if k < |pairs| - 1 { MatchesDiagonal(pairs[..|pairs| - 1], idx, k); }
  }

  lemma {:induction false} NonBlankIncreasing(lines: seq<string>, n: nat)
    requires n <= |lines|
    ensures Increasing(NonBlank(lines, n))
  {
    if n > 0 {
      NonBlankIncreasing(lines, n - 1);
      NonBlankIndices(lines, n - 1);
      var idx, r := NonBlank(lines, n), NonBlank(lines, n - 1);
      assert idx == r || idx == r + [n - 1];
      assert forall i :: 0 <= i < |r| ==> r[i] < n - 1;
    }
  }

  /** A quote of the block is aligned with it line by line. */
  lemma AlignedWithItself(lines: seq<string>, quoted: seq<string>, file: seq<string>, i: nat)
    requires QuotesBlock(lines, quoted, file) && i < |lines| && !Blank(lines[i])
    requires |NonBlank(lines, |lines|)| * |NonBlank(lines, |lines|)| <= ALIGN_CAP
    ensures var a := Alignment(lines, quoted, file); a.Some? && i in a.value && a.value[i] == i
  {
    hide QuotesBlock, TrimSpace, Lcs, IsPairing, Walk, Matches, NonBlank, Comparables, InRange;
    var k := InNonBlank(lines, |lines|, i);
    var idx := NonBlank(lines, |lines|);
    SameIdx(lines, quoted, file);
    var x := Keys(lines, idx);
    assert x == Keys(quoted, idx) by { SameKeys(lines, quoted, file); }
    WalkOfEqual(x, 0);
    NonBlankIncreasing(lines, |lines|);
    MatchesDiagonal(Walk(x, x, 0, 0), idx, k);
  }

  lemma SameIdx(lines: seq<string>, quoted: seq<string>, file: seq<string>)
    requires QuotesBlock(lines, quoted, file)
    ensures Comparables(quoted, file, |quoted|) == NonBlank(lines, |lines|)
    ensures Indices(NonBlank(lines, |lines|), |quoted|) && Indices(NonBlank(lines, |lines|), |lines|)
  {
    SameIndices(lines, quoted, file, |quoted|);
    TrailingBlank(lines, |quoted|, |lines|);
    ComparableIndices(quoted, file, |quoted|);
  }

  lemma SameKeys(lines: seq<string>, quoted: seq<string>, file: seq<string>)
    requires QuotesBlock(lines, quoted, file)
    requires Indices(NonBlank(lines, |lines|), |quoted|) && Indices(NonBlank(lines, |lines|), |lines|)
    ensures Keys(lines, NonBlank(lines, |lines|)) == Keys(quoted, NonBlank(lines, |lines|))
  {
    var idx := NonBlank(lines, |lines|);
    forall k | 0 <= k < |idx| ensures lines[idx[k]] == quoted[idx[k]] { assert lines[idx[k]] == lines[..|quoted|][idx[k]]; }
  }

  lemma UniformRestores(how: Mapping, st: Style, quoted: seq<string>, file: seq<string>, i: nat)
    requires i < |quoted| && Comparable(quoted, file, i) && Fits(how, st, quoted, file)
    ensures Lead(MapLine(how, st, quoted[i])) == Lead(file[i])
  {
    hide Blank, Map, Relead;
    LeadIs(file[i]);
    ReleadIs(quoted[i], Lead(file[i]));
  }

  /** Shifting to the same base is no change, so a fit says the quote has the file's
      indentation already. */
  lemma KeepRestores(st: Style, quoted: seq<string>, file: seq<string>, i: nat)
    requires i < |quoted| && Comparable(quoted, file, i) && Fits(ByShift, st, quoted, file) && st.oldBase == st.fileBase
    ensures Lead(quoted[i]) == Lead(file[i])
  {
    hide Blank;
    assert Map(ByShift, st, Lead(quoted[i])) == Some(Lead(file[i]));
    assert st.oldBase + Lead(quoted[i])[|st.oldBase|..] == Lead(quoted[i]);
  }

  lemma AlignedRestores(lines: seq<string>, quoted: seq<string>, file: seq<string>, st: Style, m: map<nat, nat>, i: nat)
    requires QuotesBlock(lines, quoted, file) && i < |quoted| && !Blank(lines[i]) && InRange(m, lines, file)
    requires i in m && m[i] == i
    ensures Lead(Apply(Aligned(m), lines, file, st)[i]) == Lead(file[i])
  {
    hide Blank, QuotesBlock;
    LeadIs(file[i]);
    ReleadIs(lines[i], Lead(file[i]));
  }

  /** A replacement that quotes the block it replaces gets the file's indentation on
      every line that is not blank, whatever units were guessed and whichever way the
      lines are mapped. */
  lemma QuoteGetsFileIndentation(lines: seq<string>, quoted: seq<string>, file: seq<string>, quote: Unit,
        fileUnit: Unit, i: nat)
    requires QuotesBlock(lines, quoted, file) && i < |quoted| && !Blank(quoted[i])
    requires |NonBlank(lines, |lines|)| * |NonBlank(lines, |lines|)| <= ALIGN_CAP
    ensures var out := ReindentLines(lines, quoted, file, quote, fileUnit);
            i < |out| && Lead(out[i]) == Lead(file[i])
  {
    hide Blank, QuotesBlock, Alignment, NonBlank, Fits, MapLine, PerLineLead;
    BothBlank(lines, quoted, file, i);
    QuoteShape(lines, quoted, file, i);
    assert Comparable(quoted, file, i);
    var base := Base(quoted, file, 0);
    var st := StyleOf(quoted, file, base.value, quote, fileUnit);
    var plan := PlanFor(lines, quoted, file, st);
    if plan.Keep? {
      KeepRestores(st, quoted, file, i);
    } else if plan.Aligned? {
      AlignedWithItself(lines, quoted, file, i);
      AlignedRestores(lines, quoted, file, st, plan.m, i);
    } else {
      AlignedWithItself(lines, quoted, file, i);
      UniformRestores(plan.how, st, quoted, file, i);
    }
  }

  lemma QuoteShape(lines: seq<string>, quoted: seq<string>, file: seq<string>, i: nat)
    requires QuotesBlock(lines, quoted, file) && i < |quoted|
    ensures |quoted| == |file| <= |lines| && lines[i] == quoted[i]
  {
    assert lines[i] == lines[..|quoted|][i];
  }
}
