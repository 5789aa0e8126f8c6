/** The loops of internal/agent/edit_indent.go, against the functions that specify them. */
module ReindentMethods {
  import opened Wrappers
  import opened Text
  import opened LineAlignment
  import opened Reindent
  import opened ReindentProofs

  function FallbackUnit(quote: Unit, fileUnit: Unit): Unit { if Known(fileUnit) then fileUnit else quote }

  /** The nearest aligned line above, else below. */
  method FindAnchor(m: map<nat, nat>, i: nat, n: nat) returns (anchor: Option<nat>)
    ensures anchor == Anchor(m, i, n)
  {
    var p := i;
    while p > 0
      invariant 0 <= p <= i && Below(m, i) == Below(m, p)
    {
      p := p - 1;
      if p in m { return Some(p); }
    }
    var q := i + 1;
    while q < n
      invariant i + 1 <= q && Above(m, i + 1, n) == Above(m, q, n)
    {
      if q in m { return Some(q); }
      q := q + 1;
    }
    return None;
  }

  method NonBlankLoop(lines: seq<string>) returns (idx: seq<nat>)
    ensures idx == NonBlank(lines, |lines|)
  {
    idx := [];
    for i := 0 to |lines|
      invariant idx == NonBlank(lines, i)
    {
      if !Blank(lines[i]) { idx := idx + [i]; }
    }
  }

  method ComparableLoop(quoted: seq<string>, file: seq<string>) returns (idx: seq<nat>)
    ensures idx == Comparables(quoted, file, |quoted|)
  {
    idx := [];
    for j := 0 to |quoted|
      invariant idx == Comparables(quoted, file, j)
    {
      if j < |file| && !Blank(quoted[j]) && !Blank(file[j]) { idx := idx + [j]; }
    }
  }

  /** Aligns by table and walk. */
  method AlignLines(lines: seq<string>, quoted: seq<string>, file: seq<string>) returns (r: Option<map<nat, nat>>)
    ensures r == Alignment(lines, quoted, file)
  {
    hide Lcs, Walk, IsPairing, NonBlank, Comparables, Comparable, Blank, InRange, TrimSpace;
    var nIdx := NonBlankLoop(lines);
    var qIdx := ComparableLoop(quoted, file);
    if |nIdx| == 0 || |qIdx| == 0 || |nIdx| * |qIdx| > ALIGN_CAP { return None; }
    NonBlankIndices(lines, |lines|);
    ComparableIndices(quoted, file, |quoted|);
    var x, y := Keys(lines, nIdx), Keys(quoted, qIdx);
    WalkIsPairing(x, y, 0, 0);
    PairsInRange(x, y, Walk(x, y, 0, 0));
    var dp := FillTable(x, y);
    var pairs := GreedyWalk(x, y, dp);
    var m := map[];
    for k := 0 to |pairs|
      invariant m == Matches(pairs[..k], nIdx, qIdx)
    {
      assert pairs[..k + 1][..k] == pairs[..k];
      m := m[nIdx[pairs[k].0] := qIdx[pairs[k].1]];
    }
    assert pairs[..|pairs|] == pairs;
    if pairs == [] { return None; }
    return Some(m);
  }

  lemma PairsInRange(x: seq<string>, y: seq<string>, p: Pairs)
    requires IsPairing(x, y, p, 0, 0)
    ensures forall k :: 0 <= k < |p| ==> p[k].0 < |x| && p[k].1 < |y|
  {
  }

  method ReindentPerLine(lines: seq<string>, quoted: seq<string>, file: seq<string>, quote: Unit, fileUnit: Unit)
      returns (out: Option<seq<string>>)
    ensures var a := Alignment(lines, quoted, file);
            out == if a.Some? then Some(PerLine(lines, file, a.value, quote, FallbackUnit(quote, fileUnit))) else None
  {
    hide Alignment, Blank, ShiftIndent, IndentCols, Lead, Relead, Anchor;
    var a := AlignLines(lines, quoted, file);
    if a.None? { return None; }
    var m := a.value;
    var unit := FallbackUnit(quote, fileUnit);
    var qc := Cols(quote);
    var result := lines;
    for i := 0 to |lines|
      invariant |result| == |lines|
      invariant forall j :: 0 <= j < i ==> result[j] == PerLine(lines, file, m, quote, unit)[j]
      invariant forall j :: i <= j < |lines| ==> result[j] == lines[j]
    {
      if Blank(lines[i]) { continue; }
      if i in m {
        result := result[i := Relead(lines[i], Lead(file[m[i]]))];
        continue;
      }
      var anchor := FindAnchor(m, i, |lines|);
      if anchor.Some? {
        var from, to := IndentCols(Lead(lines[anchor.value]), qc), IndentCols(Lead(lines[i]), qc);
        result := result[i := Relead(lines[i], ShiftIndent(Lead(file[m[anchor.value]]), from, to, qc, unit))];
      } else {
        result := result[i := Relead(lines[i], Lead(lines[i]))];
      }
    }
    assert result == PerLine(lines, file, m, quote, unit);
    return Some(result);
  }

  method FitsLoop(how: Mapping, st: Style, quoted: seq<string>, file: seq<string>) returns (ok: bool)
    ensures ok == Fits(how, st, quoted, file)
  {
    hide Map, Blank, Lead;
    for i := 0 to |quoted|
      invariant forall j :: 0 <= j < i && Comparable(quoted, file, j) ==> Map(how, st, Lead(quoted[j])) == Some(Lead(file[j]))
    {
      if i >= |file| || Blank(quoted[i]) || Blank(file[i]) { continue; }
      var got := Map(how, st, Lead(quoted[i]));
      if got != Some(Lead(file[i])) {
        assert Comparable(quoted, file, i);
        return false;
      }
    }
    return true;
  }

  method FindBase(quoted: seq<string>, file: seq<string>) returns (base: Option<nat>)
    ensures base == Base(quoted, file, 0)
  {
    hide Blank;
    for i := 0 to |quoted|
      invariant Base(quoted, file, 0) == Base(quoted, file, i)
    {
      if i < |file| && !Blank(quoted[i]) && !Blank(file[i]) { return Some(i); }
    }
    return None;
  }

  /** Re-indents new_string for the place of the match; `detect` guesses a unit. */
  method ReindentForFile(newStr: string, quoted: seq<string>, file: seq<string>, detect: seq<string> -> Unit, fileUnit: Unit)
      returns (r: string)
    ensures r == Join(ReindentLines(Split(newStr), quoted, file, detect(quoted + Split(newStr)), fileUnit))
  {
    hide Join, Split, Fits, Alignment, Level, Shift, Blank, Lead, Relead, PerLine, InRange;
    JoinSplit(newStr);
    var base := FindBase(quoted, file);
    if base.None? { return newStr; }
    var newLines := Split(newStr);
    var quoteUnit := detect(quoted + newLines);
    var st := Style(quoteUnit, fileUnit, Lead(quoted[base.value]), Lead(file[base.value]));
    var how := ByShift;
    var fitsLevel := FitsLoop(ByLevel, st, quoted, file);
    var fitsShift := FitsLoop(ByShift, st, quoted, file);
    if Known(quoteUnit) && Known(fileUnit) && quoteUnit.tab != fileUnit.tab && fitsLevel {
      how := ByLevel;
    } else if fitsShift {
      if st.oldBase == st.fileBase { return newStr; }
    } else if fitsLevel {
      how := ByLevel;
    } else {
      var out := ReindentPerLine(newLines, quoted, file, quoteUnit, fileUnit);
      if out.Some? { return Join(out.value); }
    }
    ghost var was := newLines;
    for i := 0 to |newLines|
      invariant |newLines| == |was|
      invariant forall j :: 0 <= j < i ==> newLines[j] == MapLine(how, st, was[j])
      invariant forall j :: i <= j < |was| ==> newLines[j] == was[j]
    {
      var l := newLines[i];
      if Blank(l) { continue; }
      var nl := Map(how, st, Lead(l));
      if nl.Some? {
        newLines := newLines[i := Relead(l, nl.value)];
      } else {
        nl := Level(st, Lead(l));
        if nl.Some? { newLines := newLines[i := Relead(l, nl.value)]; }
      }
    }
    assert newLines == MapLines(how, st, was);
    return Join(newLines);
  }

  /** The text behind the indentation is untouched, line for line, in the text itself. */
  lemma ReindentedText(newStr: string, quoted: seq<string>, file: seq<string>, quote: Unit, fileUnit: Unit)
    ensures var out := Split(Join(ReindentLines(Split(newStr), quoted, file, quote, fileUnit)));
            |out| == |Split(newStr)| && forall i :: 0 <= i < |out| ==> SameText(Split(newStr)[i], out[i])
  {
    hide ReindentLines, OneLine, SameText, Join, Split;
    var lines := Split(newStr);
    SplitIsLines(newStr);
    OnlyIndentationChanges(lines, quoted, file, quote, fileUnit);
    SplitJoin(ReindentLines(lines, quoted, file, quote, fileUnit));
  }
}
