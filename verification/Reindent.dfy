/** Re-indentation of a fuzzy match's replacement (internal/agent/edit_indent.go): the
    file keeps its own indentation, and nothing but indentation is touched. */
module Reindent {
  import opened Wrappers
  import opened Text
  import opened LineAlignment

  /** One level of indentation: a tab, or `width` spaces; width 0 means not known. */
  datatype Unit = Unit(tab: bool, width: nat)

  predicate Known(u: Unit) { u.tab || u.width > 0 }

  function Cols(u: Unit): (n: nat)
    ensures n > 0
  {
    if u.tab || u.width == 0 then 4 else u.width
  }

  function Str(u: Unit): string { if u.tab then "\t" else Repeat(" ", u.width) }

  function IndentCols(lead: string, tabCols: nat): nat {
    if lead == "" then 0 else (if lead[0] == '\t' then tabCols else 1) + IndentCols(lead[1..], tabCols)
  }

  /** `s` without up to `n` trailing copies of `unit`. */
  function Strip(s: string, unit: string, n: nat): string
    decreases n
  {
    if n > 0 && |unit| <= |s| && s[|s| - |unit|..] == unit then Strip(s[..|s| - |unit|], unit, n - 1) else s
  }

  /** ceil(n / d). */
  function CeilDiv(n: nat, d: nat): nat
    requires d > 0
  {
    (n + d - 1) / d
  }

  // ---------------------------------------------------------------------
  // The two uniform mappings

  datatype Style = Style(quote: Unit, file: Unit, oldBase: string, fileBase: string)

  /** old_string's base indentation replaced by the file's. */
  function Shift(st: Style, lead: string): Option<string> {
    if st.oldBase <= lead then Some(st.fileBase + lead[|st.oldBase|..]) else None
  }

  /** The depth in the quote's unit, in the file's unit. */
  function Level(st: Style, lead: string): Option<string> {
    if !Known(st.quote) || !Known(st.file) then None
    else
      var qc := Cols(st.quote);
      var depth, base := IndentCols(lead, qc), IndentCols(st.oldBase, qc);
      if depth < base then Some(Strip(st.fileBase, Str(st.file), CeilDiv(base - depth, qc)))
      else Some(st.fileBase + Repeat(Str(st.file), (depth - base) / qc) + Repeat(" ", (depth - base) % qc))
  }

  datatype Mapping = ByShift | ByLevel

  function Map(how: Mapping, st: Style, lead: string): Option<string> {
    if how.ByShift? then Shift(st, lead) else Level(st, lead)
  }

  predicate Comparable(quoted: seq<string>, file: seq<string>, i: nat)
    requires i < |quoted|
  {
    i < |file| && !Blank(quoted[i]) && !Blank(file[i])
  }

  /** The mapping gives the file's indentation for every quoted line. */
  predicate Fits(how: Mapping, st: Style, quoted: seq<string>, file: seq<string>) {
    forall i :: 0 <= i < |quoted| && Comparable(quoted, file, i) ==> Map(how, st, Lead(quoted[i])) == Some(Lead(file[i]))
  }

  /** The line with another indentation. */
  function Relead(l: string, lead: string): string { lead + l[|Lead(l)|..] }

  function MapLine(how: Mapping, st: Style, l: string): string {
    if Blank(l) then l
    else if Map(how, st, Lead(l)).Some? then Relead(l, Map(how, st, Lead(l)).value)
    else if Level(st, Lead(l)).Some? then Relead(l, Level(st, Lead(l)).value)
    else l
  }

  function MapLines(how: Mapping, st: Style, lines: seq<string>): seq<string> {
    seq(|lines|, i requires 0 <= i < |lines| => MapLine(how, st, lines[i]))
  }

  // ---------------------------------------------------------------------
  // Line by line

  const ALIGN_CAP: nat := 4_000_000

  function NonBlank(lines: seq<string>, n: nat): seq<nat>
    requires n <= |lines|
  {
    if n == 0 then [] else NonBlank(lines, n - 1) + if Blank(lines[n - 1]) then [] else [n - 1]
  }

  function Comparables(quoted: seq<string>, file: seq<string>, n: nat): seq<nat>
    requires n <= |quoted|
  {
    if n == 0 then [] else Comparables(quoted, file, n - 1) + if Comparable(quoted, file, n - 1) then [n - 1] else []
  }

  predicate Indices(idx: seq<nat>, n: nat) { forall i :: 0 <= i < |idx| ==> idx[i] < n }

  function Keys(lines: seq<string>, idx: seq<nat>): seq<string>
    requires Indices(idx, |lines|)
  {
    seq(|idx|, i requires 0 <= i < |idx| => TrimSpace(lines[idx[i]]))
  }

  /** The file line of each aligned new line. */
  function Matches(pairs: Pairs, nIdx: seq<nat>, qIdx: seq<nat>): map<nat, nat>
    requires forall k :: 0 <= k < |pairs| ==> pairs[k].0 < |nIdx| && pairs[k].1 < |qIdx|
  {
    if pairs == [] then map[]
    else
      var last := pairs[|pairs| - 1];
      Matches(pairs[..|pairs| - 1], nIdx, qIdx)[nIdx[last.0] := qIdx[last.1]]
  }

  function Below(m: map<nat, nat>, i: nat): (r: Option<nat>)
    ensures r.Some? ==> r.value in m
  {
    if i == 0 then None else if i - 1 in m then Some(i - 1) else Below(m, i - 1)
  }

  function Above(m: map<nat, nat>, i: nat, n: nat): (r: Option<nat>)
    ensures r.Some? ==> r.value in m
    decreases n - i
  {
    if i >= n then None else if i in m then Some(i) else Above(m, i + 1, n)
  }

  /** The nearest aligned line above, else the nearest below. */
  function Anchor(m: map<nat, nat>, i: nat, n: nat): (r: Option<nat>)
    ensures r.Some? ==> r.value in m
  {
    if Below(m, i).Some? then Below(m, i) else Above(m, i + 1, n)
  }

  /** Each aligned line is a new line, and is aligned with a line of the file. */
  predicate InRange(m: map<nat, nat>, lines: seq<string>, file: seq<string>) {
    forall i :: i in m ==> i < |lines| && m[i] < |file|
  }

  function ShiftIndent(lead: string, from: nat, to: nat, qc: nat, unit: Unit): string
    requires qc > 0
  {
    if to >= from then
      if !Known(unit) then lead + Repeat(" ", to - from)
      else lead + Repeat(Str(unit), (to - from) / qc) + Repeat(" ", (to - from) % qc)
    else if !Known(unit) then Strip(lead, " ", from - to)
    else Strip(lead, Str(unit), CeilDiv(from - to, qc))
  }

  /** The new indentation of line `i`: the file's where it is aligned, else as deep
      relative to the anchor as it was. */
  function PerLineLead(lines: seq<string>, file: seq<string>, m: map<nat, nat>, quote: Unit, unit: Unit, i: nat): string
    requires i < |lines| && InRange(m, lines, file)
  {
    if i in m then Lead(file[m[i]])
    else
      var anchor := Anchor(m, i, |lines|);
      if anchor.None? then Lead(lines[i])
      else
        var qc := Cols(quote);
        ShiftIndent(Lead(file[m[anchor.value]]), IndentCols(Lead(lines[anchor.value]), qc),
                    IndentCols(Lead(lines[i]), qc), qc, unit)
  }

  function PerLine(lines: seq<string>, file: seq<string>, m: map<nat, nat>, quote: Unit, unit: Unit): seq<string>
    requires InRange(m, lines, file)
  {
    seq(|lines|, i requires 0 <= i < |lines| =>
      if Blank(lines[i]) then lines[i] else Relead(lines[i], PerLineLead(lines, file, m, quote, unit, i)))
  }

  lemma {:induction false} NonBlankIndices(lines: seq<string>, n: nat)
    requires n <= |lines|
    ensures Indices(NonBlank(lines, n), n)
  {
    if n > 0 { NonBlankIndices(lines, n - 1); }
  }

  lemma {:induction false} ComparableIndices(quoted: seq<string>, file: seq<string>, n: nat)
    requires n <= |quoted|
    ensures Indices(Comparables(quoted, file, n), n) && Indices(Comparables(quoted, file, n), |file|)
  {
    if n > 0 { ComparableIndices(quoted, file, n - 1); }
  }

  lemma {:induction false} MatchesInRange(pairs: Pairs, nIdx: seq<nat>, qIdx: seq<nat>, lines: seq<string>, file: seq<string>)
    requires forall k :: 0 <= k < |pairs| ==> pairs[k].0 < |nIdx| && pairs[k].1 < |qIdx|
    requires Indices(nIdx, |lines|) && Indices(qIdx, |file|)
    ensures InRange(Matches(pairs, nIdx, qIdx), lines, file)
  {
    if pairs != [] { MatchesInRange(pairs[..|pairs| - 1], nIdx, qIdx, lines, file); }
  }

  /** The alignment of the new lines with the quoted ones; none when there is nothing to
      align or too much. */
  function Alignment(lines: seq<string>, quoted: seq<string>, file: seq<string>): (r: Option<map<nat, nat>>)
    ensures r.Some? ==> InRange(r.value, lines, file)
  {
    var nIdx, qIdx := NonBlank(lines, |lines|), Comparables(quoted, file, |quoted|);
    if |nIdx| == 0 || |qIdx| == 0 || |nIdx| * |qIdx| > ALIGN_CAP then None
    else
      NonBlankIndices(lines, |lines|);
      ComparableIndices(quoted, file, |quoted|);
      var x, y := Keys(lines, nIdx), Keys(quoted, qIdx);
      WalkIsPairing(x, y, 0, 0);
      var pairs := Walk(x, y, 0, 0);
      MatchesInRange(pairs, nIdx, qIdx, lines, file);
      if pairs == [] then None else Some(Matches(pairs, nIdx, qIdx))
  }

  // ---------------------------------------------------------------------
  // The whole

  function Base(quoted: seq<string>, file: seq<string>, i: nat): (r: Option<nat>)
    requires i <= |quoted|
    ensures r.Some? ==> i <= r.value < |quoted| && Comparable(quoted, file, r.value)
    ensures r.None? ==> forall j :: i <= j < |quoted| ==> !Comparable(quoted, file, j)
    decreases |quoted| - i
  {
    if i == |quoted| then None else if Comparable(quoted, file, i) then Some(i) else Base(quoted, file, i + 1)
  }

  function StyleOf(quoted: seq<string>, file: seq<string>, base: nat, quote: Unit, fileUnit: Unit): Style
    requires base < |quoted| && base < |file|
  {
    Style(quote, fileUnit, Lead(quoted[base]), Lead(file[base]))
  }

  predicate StyleDiffers(st: Style) { Known(st.quote) && Known(st.file) && st.quote.tab != st.file.tab }

  /** How the lines are mapped. */
  datatype Plan = Keep | Uniform(how: Mapping) | Aligned(m: map<nat, nat>)

  function PlanFor(lines: seq<string>, quoted: seq<string>, file: seq<string>, st: Style): (r: Plan)
    ensures r.Aligned? ==> InRange(r.m, lines, file)
  {
    if StyleDiffers(st) && Fits(ByLevel, st, quoted, file) then Uniform(ByLevel)
    else if Fits(ByShift, st, quoted, file) then (if st.oldBase == st.fileBase then Keep else Uniform(ByShift))
    else if Fits(ByLevel, st, quoted, file) then Uniform(ByLevel)
    else if Alignment(lines, quoted, file).Some? then Aligned(Alignment(lines, quoted, file).value)
    else Uniform(ByShift)
  }

  function Apply(plan: Plan, lines: seq<string>, file: seq<string>, st: Style): seq<string>
    requires plan.Aligned? ==> InRange(plan.m, lines, file)
  {
    match plan
    case Keep => lines
    case Uniform(how) => MapLines(how, st, lines)
    case Aligned(m) => PerLine(lines, file, m, st.quote, if Known(st.file) then st.file else st.quote)
  }

  function ReindentLines(lines: seq<string>, quoted: seq<string>, file: seq<string>, quote: Unit, fileUnit: Unit): seq<string> {
    var base := Base(quoted, file, 0);
    if base.None? then lines
    else
      var st := StyleOf(quoted, file, base.value, quote, fileUnit);
      Apply(PlanFor(lines, quoted, file, st), lines, file, st)
  }
}
