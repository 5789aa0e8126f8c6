/** Which indentation each line gets (internal/agent/edit_indent.go, reindentForFile): the
    mapping that gives the file's indentation for every quoted line decides, and what it makes
    of a line is said of columns and levels. */
module ReindentChoice {
  import opened Wrappers
  import opened Text
  import opened Reindent
  import opened ReindentProofs

  // ---------------------------------------------------------------------
  // The two mappings, as relations

  /** The tabs of an indentation. */
  function Tabs(lead: string): set<nat> { set i: nat | i < |lead| && lead[i] == '\t' }

  /** A tab counts for as many columns as it is given, anything else for one. */
  lemma {:induction false} ColumnsAre(lead: string, tabCols: nat)
    ensures IndentCols(lead, tabCols) == tabCols * |Tabs(lead)| + (|lead| - |Tabs(lead)|)
  {
    hide Tabs;
    if lead == "" {
      NoTabs();
    } else {
      ColumnsAre(lead[1..], tabCols);
      TabsStep(lead);
      OneMore(tabCols, |Tabs(lead[1..])|);
    }
  }

  lemma OneMore(t: nat, k: nat)
    ensures t * (k + 1) == t * k + t
  {
  }

  lemma NoTabs()
    ensures Tabs("") == {}
  {
  }

  lemma TabsStep(lead: string)
    requires lead != ""
    ensures |Tabs(lead)| == |Tabs(lead[1..])| + if lead[0] == '\t' then 1 else 0
  {
    var later, moved := Tabs(lead[1..]), Next(Tabs(lead[1..]));
    NextSize(later);
    forall x: nat ensures x in moved <==> x > 0 && x in Tabs(lead) {
      if x > 0 && x in Tabs(lead) { assert lead[1..][x - 1] == lead[x] && x - 1 in later; }
      if x in moved { assert x - 1 in later; }
    }
    if lead[0] == '\t' { assert Tabs(lead) == {0} + moved; } else { assert Tabs(lead) == moved; }
  }

  function Next(a: set<nat>): set<nat> { set i | i in a :: i + 1 }

  lemma {:induction false} NextSize(a: set<nat>)
    ensures |Next(a)| == |a|
  {
    if a != {} {
      var x :| x in a;
      NextSize(a - {x});
      forall y: nat ensures y in Next(a) <==> y in Next(a - {x}) || y == x + 1 {
        if y in Next(a) && y != x + 1 { assert y - 1 in a - {x}; }
        if y == x + 1 { assert x in a; }
      }
      assert Next(a) == Next(a - {x}) + {x + 1};
      assert x + 1 !in Next(a - {x});
    }
  }

  /** old_string's base indentation is replaced by the file's, and the rest kept. */
  ghost predicate Shifted(st: Style, lead: string, lead': string) {
    exists rest :: lead == st.oldBase + rest && lead' == st.fileBase + rest
  }

  function Deep(st: Style, lead: string): nat { IndentCols(lead, Cols(st.quote)) }

  /** The depth relative to the base, counted in levels of the quote, is given in levels of
      the file, and what is left over in spaces; above the base as many levels are dropped from
      the file's base as there are, rounded up. */
  ghost predicate Leveled(st: Style, lead: string, lead': string) {
    && Known(st.quote) && Known(st.file)
    && var qc, depth, base := Cols(st.quote), Deep(st, lead), Deep(st, st.oldBase);
       if depth >= base then
         lead' == st.fileBase + Repeat(Str(st.file), (depth - base) / qc) + Repeat(" ", (depth - base) % qc)
       else Drops(st.fileBase, Str(st.file), (base - depth + qc - 1) / qc, lead')
  }

  /** `s'` is `s` without `n` copies of the unit at its end, or as many as there are. */
  ghost predicate Drops(s: string, unit: string, n: nat, s': string) {
    exists k: nat :: k <= n && s == s' + Repeat(unit, k) && (k < n ==> !EndsIn(s', unit))
  }

  predicate EndsIn(s: string, unit: string) { |unit| <= |s| && s[|s| - |unit|..] == unit }

  lemma {:induction false} RepeatBehind(s: string, n: nat)
    requires n > 0
    ensures Repeat(s, n) == Repeat(s, n - 1) + s
  {
    if n == 1 {
      assert Repeat(s, 1) == s + Repeat(s, 0) == s;
      assert Repeat(s, 0) + s == s;
    } else {
      RepeatBehind(s, n - 1);
      assert s + (Repeat(s, n - 2) + s) == (s + Repeat(s, n - 2)) + s;
    }
  }

  lemma {:induction false} StripIs(s: string, unit: string, n: nat, k: nat, s': string)
    requires k <= n && s == s' + Repeat(unit, k) && (k < n ==> !EndsIn(s', unit))
    ensures Strip(s, unit, n) == s'
    decreases n
  {
    if k == 0 {
      assert s == s';
    } else {
      RepeatBehind(unit, k);
      assert s == (s' + Repeat(unit, k - 1)) + unit;
      assert s[..|s| - |unit|] == s' + Repeat(unit, k - 1);
      StripIs(s[..|s| - |unit|], unit, n - 1, k - 1, s');
    }
  }

  lemma StripOne(s: string, part: string, unit: string, k: nat)
    requires EndsIn(s, unit) && s[..|s| - |unit|] == part + Repeat(unit, k)
    ensures s == part + Repeat(unit, k + 1)
  {
    RepeatBehind(unit, k + 1);
    assert s == s[..|s| - |unit|] + unit == (part + Repeat(unit, k)) + unit == part + (Repeat(unit, k) + unit);
  }

  lemma NoneStripped(s: string, unit: string, n: nat)
    requires n == 0 || !EndsIn(s, unit)
    ensures Strip(s, unit, n) == s && s == s + Repeat(unit, 0)
  {
  }

  lemma {:induction false} StripDrops(s: string, unit: string, n: nat) returns (k: nat)
    ensures k <= n && s == Strip(s, unit, n) + Repeat(unit, k) && (k < n ==> !EndsIn(Strip(s, unit, n), unit))
    decreases n
  {
    hide Repeat;
    if n > 0 && EndsIn(s, unit) {
      var shorter := s[..|s| - |unit|];
      k := StripDrops(shorter, unit, n - 1);
      assert Strip(s, unit, n) == Strip(shorter, unit, n - 1);
      hide Strip;
      StripOne(s, Strip(shorter, unit, n - 1), unit, k);
      k := k + 1;
    } else {
      k := 0;
      NoneStripped(s, unit, n);
    }
  }

  lemma DropsIs(s: string, unit: string, n: nat, s': string)
    ensures Drops(s, unit, n, s') <==> s' == Strip(s, unit, n)
  {
    var k := StripDrops(s, unit, n);
    assert Drops(s, unit, n, Strip(s, unit, n));
    if Drops(s, unit, n, s') {
      var j: nat :| j <= n && s == s' + Repeat(unit, j) && (j < n ==> !EndsIn(s', unit));
      StripIs(s, unit, n, j, s');
    }
  }

  lemma LevelIs(st: Style, lead: string, lead': string)
    ensures Level(st, lead) == Some(lead') <==> Leveled(st, lead, lead')
    ensures Level(st, lead).Some? <==> Known(st.quote) && Known(st.file)
  {
    var qc, depth, base := Cols(st.quote), Deep(st, lead), Deep(st, st.oldBase);
    if depth < base { DropsIs(st.fileBase, Str(st.file), (base - depth + qc - 1) / qc, lead'); }
    hide Drops, Strip, Repeat, Str, IndentCols;
  }

  lemma ShiftIs(st: Style, lead: string, lead': string)
    ensures Shift(st, lead) == Some(lead') <==> Shifted(st, lead, lead')
    ensures Shift(st, lead).Some? <==> st.oldBase <= lead
  {
    if st.oldBase <= lead { assert lead == st.oldBase + lead[|st.oldBase|..]; }
    if Shifted(st, lead, lead') {
      var rest :| lead == st.oldBase + rest && lead' == st.fileBase + rest;
      assert lead[|st.oldBase|..] == rest;
    }
  }

  // ---------------------------------------------------------------------
  // The choice

  /** Every quoted line's indentation is to the file line's as the mapping says. */
  ghost predicate ShiftGivesFile(st: Style, quoted: seq<string>, file: seq<string>) {
    forall i :: 0 <= i < |quoted| && Comparable(quoted, file, i) ==> Shifted(st, Lead(quoted[i]), Lead(file[i]))
  }

  ghost predicate LevelGivesFile(st: Style, quoted: seq<string>, file: seq<string>) {
    forall i :: 0 <= i < |quoted| && Comparable(quoted, file, i) ==> Leveled(st, Lead(quoted[i]), Lead(file[i]))
  }

  lemma FitsIs(st: Style, quoted: seq<string>, file: seq<string>)
    ensures Fits(ByShift, st, quoted, file) <==> ShiftGivesFile(st, quoted, file)
    ensures Fits(ByLevel, st, quoted, file) <==> LevelGivesFile(st, quoted, file)
  {
    hide Level, Shift, Shifted, Leveled, Lead, Blank;
    forall i | 0 <= i < |quoted| && Comparable(quoted, file, i)
      ensures Shift(st, Lead(quoted[i])) == Some(Lead(file[i])) <==> Shifted(st, Lead(quoted[i]), Lead(file[i]))
      ensures Level(st, Lead(quoted[i])) == Some(Lead(file[i])) <==> Leveled(st, Lead(quoted[i]), Lead(file[i]))
    {
      ShiftIs(st, Lead(quoted[i]), Lead(file[i]));
      LevelIs(st, Lead(quoted[i]), Lead(file[i]));
    }
  }

  /** The line gets the leveled indentation. */
  ghost predicate LineLeveled(st: Style, l: string, l': string) {
    SameText(l, l') && (!Blank(l) ==> Leveled(st, Lead(l), Lead(l')))
  }

  /** The line gets the shifted indentation; one that does not begin with old_string's base
      the leveled one, or it stays. */
  ghost predicate LineShifted(st: Style, l: string, l': string) {
    && SameText(l, l')
    && (!Blank(l) ==>
          if st.oldBase <= Lead(l) then Shifted(st, Lead(l), Lead(l'))
          else if Known(st.quote) && Known(st.file) then Leveled(st, Lead(l), Lead(l'))
          else l' == l)
  }

  lemma MappedLine(how: Mapping, st: Style, l: string)
    requires IsIndent(st.fileBase)
    requires how.ByLevel? ==> Known(st.quote) && Known(st.file)
    ensures if how.ByLevel? then LineLeveled(st, l, MapLine(how, st, l)) else LineShifted(st, l, MapLine(how, st, l))
  {
    var l', lead := MapLine(how, st, l), Lead(l);
    MapLineKeeps(how, st, l);
    if !Blank(l) {
      LeadIs(l);
      LevelIndent(st, lead);
      LevelIs(st, lead, if Level(st, lead).Some? then Level(st, lead).value else "");
      ShiftIs(st, lead, if Shift(st, lead).Some? then Shift(st, lead).value else "");
      hide Level, Shifted, Leveled, Lead, Blank, SameText, Relead;
      if Map(how, st, lead).Some? {
        if how.ByShift? { ShiftIndents(st, l); }
        ReleadIs(l, Map(how, st, lead).value);
      } else if Level(st, lead).Some? {
        ReleadIs(l, Level(st, lead).value);
      }
    }
  }

  lemma ShiftIndents(st: Style, l: string)
    requires IsIndent(st.fileBase)
    ensures Shift(st, Lead(l)).Some? ==> IsIndent(Shift(st, Lead(l)).value)
  {
    LeadIs(l);
  }

  /** What becomes of new_string: without a line to compare it stays; else, with the first such
      lines' indentations as the bases, quote and file of different styles are leveled if that
      gives the file's indentations, else shifted if that does, else leveled if that does;
      where neither does the lines are aligned, and shifted only where nothing is. */
  ghost predicate Chosen(lines: seq<string>, quoted: seq<string>, file: seq<string>, st: Style, out: seq<string>) {
    && |out| == |lines|
    && if Known(st.quote) && Known(st.file) && st.quote.tab != st.file.tab && LevelGivesFile(st, quoted, file) then
         AllLeveled(st, lines, out)
       else if ShiftGivesFile(st, quoted, file) then
         if st.oldBase == st.fileBase then out == lines else AllShifted(st, lines, out)
       else if LevelGivesFile(st, quoted, file) then AllLeveled(st, lines, out)
       else if Alignment(lines, quoted, file).Some? then
         var m := Alignment(lines, quoted, file).value;
         forall i :: 0 <= i < |lines| && i in m && !Blank(lines[i]) ==> Lead(out[i]) == Lead(file[m[i]])
       else AllShifted(st, lines, out)
  }

  ghost predicate AllLeveled(st: Style, lines: seq<string>, out: seq<string>) {
    |out| == |lines| && forall i :: 0 <= i < |lines| ==> LineLeveled(st, lines[i], out[i])
  }

  ghost predicate AllShifted(st: Style, lines: seq<string>, out: seq<string>) {
    |out| == |lines| && forall i :: 0 <= i < |lines| ==> LineShifted(st, lines[i], out[i])
  }

  lemma AllMapped(how: Mapping, st: Style, lines: seq<string>)
    requires IsIndent(st.fileBase)
    requires how.ByLevel? ==> Known(st.quote) && Known(st.file)
    ensures if how.ByLevel? then AllLeveled(st, lines, MapLines(how, st, lines))
            else AllShifted(st, lines, MapLines(how, st, lines))
  {
    hide MapLine, LineLeveled, LineShifted;
    forall i | 0 <= i < |lines|
      ensures if how.ByLevel? then LineLeveled(st, lines[i], MapLine(how, st, lines[i]))
              else LineShifted(st, lines[i], MapLine(how, st, lines[i]))
    {
      MappedLine(how, st, lines[i]);
    }
  }

  lemma LevelKnown(st: Style, quoted: seq<string>, file: seq<string>, base: nat)
    requires LevelGivesFile(st, quoted, file) && base < |quoted| && Comparable(quoted, file, base)
    ensures Known(st.quote) && Known(st.file)
  {
    assert Leveled(st, Lead(quoted[base]), Lead(file[base]));
  }

  lemma PlanChooses(lines: seq<string>, quoted: seq<string>, file: seq<string>, st: Style, base: nat)
    requires IsIndent(st.fileBase) && base < |quoted| && Comparable(quoted, file, base)
    ensures Chosen(lines, quoted, file, st, Apply(PlanFor(lines, quoted, file, st), lines, file, st))
  {
    FitsIs(st, quoted, file);
    if LevelGivesFile(st, quoted, file) {
      LevelKnown(st, quoted, file, base);
      AllMapped(ByLevel, st, lines);
    }
    AllMapped(ByShift, st, lines);
    if Alignment(lines, quoted, file).Some? { AlignedLines(lines, quoted, file, st); }
    hide Fits, LevelGivesFile, ShiftGivesFile, AllLeveled, AllShifted, MapLines, PerLine, Alignment, Lead, Blank, InRange,
      Comparable, IsIndent;
  }

  lemma ReindentChooses(lines: seq<string>, quoted: seq<string>, file: seq<string>, quote: Unit, fileUnit: Unit)
    ensures var out, base := ReindentLines(lines, quoted, file, quote, fileUnit), Base(quoted, file, 0);
            && (base.None? ==> out == lines)
            && (base.Some? ==>
                  && (forall j :: 0 <= j < base.value ==> !Comparable(quoted, file, j))
                  && Chosen(lines, quoted, file, Style(quote, fileUnit, Lead(quoted[base.value]), Lead(file[base.value])), out))
  {
    BaseIsFirst(quoted, file, 0);
    var base := Base(quoted, file, 0);
    if base.Some? {
      LeadIs(file[base.value]);
      PlanChooses(lines, quoted, file, StyleOf(quoted, file, base.value, quote, fileUnit), base.value);
    }
    hide Chosen, PlanFor, Apply, Lead, Blank;
  }

  lemma {:induction false} BaseIsFirst(quoted: seq<string>, file: seq<string>, i: nat)
    requires i <= |quoted|
    ensures Base(quoted, file, i).Some? ==> forall j :: i <= j < Base(quoted, file, i).value ==> !Comparable(quoted, file, j)
    decreases |quoted| - i
  {
    if i < |quoted| && !Comparable(quoted, file, i) { BaseIsFirst(quoted, file, i + 1); }
  }

  lemma AlignedLines(lines: seq<string>, quoted: seq<string>, file: seq<string>, st: Style)
    requires Alignment(lines, quoted, file).Some?
    ensures var m, unit := Alignment(lines, quoted, file).value, if Known(st.file) then st.file else st.quote;
            var out := PerLine(lines, file, m, st.quote, unit);
            |out| == |lines| && forall i :: 0 <= i < |lines| && i in m && !Blank(lines[i]) ==> Lead(out[i]) == Lead(file[m[i]])
  {
    hide Alignment, Lead, Blank, Relead;
    var m, unit := Alignment(lines, quoted, file).value, if Known(st.file) then st.file else st.quote;
    forall i | 0 <= i < |lines| && i in m && !Blank(lines[i])
      ensures Lead(Relead(lines[i], Lead(file[m[i]]))) == Lead(file[m[i]])
    {
      LeadIs(file[m[i]]);
      ReleadIs(lines[i], Lead(file[m[i]]));
    }
  }
}
