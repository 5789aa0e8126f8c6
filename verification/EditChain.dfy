/** The chain of matching tiers (internal/agent/fuzzy_edit.go, applyEdit, run and
    runChain): the first tier that finds anything decides, also that it is ambiguous. */
module EditChain {
  import opened Wrappers
  import opened EditSpans
  import opened LineEndings

  /** A tier: what it finds for a text, an old and a new string.  A unique tier never
      writes more than one place. */
  datatype Tier = Tier(number: nat, unique: bool, find: (string, string, string) -> seq<Span>)

  /** The loosest tier for an old_string whose line-number prefixes were stripped. */
  const STRIPPED_MAX_TIER: nat := 4

  predicate InBounds(text: string, spans: seq<Span>) {
    forall i :: 0 <= i < |spans| ==> spans[i].start <= spans[i].end <= |text|
  }

  /** What the tiers owe: spans in order where several may be written, and in bounds
      anyway. */
  ghost predicate Honest(tiers: seq<Tier>) {
    forall i, text, o, n :: 0 <= i < |tiers| ==> Finds(tiers[i], text, o, n)
  }

  predicate Finds(t: Tier, text: string, o: string, n: string) {
    if t.unique then InBounds(text, t.find(text, o, n)) else InOrder(text, t.find(text, o, n), 0)
  }

  /** The first tier up to `max` that finds anything. */
  function FirstTier(tiers: seq<Tier>, max: nat, text: string, o: string, n: string): (r: Option<nat>)
    ensures r.Some? ==> r.value < |tiers| && tiers[r.value].find(text, o, n) != []
  {
    if tiers == [] || tiers[0].number > max then None
    else if tiers[0].find(text, o, n) != [] then Some(0)
    else
      var r := FirstTier(tiers[1..], max, text, o, n);
      if r.None? then None else Some(r.value + 1)
  }

  /** No tier before it finds anything. */
  lemma {:induction false} EarlierTiersFindNothing(tiers: seq<Tier>, max: nat, text: string, o: string, n: string, j: nat)
    requires FirstTier(tiers, max, text, o, n).Some? && j < FirstTier(tiers, max, text, o, n).value
    ensures tiers[j].find(text, o, n) == []
  {
    if j > 0 { EarlierTiersFindNothing(tiers[1..], max, text, o, n, j - 1); }
  }

  lemma TierWritable(t: Tier, text: string, o: string, n: string, replaceAll: bool, hint: nat, lineNo: nat -> int)
    requires Finds(t, text, o, n) && (t.unique ==> hint == 0)
    ensures Writable(text, t.find(text, o, n), replaceAll && !t.unique, hint, lineNo)
  {
    var spans := t.find(text, o, n);
    if t.unique {
      if |spans| == 1 { assert spans[1..] == []; }
    } else {
      ChosenInOrder(text, spans, 0, hint, lineNo, spans);
    }
  }

  /** What the tier makes of the text. */
  function TierOutcome(t: Tier, text: string, o: string, n: string, replaceAll: bool, hint: nat, lineNo: nat -> int): Outcome
    requires Finds(t, text, o, n) && (t.unique ==> hint == 0)
  {
    TierWritable(t, text, o, n, replaceAll, hint, lineNo);
    Applied(text, t.find(text, o, n), replaceAll && !t.unique, hint, lineNo)
  }

  /** A unique tier changes one place or none, whatever the call asks for. */
  lemma UniqueTierWritesOnce(t: Tier, text: string, o: string, n: string, replaceAll: bool, lineNo: nat -> int)
    requires Finds(t, text, o, n) && t.unique && t.find(text, o, n) != []
    ensures var r := TierOutcome(t, text, o, n, replaceAll, 0, lineNo);
            (r.Ambiguous? <==> |t.find(text, o, n)| > 1) && (r.Edited? ==> r.count == 1)
  {
  }

  /** A hint is given only where no tier is unique. */
  predicate HintFits(tiers: seq<Tier>, max: nat, hint: nat) {
    forall i :: 0 <= i < |tiers| && tiers[i].unique && tiers[i].number <= max ==> hint == 0
  }

  lemma {:induction false} FirstTierNumber(tiers: seq<Tier>, max: nat, text: string, o: string, n: string)
    requires FirstTier(tiers, max, text, o, n).Some?
    ensures tiers[FirstTier(tiers, max, text, o, n).value].number <= max
  {
    if tiers[0].find(text, o, n) == [] { FirstTierNumber(tiers[1..], max, text, o, n); }
  }

  /** What the chain makes of the text, if a tier finds anything. */
  function ChainOutcome(tiers: seq<Tier>, max: nat, text: string, o: string, n: string, replaceAll: bool, hint: nat,
                        lineNo: nat -> int): Option<Outcome>
    requires Honest(tiers) && HintFits(tiers, max, hint)
  {
    var k := FirstTier(tiers, max, text, o, n);
    if k.None? then None
    else
      FirstTierNumber(tiers, max, text, o, n);
      assert Finds(tiers[k.value], text, o, n);
      Some(TierOutcome(tiers[k.value], text, o, n, replaceAll, hint, lineNo))
  }

  method RunChain(tiers: seq<Tier>, max: nat, text: string, o: string, n: string, replaceAll: bool, hint: nat,
        lineNo: nat -> int)
      returns (r: Option<Outcome>)
    requires Honest(tiers) && HintFits(tiers, max, hint)
    ensures r == ChainOutcome(tiers, max, text, o, n, replaceAll, hint, lineNo)
  {
    hide Finds, TierOutcome, Writable, Applied;
    for i := 0 to |tiers|
      invariant FirstTier(tiers, max, text, o, n) ==
                var rest := FirstTier(tiers[i..], max, text, o, n); if rest.None? then None else Some(rest.value + i)
    {
      assert tiers[i..][1..] == tiers[i + 1..];
      var s := tiers[i];
      if s.number > max { return None; }
      var spans := s.find(text, o, n);
      if |spans| == 0 { continue; }
      assert Finds(s, text, o, n);
      r := ApplyTier(s, text, o, n, replaceAll, hint, lineNo);
      return;
    }
    return None;
  }

  method ApplyTier(s: Tier, text: string, o: string, n: string, replaceAll: bool, hint: nat, lineNo: nat -> int)
      returns (r: Option<Outcome>)
    requires Finds(s, text, o, n) && (s.unique ==> hint == 0)
    ensures r == Some(TierOutcome(s, text, o, n, replaceAll, hint, lineNo))
  {
    TierWritable(s, text, o, n, replaceAll, hint, lineNo);
    hide Finds, Writable, Applied;
    var outcome := Apply(text, s.find(text, o, n), replaceAll && !s.unique, hint, lineNo);
    return Some(outcome);
  }

  // ---------------------------------------------------------------------
  // One edit

  datatype EditResult = Success(content: string, count: nat) | NotFound | Ambiguous | EmptyOld

  /** old and new without the line-number prefixes they were copied with, and the first
      number. */
  datatype Stripped = Stripped(oldStr: string, newStr: string, first: nat)

  /** Tiers in the order of their numbers, the unique ones behind the strict ones. */
  predicate Ranked(tiers: seq<Tier>) {
    && (forall i, j :: 0 <= i < j < |tiers| ==> tiers[i].number <= tiers[j].number)
    && (forall i :: 0 <= i < |tiers| && tiers[i].unique ==> tiers[i].number > STRIPPED_MAX_TIER)
  }

  /** The chain on the strings as given, then, if nothing was found, on the stripped ones
      with the strict tiers. */
  function Found(tiers: seq<Tier>, text: string, o: string, n: string, replaceAll: bool, trust: bool,
                 strip: (string, string) -> Option<Stripped>, lineNo: nat -> int): Option<Outcome>
    requires Honest(tiers) && Ranked(tiers)
  {
    var max := if tiers == [] then 0 else tiers[|tiers| - 1].number;
    var first := ChainOutcome(tiers, max, text, o, n, replaceAll, 0, lineNo);
    if first.Some? then first
    else
      var s := strip(o, n);
      if s.None? then None
      else
        var hint := if trust then s.value.first else 0;
        ChainOutcome(tiers, STRIPPED_MAX_TIER, text, s.value.oldStr, s.value.newStr, replaceAll, hint, lineNo)
  }

  /** The content and the result are the same mark and the same gaps, byte for byte, around
      what was in the spans and around what is written there. */
  ghost predicate ChangesOnly(content: string, spans: seq<Span>, result: string) {
    var p := Prepare(content);
    && InOrder(p.text, spans, 0)
    && var gaps := Bytes(p, Gaps(p.text, spans, 0));
       && content == p.bom + Weave(gaps, Bytes(p, Olds(p.text, spans, 0)))
       && result == p.bom + Weave(gaps, Bytes(p, Repls(spans)))
  }

  /** The spans are of those that tier `k` finds for these strings: all of them, where
      every occurrence is meant, or the only one, or the one on the hinted line. */
  predicate FoundBy(tiers: seq<Tier>, k: nat, text: string, o: string, n: string, replaceAll: bool, spans: seq<Span>) {
    && k < |tiers|
    && var found := tiers[k].find(text, o, n);
       if |found| > 1 && replaceAll && !tiers[k].unique then spans == found
       else |spans| == 1 && spans[0] in found
  }

  lemma {:induction false} FirstOnLineIsOne(spans: seq<Span>, hint: nat, lineNo: nat -> int, all: seq<Span>)
    ensures var r := FirstOnLine(spans, hint, lineNo, all); r == all || (|r| == 1 && r[0] in spans)
  {
    if spans != [] { FirstOnLineIsOne(spans[1..], hint, lineNo, all); }
  }

  /** What an outcome of the chain writes. */
  ghost predicate Writes(tiers: seq<Tier>, text: string, o: string, n: string, replaceAll: bool, r: Outcome, k: nat,
        spans: seq<Span>) {
    && FoundBy(tiers, k, text, o, n, replaceAll, spans) && InOrder(text, spans, 0)
    && r == Edited(Splice(text, spans, 0), |spans|)
  }

  /** Whatever the chain edits, it writes spans that one of its tiers found. */
  lemma ChainWrites(tiers: seq<Tier>, max: nat, text: string, o: string, n: string, replaceAll: bool, hint: nat,
        lineNo: nat -> int)
      returns (k: nat, spans: seq<Span>)
    requires Honest(tiers) && HintFits(tiers, max, hint)
    requires var r := ChainOutcome(tiers, max, text, o, n, replaceAll, hint, lineNo); r.Some? && r.value.Edited?
    ensures Writes(tiers, text, o, n, replaceAll,
                   ChainOutcome(tiers, max, text, o, n, replaceAll, hint, lineNo).value, k, spans)
  {
    hide InOrder, Splice;
    k := FirstTier(tiers, max, text, o, n).value;
    FirstTierNumber(tiers, max, text, o, n);
    var t := tiers[k];
    var found := t.find(text, o, n);
    assert Finds(t, text, o, n);
    TierWritable(t, text, o, n, replaceAll, hint, lineNo);
    spans := Chosen(found, replaceAll && !t.unique, hint, lineNo);
    FirstOnLineIsOne(found, hint, lineNo, found);
  }

  /** Nothing found by either form means that no tier finds the strings as given. */
  lemma {:induction false} NoTierFinds(tiers: seq<Tier>, max: nat, text: string, o: string, n: string)
    requires FirstTier(tiers, max, text, o, n).None?
    requires forall i :: 0 <= i < |tiers| ==> tiers[i].number <= max
    ensures forall i :: 0 <= i < |tiers| ==> tiers[i].find(text, o, n) == []
  {
    if tiers != [] {
      NoTierFinds(tiers[1..], max, text, o, n);
      forall i | 1 <= i < |tiers| ensures tiers[i].find(text, o, n) == [] { assert tiers[i] == tiers[1..][i - 1]; }
    }
  }

  /** What one edit of a file comes to: the chain's outcome on the prepared text, restored. */
  function EditOf(tiers: seq<Tier>, content: string, oldStr: string, newStr: string, replaceAll: bool, trust: bool,
                  strip: (string, string) -> Option<Stripped>, lineNo: nat -> int): EditResult
    requires Honest(tiers) && Ranked(tiers)
  {
    if oldStr == "" then EmptyOld
    else
      var p := Prepare(content);
      var found := Found(tiers, p.text, Normalized(p, oldStr), Normalized(p, newStr), replaceAll, trust, strip, lineNo);
      if found.None? then NotFound
      else if found.value.Ambiguous? then EditResult.Ambiguous
      else Success(Restore(p, found.value.content), found.value.count)
  }

  /** Tier `k` finds the spans for the strings as given, or for them without the line-number
      prefixes they were copied with. */
  predicate FoundFor(tiers: seq<Tier>, k: nat, content: string, oldStr: string, newStr: string, replaceAll: bool,
                     strip: (string, string) -> Option<Stripped>, spans: seq<Span>) {
    var p := Prepare(content);
    var o, n := Normalized(p, oldStr), Normalized(p, newStr);
    || FoundBy(tiers, k, p.text, o, n, replaceAll, spans)
    || (strip(o, n).Some? &&
        var s := strip(o, n).value; FoundBy(tiers, k, p.text, s.oldStr, s.newStr, replaceAll, spans))
  }

  /** No tier finds the strings as given. */
  predicate FoundByNone(tiers: seq<Tier>, content: string, oldStr: string, newStr: string) {
    var p := Prepare(content);
    forall i :: 0 <= i < |tiers| ==> tiers[i].find(p.text, Normalized(p, oldStr), Normalized(p, newStr)) == []
  }

  /** A success changes only spans that a tier found and leaves every other byte where it
      was between them; an edit is not found only if no tier finds the strings as given. */
  lemma EditChangesFoundSpans(tiers: seq<Tier>, content: string, oldStr: string, newStr: string, replaceAll: bool, trust: bool,
                              strip: (string, string) -> Option<Stripped>, lineNo: nat -> int)
      returns (k: nat, spans: seq<Span>)
    requires Honest(tiers) && Ranked(tiers)
    ensures var r := EditOf(tiers, content, oldStr, newStr, replaceAll, trust, strip, lineNo);
            && (r.EmptyOld? <==> oldStr == "")
            && (r.Success? ==> ChangesOnly(content, spans, r.content) && r.count == |spans|)
            && (r.Success? ==> FoundFor(tiers, k, content, oldStr, newStr, replaceAll, strip, spans))
            && (r.NotFound? ==> FoundByNone(tiers, content, oldStr, newStr))
  {
    hide ChainOutcome, Prepare, Restore, Honest, Ranked, FoundBy, ChangesOnly, Found, ToLF;
    k, spans := 0, [];
    if oldStr == "" { return; }
    var p := Prepare(content);
    var o, n := Normalized(p, oldStr), Normalized(p, newStr);
    var max := if tiers == [] then 0 else tiers[|tiers| - 1].number;
    RankedMeans(tiers);
    FoundIs(tiers, p.text, o, n, replaceAll, trust, strip, lineNo);
    var usedOld, usedNew, hint := o, n, 0;
    var outcome := ChainOutcome(tiers, max, p.text, o, n, replaceAll, 0, lineNo);
    if outcome.None? {
      ChainFindsNothing(tiers, max, p.text, o, n, replaceAll, lineNo);
      if strip(o, n).None? { return; }
      var s := strip(o, n).value;
      usedOld, usedNew, max, hint := s.oldStr, s.newStr, STRIPPED_MAX_TIER, if trust then s.first else 0;
      outcome := ChainOutcome(tiers, max, p.text, usedOld, usedNew, replaceAll, hint, lineNo);
    }
    if outcome.Some? && outcome.value.Edited? {
      k, spans := ChainWrites(tiers, max, p.text, usedOld, usedNew, replaceAll, hint, lineNo);
      WritesKeep(content, tiers, usedOld, usedNew, replaceAll, outcome.value, k, spans);
    }
  }

  // ---------------------------------------------------------------------
  // When an edit succeeds

  /** Tier `k` is the first one up to rank `max` that finds anything. */
  predicate FindsFirst(tiers: seq<Tier>, k: nat, max: nat, text: string, o: string, n: string) {
    && k < |tiers| && tiers[k].number <= max && tiers[k].find(text, o, n) != []
    && forall j :: 0 <= j < k ==> tiers[j].find(text, o, n) == []
  }

  predicate FindNothing(tiers: seq<Tier>, max: nat, text: string, o: string, n: string) {
    forall j :: 0 <= j < |tiers| && tiers[j].number <= max ==> tiers[j].find(text, o, n) == []
  }

  lemma {:induction false} FirstTierIff(tiers: seq<Tier>, max: nat, text: string, o: string, n: string)
    requires Ranked(tiers)
    ensures var r := FirstTier(tiers, max, text, o, n);
            && (r.None? <==> FindNothing(tiers, max, text, o, n))
            && (forall k: nat :: FindsFirst(tiers, k, max, text, o, n) ==> r == Some(k))
            && (r.Some? ==> FindsFirst(tiers, r.value, max, text, o, n))
  {
    if tiers != [] {
      var rest := tiers[1..];
      assert Ranked(rest);
      FirstTierIff(rest, max, text, o, n);
      assert forall j :: 1 <= j < |tiers| ==> tiers[j] == rest[j - 1];
      assert forall j :: 0 <= j < |rest| ==> rest[j] == tiers[j + 1];
      if tiers[0].number <= max && tiers[0].find(text, o, n) == [] {
        forall k: nat | FindsFirst(tiers, k, max, text, o, n) ensures k > 0 && FindsFirst(rest, k - 1, max, text, o, n) {}
      }
    }
  }

  /** The edit writes exactly these spans. */
  ghost predicate Written(content: string, spans: seq<Span>, r: EditResult) {
    r.Success? && r.count == |spans| && ChangesOnly(content, spans, r.content)
  }

  /** What an edit comes to when these spans are found: a single one is written, and so are
      several when `all` are meant; else the first on the hinted line, if there is one; else
      the edit is ambiguous. */
  ghost predicate Verdict(content: string, found: seq<Span>, all: bool, hint: nat, lineNo: nat -> int, r: EditResult) {
    if |found| == 1 || all then Written(content, found, r)
    else if hint == 0 || NoneOn(found, hint, lineNo) then r.Ambiguous?
    else forall i: nat :: FirstOn(found, i, hint, lineNo) ==> Written(content, [found[i]], r)
  }

  /** The whole decision: the first tier that finds the strings as given decides; if none
      does, the first strict tier that finds them without their prefixes, with the hint of
      the first prefix; if none does either, the edit is not found. */
  ghost predicate Decided(tiers: seq<Tier>, content: string, oldStr: string, newStr: string, replaceAll: bool, trust: bool,
                          strip: (string, string) -> Option<Stripped>, lineNo: nat -> int, r: EditResult) {
    var text := Prepare(content).text;
    var o, n := Normalized(Prepare(content), oldStr), Normalized(Prepare(content), newStr);
    var max := if tiers == [] then 0 else tiers[|tiers| - 1].number;
    if oldStr == "" then r.EmptyOld?
    else if !FindNothing(tiers, max, text, o, n) then
      forall k: nat :: FindsFirst(tiers, k, max, text, o, n) ==>
        Verdict(content, tiers[k].find(text, o, n), replaceAll && !tiers[k].unique, 0, lineNo, r)
    else
      var s := strip(o, n);
      if s.None? || FindNothing(tiers, STRIPPED_MAX_TIER, text, s.value.oldStr, s.value.newStr) then r.NotFound?
      else
        forall k: nat :: FindsFirst(tiers, k, STRIPPED_MAX_TIER, text, s.value.oldStr, s.value.newStr) ==>
          Verdict(content, tiers[k].find(text, s.value.oldStr, s.value.newStr), replaceAll, if trust then s.value.first else 0,
                  lineNo, r)
  }

  lemma TierIsDecided(content: string, t: Tier, o: string, n: string, replaceAll: bool, hint: nat, lineNo: nat -> int)
    requires Finds(t, Prepare(content).text, o, n) && (t.unique ==> hint == 0) && t.find(Prepare(content).text, o, n) != []
    ensures var r := TierOutcome(t, Prepare(content).text, o, n, replaceAll, hint, lineNo);
            Verdict(content, t.find(Prepare(content).text, o, n), replaceAll && !t.unique, hint, lineNo,
                    ResultOf(Prepare(content), r))
  {
    hide Prepare, Restore, InOrder, Splice, Finds, Applied, FirstOn, NoneOn, Writable, Gaps, Olds, Repls, Weave, Bytes;
    var text := Prepare(content).text;
    var found, all := t.find(text, o, n), replaceAll && !t.unique;
    TierWritable(t, text, o, n, replaceAll, hint, lineNo);
    AppliedIs(text, found, all, hint, lineNo);
    if |found| == 1 || all {
      FileKeepsItsBytes(content, found);
    } else if hint > 0 && !NoneOn(found, hint, lineNo) {
      forall i: nat | FirstOn(found, i, hint, lineNo) && i < |found| ensures ChangesOnly(content, [found[i]],
                                                                    Restore(Prepare(content), Splice(text, [found[i]], 0))) {
        FileKeepsItsBytes(content, [found[i]]);
      }
      SomeOn(found, hint, lineNo);
    }
  }

  /** The result of the whole edit is the one decided, for every chain that keeps what is
      asked of it. */
  lemma EditIsDecided(tiers: seq<Tier>, content: string, oldStr: string, newStr: string, replaceAll: bool, trust: bool,
                      strip: (string, string) -> Option<Stripped>, lineNo: nat -> int)
    requires Honest(tiers) && Ranked(tiers)
    ensures Decided(tiers, content, oldStr, newStr, replaceAll, trust, strip, lineNo,
                    EditOf(tiers, content, oldStr, newStr, replaceAll, trust, strip, lineNo))
  {
    hide Prepare, Normalized, Restore, Ranked, Verdict, FirstTier, TierOutcome, FindsFirst, FindNothing, Finds, Found;
    if oldStr != "" {
      var p := Prepare(content);
      var o, n := Normalized(p, oldStr), Normalized(p, newStr);
      var max := if tiers == [] then 0 else tiers[|tiers| - 1].number;
      FoundIs(tiers, p.text, o, n, replaceAll, trust, strip, lineNo);
      ChainIsDecided(tiers, max, content, o, n, replaceAll, 0, lineNo);
      if FindNothing(tiers, max, p.text, o, n) && strip(o, n).Some? {
        var s := strip(o, n).value;
        ChainIsDecided(tiers, STRIPPED_MAX_TIER, content, s.oldStr, s.newStr, replaceAll, if trust then s.first else 0, lineNo);
        StrictAreNotUnique(tiers, p.text, s.oldStr, s.newStr);
      }
    }
  }

  lemma StrictAreNotUnique(tiers: seq<Tier>, text: string, o: string, n: string)
    requires Ranked(tiers)
    ensures forall k: nat :: FindsFirst(tiers, k, STRIPPED_MAX_TIER, text, o, n) ==> k < |tiers| && !tiers[k].unique
  {
  }

  function ResultOf(p: Prepared, r: Outcome): EditResult {
    if r.Ambiguous? then EditResult.Ambiguous else Success(Restore(p, r.content), r.count)
  }

  lemma ChainIsDecided(tiers: seq<Tier>, max: nat, content: string, o: string, n: string, replaceAll: bool, hint: nat,
                       lineNo: nat -> int)
    requires Honest(tiers) && Ranked(tiers) && HintFits(tiers, max, hint)
    ensures var r := ChainOutcome(tiers, max, Prepare(content).text, o, n, replaceAll, hint, lineNo);
            && (r.None? <==> FindNothing(tiers, max, Prepare(content).text, o, n))
            && (r.Some? ==> forall k: nat :: FindsFirst(tiers, k, max, Prepare(content).text, o, n) ==>
                  k < |tiers| &&
                  Verdict(content, tiers[k].find(Prepare(content).text, o, n), replaceAll && !tiers[k].unique, hint, lineNo,
                          ResultOf(Prepare(content), r.value)))
  {
    hide Prepare, Ranked, Verdict, TierOutcome, FirstTier, FindNothing, Restore, Finds;
    var text := Prepare(content).text;
    FirstTierIff(tiers, max, text, o, n);
    var k := FirstTier(tiers, max, text, o, n);
    if k.Some? {
      FirstTierNumber(tiers, max, text, o, n);
      assert Finds(tiers[k.value], text, o, n);
      TierIsDecided(content, tiers[k.value], o, n, replaceAll, hint, lineNo);
    }
  }

  /** What is written is the text with the spans replaced, put back in the file's form. */
  lemma WrittenIs(content: string, spans: seq<Span>, r: EditResult)
    requires Written(content, spans, r)
    ensures InOrder(Prepare(content).text, spans, 0)
    ensures r == Success(Restore(Prepare(content), Splice(Prepare(content).text, spans, 0)), |spans|)
  {
    hide Prepare, Restore, Splice, InOrder, Weave, Gaps, Olds, Repls, Bytes;
    FileKeepsItsBytes(content, spans);
  }

  lemma FirstDecides(tiers: seq<Tier>, k: nat, content: string, oldStr: string, newStr: string, replaceAll: bool, trust: bool,
                     strip: (string, string) -> Option<Stripped>, lineNo: nat -> int, r: EditResult)
    requires Decided(tiers, content, oldStr, newStr, replaceAll, trust, strip, lineNo, r) && oldStr != "" && tiers != []
    requires var p := Prepare(content);
             FindsFirst(tiers, k, tiers[|tiers| - 1].number, p.text, Normalized(p, oldStr), Normalized(p, newStr))
    ensures var p := Prepare(content);
            Verdict(content, tiers[k].find(p.text, Normalized(p, oldStr), Normalized(p, newStr)),
                    replaceAll && !tiers[k].unique, 0, lineNo, r)
  {
    hide Prepare, Normalized, Verdict;
  }

  /** Without a hint: the single span is written, several only when all are meant. */
  lemma VerdictIs(content: string, found: seq<Span>, all: bool, lineNo: nat -> int, r: EditResult)
    requires Verdict(content, found, all, 0, lineNo, r)
    ensures if |found| == 1 || all
            then InOrder(Prepare(content).text, found, 0) &&
                 r == Success(Restore(Prepare(content), Splice(Prepare(content).text, found, 0)), |found|)
            else r.Ambiguous?
  {
    hide Prepare, Restore, Splice, InOrder, Written;
    if |found| == 1 || all { WrittenIs(content, found, r); }
  }

  lemma SomeOn(found: seq<Span>, hint: nat, lineNo: nat -> int)
    requires !NoneOn(found, hint, lineNo)
    ensures exists i: nat :: FirstOn(found, i, hint, lineNo)
    ensures forall i: nat :: FirstOn(found, i, hint, lineNo) ==> i < |found|
  {
    FirstOnLineIs(found, hint, lineNo, found);
  }

  /** One edit of a file: a success changes only spans that a tier found, for the strings
      as given or without their prefixes, and leaves every other byte where it was between
      them; it is not found only if no tier finds the strings as given. */
  method ApplyEdit(content: string, oldStr: string, newStr: string, replaceAll: bool, trust: bool, tiers: seq<Tier>,
                   strip: (string, string) -> Option<Stripped>, lineNo: nat -> int)
      returns (r: EditResult, ghost k: nat, ghost spans: seq<Span>)
    requires Honest(tiers) && Ranked(tiers)
    ensures r == EditOf(tiers, content, oldStr, newStr, replaceAll, trust, strip, lineNo)
    ensures Decided(tiers, content, oldStr, newStr, replaceAll, trust, strip, lineNo, r)
    ensures r.EmptyOld? <==> oldStr == ""
    ensures r.Success? ==> ChangesOnly(content, spans, r.content) && r.count == |spans|
    ensures r.Success? ==> FoundFor(tiers, k, content, oldStr, newStr, replaceAll, strip, spans)
    ensures r.NotFound? ==> FoundByNone(tiers, content, oldStr, newStr)
  {
    k, spans := EditChangesFoundSpans(tiers, content, oldStr, newStr, replaceAll, trust, strip, lineNo);
    EditIsDecided(tiers, content, oldStr, newStr, replaceAll, trust, strip, lineNo);
    hide Decided, ChainOutcome, Prepare, Normalized, Restore, Honest, Ranked, FoundBy, FoundFor, FoundByNone, ChangesOnly,
      Found;
    if oldStr == "" { return EmptyOld, k, spans; }
    var p := Prepare(content);
    var o, n := Normalized(p, oldStr), Normalized(p, newStr);
    FoundIs(tiers, p.text, o, n, replaceAll, trust, strip, lineNo);
    var max := if tiers == [] then 0 else tiers[|tiers| - 1].number;
    var found := RunChain(tiers, max, p.text, o, n, replaceAll, 0, lineNo);
    if found.None? {
      var s := strip(o, n);
      if s.None? { return NotFound, k, spans; }
      var hint := if trust then s.value.first else 0;
      found := RunChain(tiers, STRIPPED_MAX_TIER, p.text, s.value.oldStr, s.value.newStr, replaceAll, hint, lineNo);
      if found.None? { return NotFound, k, spans; }
    }
    if found.value.Ambiguous? { return EditResult.Ambiguous, k, spans; }
    return Success(Restore(p, found.value.content), found.value.count), k, spans;
  }

  lemma RankedMeans(tiers: seq<Tier>)
    requires Ranked(tiers)
    ensures tiers != [] ==> forall i :: 0 <= i < |tiers| ==> tiers[i].number <= tiers[|tiers| - 1].number
  {
  }

  lemma FoundIs(tiers: seq<Tier>, text: string, o: string, n: string, replaceAll: bool, trust: bool,
                strip: (string, string) -> Option<Stripped>, lineNo: nat -> int)
    requires Honest(tiers) && Ranked(tiers)
    ensures var max := if tiers == [] then 0 else tiers[|tiers| - 1].number;
            HintFits(tiers, max, 0) && forall h :: HintFits(tiers, STRIPPED_MAX_TIER, h)
    ensures var max := if tiers == [] then 0 else tiers[|tiers| - 1].number;
            var first := ChainOutcome(tiers, max, text, o, n, replaceAll, 0, lineNo);
            Found(tiers, text, o, n, replaceAll, trust, strip, lineNo) ==
              if first.Some? then first
              else if strip(o, n).None? then None
              else var s := strip(o, n).value;
                   ChainOutcome(tiers, STRIPPED_MAX_TIER, text, s.oldStr, s.newStr, replaceAll,
                                if trust then s.first else 0, lineNo)
  {
    hide ChainOutcome, Honest;
  }

  lemma ChainFindsNothing(tiers: seq<Tier>, max: nat, text: string, o: string, n: string, replaceAll: bool, lineNo: nat -> int)
    requires Honest(tiers) && HintFits(tiers, max, 0)
    requires ChainOutcome(tiers, max, text, o, n, replaceAll, 0, lineNo).None?
    requires forall i :: 0 <= i < |tiers| ==> tiers[i].number <= max
    ensures forall i :: 0 <= i < |tiers| ==> tiers[i].find(text, o, n) == []
  {
    hide Honest, TierOutcome;
    NoTierFinds(tiers, max, text, o, n);
  }

  lemma WritesKeep(content: string, tiers: seq<Tier>, o: string, n: string, replaceAll: bool, r: Outcome, k: nat,
        spans: seq<Span>)
    requires Writes(tiers, Prepare(content).text, o, n, replaceAll, r, k, spans)
    ensures r.Edited? && r.count == |spans| && FoundBy(tiers, k, Prepare(content).text, o, n, replaceAll, spans)
    ensures ChangesOnly(content, spans, Restore(Prepare(content), r.content))
  {
    hide Prepare, Bytes, Gaps, Olds, Repls, Weave, Restore, Splice, InOrder, FoundBy;
    FileKeepsItsBytes(content, spans);
  }
}
