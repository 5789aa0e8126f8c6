/** Matching behind typographic characters (internal/agent/fuzzy_edit.go,
    normalizeTypographicMap and findUnicodeNormalized): what is found in the normalized
    text maps back to whole characters of the file that normalize to the needle. */
module Typographic {
  import opened Strings
  import opened Wrappers
  import opened EditSpans
  import opened LineBlocks

  // ---------------------------------------------------------------------
  // UTF-8, byte by byte

  predicate In(c: char, lo: int, hi: int) { lo <= c as int <= hi }

  /** How many bytes utf8.DecodeRuneInString reads: 1 for an invalid sequence. */
  function RuneSize(s: string): (n: nat)
    requires s != ""
    ensures 1 <= n <= |s|
  {
    var b := s[0];
    if In(b, 0xC2, 0xDF) then (if Tail(s, 1, 0x80, 0xBF) then 2 else 1)
    else if In(b, 0xE0, 0xEF) then
      var lo := if b as int == 0xE0 then 0xA0 else 0x80;
      var hi := if b as int == 0xED then 0x9F else 0xBF;
      (if Tail(s, 1, lo, hi) && Tail(s, 2, 0x80, 0xBF) then 3 else 1)
    else if In(b, 0xF0, 0xF4) then
      var lo := if b as int == 0xF0 then 0x90 else 0x80;
      var hi := if b as int == 0xF4 then 0x8F else 0xBF;
      (if Tail(s, 1, lo, hi) && Tail(s, 2, 0x80, 0xBF) && Tail(s, 3, 0x80, 0xBF) then 4 else 1)
    else 1
  }

  predicate Tail(s: string, i: nat, lo: int, hi: int) { i < |s| && In(s[i], lo, hi) }

  /** A whole character reads the same with less text behind it. */
  lemma RuneIsLocal(s: string, j: nat)
    requires s != "" && RuneSize(s) <= j <= |s|
    ensures j > 0 && RuneSize(s[..j]) == RuneSize(s)
  {
  }

  /** The ASCII stand-in of a typographic character, given by its bytes. */
  function Ascii(rune: string): Option<string> {
    if |rune| == 2 && In(rune[0], 0xC2, 0xC2) && In(rune[1], 0xA0, 0xA0) then Some(" ")
    else if |rune| == 3 && In(rune[0], 0xE2, 0xE2) && In(rune[1], 0x80, 0x80) then General(rune[2])
    else if |rune| == 3 && In(rune[0], 0xE2, 0xE2) && In(rune[1], 0x88, 0x88) && In(rune[2], 0x92, 0x92) then Some("-")
    else None
  }

  /** U+2000 to U+203F by the last byte. */
  function General(c: char): Option<string> {
    if In(c, 0x98, 0x9B) || In(c, 0xB2, 0xB2) then Some("'")
    else if In(c, 0x9C, 0x9F) || In(c, 0xB3, 0xB3) then Some("\"")
    else if In(c, 0x90, 0x95) then Some("-")
    else if In(c, 0x87, 0x87) || In(c, 0x89, 0x8A) || In(c, 0xAF, 0xAF) then Some(" ")
    else if In(c, 0xA6, 0xA6) then Some("...")
    else None
  }

  /** What the first character of `s` becomes. */
  function Rep(s: string): (r: string)
    requires s != ""
    ensures r != ""
  {
    var rune := s[..RuneSize(s)];
    if Ascii(rune).Some? then Ascii(rune).value else rune
  }

  function Normalize(s: string): string {
    if s == "" then "" else Rep(s) + Normalize(s[RuneSize(s)..])
  }

  /** For each byte of what the text from `i` on becomes, and its end, the offset of the
      character it comes from. */
  function Offsets(s: string, i: nat): (r: seq<nat>)
    requires i <= |s|
    ensures |r| == |Normalize(s[i..])| + 1
    decreases |s| - i
  {
    if i == |s| then [|s|]
    else
      assert s[i..][RuneSize(s[i..])..] == s[i + RuneSize(s[i..])..];
      seq(|Rep(s[i..])|, _ => i) + Offsets(s, i + RuneSize(s[i..]))
  }

  /** Where the character after the one at `i` begins. */
  function Next(s: string, i: nat): (n: nat)
    requires i < |s|
    ensures i < n <= |s|
  {
    i + RuneSize(s[i..])
  }

  lemma NormalizeStep(u: string)
    requires u != ""
    ensures Normalize(u) == Rep(u) + Normalize(u[RuneSize(u)..])
  {
    hide Rep, RuneSize;
  }

  lemma OffsetsStep(s: string, i: nat)
    requires i < |s|
    ensures Offsets(s, i) == seq(|Rep(s[i..])|, _ => i) + Offsets(s, Next(s, i))
  {
    hide Rep, RuneSize, Normalize;
  }

  /** One character of the normalized text and of its offsets. */
  lemma OneCharacter(s: string, i: nat)
    requires i < |s|
    ensures Normalize(s[i..]) == Rep(s[i..]) + Normalize(s[Next(s, i)..])
    ensures Offsets(s, i) == seq(|Rep(s[i..])|, _ => i) + Offsets(s, Next(s, i))
  {
    hide Normalize, Offsets, Rep, RuneSize;
    OffsetsStep(s, i);
    NormalizeStep(s[i..]);
    assert s[i..][RuneSize(s[i..])..] == s[Next(s, i)..];
  }

  lemma AtEnd(s: string)
    ensures Normalize(s[|s|..]) == "" && Offsets(s, |s|) == [|s|]
  {
  }

  method NormalizeTypographicMap(s: string) returns (b: string, offs: seq<nat>)
    ensures b == Normalize(s) && offs == Offsets(s, 0)
  {
    hide *;
    b, offs := "", [];
    var i: nat := 0;
    assert s[0..] == s;
    while i < |s|
      invariant i <= |s| && b + Normalize(s[i..]) == Normalize(s) && offs + Offsets(s, i) == Offsets(s, 0)
    {
      OneCharacter(s, i);
      var rep := Rep(s[i..]);
      assert b + (rep + Normalize(s[Next(s, i)..])) == b + rep + Normalize(s[Next(s, i)..]);
      b := b + rep;
      offs := offs + seq(|rep|, _ => i);
      i := Next(s, i);
    }
    AtEnd(s);
    offs := offs + [|s|];
  }

  // ---------------------------------------------------------------------
  // Mapping back

  /** A position of the normalized text that is not the start of a character's stand-in. */
  predicate Inside(offs: seq<nat>, p: nat)
    requires p < |offs|
  {
    p > 0 && offs[p] == offs[p - 1]
  }

  lemma RepIsLocal(u: string, j: nat)
    requires u != "" && RuneSize(u) <= j <= |u|
    ensures j > 0 && RuneSize(u[..j]) == RuneSize(u) && Rep(u[..j]) == Rep(u)
  {
    RuneIsLocal(u, j);
    hide RuneSize, Ascii;
    assert u[..j][..RuneSize(u)] == u[..RuneSize(u)];
  }

  /** Cutting behind a character leaves it as it is. */
  lemma NormalizeFront(s: string, i: nat, j: nat)
    requires i < |s| && Next(s, i) <= j <= |s|
    ensures Normalize(s[i..j]) == Rep(s[i..]) + Normalize(s[Next(s, i)..j])
  {
    hide Normalize, Rep, RuneSize;
    assert s[i..][..j - i] == s[i..j];
    RepIsLocal(s[i..], j - i);
    NormalizeStep(s[i..j]);
    assert s[i..j][RuneSize(s[i..])..] == s[Next(s, i)..j];
  }

  /** A position beyond the first character's stand-in is one of the rest. */
  lemma BeyondFirst(i: nat, n: nat, rest: seq<nat>, p: nat)
    requires p < n + |rest| && n > 0 && rest != [] && rest[0] > i
    requires p > 0 && !Inside(seq(n, _ => i) + rest, p)
    ensures p >= n && !Inside(rest, p - n)
    ensures (seq(n, _ => i) + rest)[p] == rest[p - n] && (seq(n, _ => i) + rest)[p..] == rest[p - n..]
  {
    var offs := seq(n, _ => i) + rest;
    assert forall q :: 0 <= q < n ==> offs[q] == i;
    assert p > n ==> offs[p - 1] == rest[p - n - 1];
  }

  lemma FirstOffset(s: string, i: nat)
    requires i <= |s|
    ensures Offsets(s, i) != [] && Offsets(s, i)[0] == i
  {
    hide Rep, RuneSize;
    if i < |s| { OneCharacter(s, i); } else { AtEnd(s); }
  }

  /** Positions not inside lie on character borders: what is before one, and what is
      behind it, normalizes to what is before and behind its position. */
  lemma {:induction false} OnBorder(s: string, i: nat, p: nat)
    requires i <= |s| && p < |Offsets(s, i)| && !Inside(Offsets(s, i), p)
    ensures i <= Offsets(s, i)[p] <= |s|
    ensures Normalize(s[i..Offsets(s, i)[p]]) == Normalize(s[i..])[..p]
    ensures Normalize(s[Offsets(s, i)[p]..]) == Normalize(s[i..])[p..]
    ensures Offsets(s, Offsets(s, i)[p]) == Offsets(s, i)[p..]
    decreases |s| - i
  {
    hide *;
    var offs := Offsets(s, i);
    FirstOffset(s, i);
    if p == 0 {
      NormalizeNothing(s, i);
    } else if i == |s| {
      AtEnd(s);
    } else {
      var n, rep := Next(s, i), Rep(s[i..]);
      OneCharacter(s, i);
      FirstOffset(s, n);
      BeyondFirst(i, |rep|, Offsets(s, n), p);
      OnBorder(s, n, p - |rep|);
      NormalizeFront(s, i, offs[p]);
      assert (rep + Normalize(s[n..]))[..p] == rep + Normalize(s[n..])[..p - |rep|];
      assert (rep + Normalize(s[n..]))[p..] == Normalize(s[n..])[p - |rep|..];
    }
  }

  lemma NormalizeNothing(s: string, i: nat)
    requires i <= |s|
    ensures Normalize(s[i..i]) == "" == Normalize(s[i..])[..0]
  {
    hide Rep, RuneSize;
  }

  /** A stretch of the normalized text that begins and ends on borders comes from a
      stretch of the text that normalizes to exactly it. */
  lemma MapsBack(s: string, p: nat, q: nat)
    requires p <= q < |Offsets(s, 0)| && !Inside(Offsets(s, 0), p) && !Inside(Offsets(s, 0), q)
    ensures Offsets(s, 0)[p] <= Offsets(s, 0)[q] <= |s|
    ensures q <= |Normalize(s)| && Normalize(s[Offsets(s, 0)[p]..Offsets(s, 0)[q]]) == Normalize(s)[p..q]
  {
    hide *;
    var offs := Offsets(s, 0);
    assert s[0..] == s;
    OnBorder(s, 0, p);
    var i := offs[p];
    assert Offsets(s, i)[q - p] == offs[q];
    StillOutside(offs, p, q);
    OnBorder(s, i, q - p);
    assert Normalize(s)[p..][..q - p] == Normalize(s)[p..q];
  }

  lemma StillOutside(offs: seq<nat>, p: nat, q: nat)
    requires p <= q < |offs| && !Inside(offs, q)
    ensures !Inside(offs[p..], q - p)
  {
  }

  // ---------------------------------------------------------------------
  // The search

  /** An occurrence of the needle that cuts no character in two. */
  predicate Accepted(norm: string, offs: seq<nat>, needle: string, p: nat) {
    OccursAt(norm, needle, p) && p + |needle| < |offs| && !Inside(offs, p) && !Inside(offs, p + |needle|)
  }

  /** The same, as a test of positions. */
  function Accepts(content: string, oldStr: string): nat -> bool {
    (p: nat) => Accepted(Normalize(content), Offsets(content, 0), Normalize(oldStr), p)
  }

  function TypographicSpans(offs: seq<nat>, k: nat, at: seq<nat>, repl: string): seq<Span>
    requires forall i :: 0 <= i < |at| ==> at[i] + k < |offs|
  {
    if at == [] then [] else [Span(offs[at[0]], offs[at[0] + k], repl)] + TypographicSpans(offs, k, at[1..], repl)
  }

  lemma {:induction false} TypographicInOrder(content: string, oldStr: string, repl: string, at: seq<nat>, from: nat)
    requires Normalize(oldStr) != "" && from < |Offsets(content, 0)| && !Inside(Offsets(content, 0), from)
    requires Windows(|Normalize(content)|, |Normalize(oldStr)|, Accepts(content, oldStr), at, from, |Normalize(content)|)
    requires forall i :: 0 <= i < |at| ==> at[i] + |Normalize(oldStr)| < |Offsets(content, 0)|
    ensures InOrder(content, TypographicSpans(Offsets(content, 0), |Normalize(oldStr)|, at, repl), Offsets(content, 0)[from])
    decreases |at|
  {
    hide Normalize, Inside, Offsets, OccursAt;
    var offs, k := Offsets(content, 0), |Normalize(oldStr)|;
    MapsBack(content, from, from);
    if at != [] {
      MapsBack(content, from, at[0]);
      MapsBack(content, at[0], at[0] + k);
      TypographicInOrder(content, oldStr, repl, at[1..], at[0] + k);
      var rest := TypographicSpans(offs, k, at[1..], repl);
      assert ([Span(offs[at[0]], offs[at[0] + k], repl)] + rest)[1..] == rest;
    }
  }

  lemma {:induction false} SpanOfWindow(offs: seq<nat>, k: nat, at: seq<nat>, repl: string, i: nat)
    requires (forall j :: 0 <= j < |at| ==> at[j] + k < |offs|) && i < |at|
    ensures |TypographicSpans(offs, k, at, repl)| == |at|
    ensures TypographicSpans(offs, k, at, repl)[i] == Span(offs[at[i]], offs[at[i] + k], repl)
  {
    if i > 0 {
      SpanOfWindow(offs, k, at[1..], repl, i - 1);
    } else if |at| > 1 {
      SpanOfWindow(offs, k, at[1..], repl, 0);
    }
  }

  lemma OccurrenceIs(norm: string, needle: string, p: nat)
    requires OccursAt(norm, needle, p)
    ensures p + |needle| <= |norm| && norm[p..p + |needle|] == needle
  {
  }

  /** Each span covers text that normalizes to exactly what old_string does. */
  lemma TypographicSpansExact(content: string, oldStr: string, repl: string, at: seq<nat>, i: nat)
    requires Normalize(oldStr) != "" && i < |at|
    requires Windows(|Normalize(content)|, |Normalize(oldStr)|, Accepts(content, oldStr), at, 0, |Normalize(content)|)
    requires forall j :: 0 <= j < |at| ==> at[j] + |Normalize(oldStr)| < |Offsets(content, 0)|
    ensures var spans := TypographicSpans(Offsets(content, 0), |Normalize(oldStr)|, at, repl);
            && |spans| == |at| && spans[i].start <= spans[i].end <= |content|
            && Normalize(content[spans[i].start..spans[i].end]) == Normalize(oldStr)
  {
    hide Normalize, Inside, Offsets, OccursAt;
    var offs, k := Offsets(content, 0), |Normalize(oldStr)|;
    WindowsFit(|Normalize(content)|, k, Accepts(content, oldStr), at, 0, |Normalize(content)|);
    OccurrenceIs(Normalize(content), Normalize(oldStr), at[i]);
    SpanOfWindow(offs, k, at, repl, i);
    MapsBack(content, at[i], at[i] + k);
  }

  /** The substring half of findUnicodeNormalized: occurrences in the normalized text,
      left to right, that cut no character. */
  method FindTypographic(content: string, oldStr: string, repl: string) returns (spans: seq<Span>, ghost at: seq<nat>)
    requires oldStr != ""
    ensures forall j :: 0 <= j < |at| ==> at[j] + |Normalize(oldStr)| < |Offsets(content, 0)|
    ensures Windows(|Normalize(content)|, |Normalize(oldStr)|, Accepts(content, oldStr), at, 0, |Normalize(content)|)
    ensures spans == TypographicSpans(Offsets(content, 0), |Normalize(oldStr)|, at, repl) && InOrder(content, spans, 0)
    ensures spans == TypographicFrom(content, oldStr, repl)
  {
    hide *;
    var norm, offs := NormalizeTypographicMap(content);
    var needle, _ := NormalizeTypographicMap(oldStr);
    SearchShape(content, oldStr);
    ghost var ok := Accepts(content, oldStr);
    var n, k := |norm|, |needle|;
    spans, at := [], [];
    NoWindowYet(n, k, ok, offs, repl);
    var off: nat := 0;
    while true
      invariant off <= n && Windows(n, k, ok, at, 0, off)
      invariant (forall j :: 0 <= j < |at| ==> at[j] + k < |offs|) && spans == TypographicSpans(offs, k, at, repl)
      decreases n - off
    {
      var s := Index(norm, needle, off);
      NotAccepted(content, oldStr, off, s);
      SkipLine(n, k, ok, at, 0, off, s);
      if s == n { break; }
      FitsAt(norm, needle, s);
      AcceptedIff(content, oldStr, s);
      if Inside(offs, s) || Inside(offs, s + k) {
        SkipLine(n, k, ok, at, 0, s, s + 1);
        off := s + 1;
        continue;
      }
      AddWindow(n, k, ok, at, 0, s);
      TypographicAppend(offs, k, at, s, repl);
      spans := spans + [Span(offs[s], offs[s + k], repl)];
      at := at + [s];
      off := s + k;
    }
    StartIsOutside(content);
    TypographicInOrder(content, oldStr, repl, at, 0);
    WindowsFromAre(n, k, ok, 0, 0);
    WindowsUnique(n, k, ok, at, WindowsFrom(n, k, ok, 0), 0);
    TypographicFromIs(content, oldStr, repl);
  }

  lemma TypographicFromIs(content: string, oldStr: string, repl: string)
    requires oldStr != ""
    ensures Normalize(oldStr) != "" && |Offsets(content, 0)| == |Normalize(content)| + 1
    ensures TypographicFrom(content, oldStr, repl) ==
            TypographicSpans(Offsets(content, 0), |Normalize(oldStr)|,
                             WindowsFrom(|Normalize(content)|, |Normalize(oldStr)|, Accepts(content, oldStr), 0), repl)
  {
    SearchShape(content, oldStr);
  }

  /** The same spans as a function. */
  function TypographicFrom(content: string, oldStr: string, repl: string): seq<Span>
    requires oldStr != ""
  {
    SearchShape(content, oldStr);
    TypographicSpans(Offsets(content, 0), |Normalize(oldStr)|,
                     WindowsFrom(|Normalize(content)|, |Normalize(oldStr)|, Accepts(content, oldStr), 0), repl)
  }

  lemma TypographicFromInOrder(content: string, oldStr: string, repl: string)
    requires oldStr != ""
    ensures InOrder(content, TypographicFrom(content, oldStr, repl), 0)
  {
    hide Normalize, Offsets, Inside, Accepts;
    SearchShape(content, oldStr);
    WindowsFromAre(|Normalize(content)|, |Normalize(oldStr)|, Accepts(content, oldStr), 0, 0);
    StartIsOutside(content);
    var at := WindowsFrom(|Normalize(content)|, |Normalize(oldStr)|, Accepts(content, oldStr), 0);
    TypographicInOrder(content, oldStr, repl, at, 0);
  }

  lemma SearchShape(content: string, oldStr: string)
    requires oldStr != ""
    ensures Normalize(oldStr) != "" && |Offsets(content, 0)| == |Normalize(content)| + 1
  {
    hide Rep, RuneSize;
    assert content[0..] == content;
  }

  lemma NoWindowYet(n: nat, k: nat, ok: nat -> bool, offs: seq<nat>, repl: string)
    ensures Windows(n, k, ok, [], 0, 0) && TypographicSpans(offs, k, [], repl) == []
  {
  }

  lemma AcceptedIff(content: string, oldStr: string, p: nat)
    requires OccursAt(Normalize(content), Normalize(oldStr), p) && p + |Normalize(oldStr)| < |Offsets(content, 0)|
    ensures Accepts(content, oldStr)(p) <==>
            !Inside(Offsets(content, 0), p) && !Inside(Offsets(content, 0), p + |Normalize(oldStr)|)
  {
    hide Normalize, Offsets, OccursAt, Inside;
  }

  lemma NotAccepted(content: string, oldStr: string, from: nat, to: nat)
    requires NoneIn(Normalize(content), Normalize(oldStr), from, to)
    ensures forall p: nat :: from <= p < to ==> !Accepts(content, oldStr)(p)
  {
    hide Normalize, Offsets, OccursAt, Inside;
  }

  lemma FitsAt(norm: string, needle: string, p: nat)
    requires OccursAt(norm, needle, p)
    ensures p + |needle| <= |norm|
  {
  }

  lemma StartIsOutside(content: string)
    ensures |Offsets(content, 0)| > 0 && !Inside(Offsets(content, 0), 0) && Offsets(content, 0)[0] == 0
  {
  }

  lemma {:induction false} TypographicAppend(offs: seq<nat>, k: nat, at: seq<nat>, p: nat, repl: string)
    requires (forall j :: 0 <= j < |at| ==> at[j] + k < |offs|) && p + k < |offs|
    ensures forall j :: 0 <= j < |at + [p]| ==> (at + [p])[j] + k < |offs|
    ensures TypographicSpans(offs, k, at + [p], repl) ==
            TypographicSpans(offs, k, at, repl) + [Span(offs[p], offs[p + k], repl)]
  {
    if at == [] {
      assert ([] + [p])[1..] == [];
    } else {
      assert (at + [p])[1..] == at[1..] + [p];
      TypographicAppend(offs, k, at[1..], p, repl);
    }
  }
}
