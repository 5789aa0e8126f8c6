/** Line endings and the byte-order mark around an edit (internal/agent/fuzzy_edit.go,
    applyEdit and isCRLF): an edit of a CRLF file keeps every byte outside its spans. */
module LineEndings {
  import opened EditSpans

  const BOM := "\U{EF}\U{BB}\U{BF}"

  function ToLF(s: string): string { ReplaceAll(s, "\r\n", "\n") }

  function ToCRLF(s: string): string { ReplaceAll(s, "\n", "\r\n") }

  function CountLF(s: string): nat {
    if s == "" then 0 else (if s[0] == '\n' then 1 else 0) + CountLF(s[1..])
  }

  function CountCRLF(s: string): nat {
    if s == "" then 0 else if "\r\n" <= s then 1 + CountCRLF(s[2..]) else CountCRLF(s[1..])
  }

  /** Every line break in s is "\r\n", and there is one. */
  predicate IsCRLF(s: string) { CountLF(s) > 0 && CountCRLF(s) == CountLF(s) }

  predicate BareAt(s: string, p: nat) { p < |s| && s[p] == '\n' && !(p > 0 && s[p - 1] == '\r') }

  /** A "\n" without a "\r" before it. */
  ghost predicate HasBare(s: string) { exists p: nat :: BareAt(s, p) }

  /** What is behind a "\r\n", and what is behind a char that starts none. */
  lemma BareStep(s: string)
    requires s != ""
    ensures "\r\n" <= s ==> |s| >= 2 && (HasBare(s) <==> HasBare(s[2..]))
    ensures !("\r\n" <= s) ==> (HasBare(s) <==> s[0] == '\n' || HasBare(s[1..]))
  {
    if "\r\n" <= s {
      assert s[0] == '\r' && s[1] == '\n';
      if HasBare(s) {
        var p: nat :| BareAt(s, p);
        assert p >= 2 && BareAt(s[2..], p - 2);
      }
      if HasBare(s[2..]) {
        var p: nat :| BareAt(s[2..], p);
        assert BareAt(s, p + 2);
      }
    } else {
      if HasBare(s) {
        var p: nat :| BareAt(s, p);
        assert p > 0 ==> BareAt(s[1..], p - 1);
      }
      if s[0] == '\n' { assert BareAt(s, 0); }
      if HasBare(s[1..]) {
        var p: nat :| BareAt(s[1..], p);
        assert |s| >= 2 && (s[..2] == "\r\n" <==> s[0] == '\r' && s[1] == '\n');
        assert BareAt(s, p + 1);
      }
    }
  }

  /** The two counts agree exactly when no line break is bare. */
  lemma {:induction false} CountsAgree(s: string)
    ensures CountCRLF(s) <= CountLF(s)
    ensures CountCRLF(s) == CountLF(s) <==> !HasBare(s)
    decreases |s|
  {
    if s != "" {
      BareStep(s);
      if "\r\n" <= s {
        CountsAgree(s[2..]);
        assert s[0] == '\r' && s[1] == '\n' && s[1..][1..] == s[2..];
        assert CountLF(s) == CountLF(s[1..]);
      } else {
        CountsAgree(s[1..]);
      }
    }
  }

  lemma {:induction false} CRLFAppend(a: string, b: string)
    ensures ToCRLF(a + b) == ToCRLF(a) + ToCRLF(b)
  {
    if a == "" {
      assert a + b == b;
    } else {
      assert (a + b)[1..] == a[1..] + b && (a + b)[0] == a[0];
      CRLFAppend(a[1..], b);
      CRLFStep(a);
      CRLFStep(a + b);
    }
  }

  lemma CRLFStep(s: string)
    requires s != ""
    ensures ToCRLF(s) == (if s[0] == '\n' then "\r\n" else [s[0]]) + ToCRLF(s[1..])
  {
    assert "\n" <= s <==> s[0] == '\n';
  }

  /** To LF and back gives the text back if and only if it has no bare line break. */
  lemma {:induction false} RoundTripIff(s: string)
    ensures |ToCRLF(ToLF(s))| >= |s|
    ensures ToCRLF(ToLF(s)) == s <==> !HasBare(s)
    ensures |ToCRLF(ToLF(s))| == |s| ==> ToCRLF(ToLF(s)) == s
    decreases |s|
  {
    if s != "" {
      BareStep(s);
      if "\r\n" <= s {
        RoundTripIff(s[2..]);
        var r := ToLF(s[2..]);
        assert ToLF(s) == "\n" + r;
        assert ("\n" + r)[1..] == r;
        CRLFStep("\n" + r);
        assert s == "\r\n" + s[2..];
      } else {
        RoundTripIff(s[1..]);
        var r := ToLF(s[1..]);
        assert ToLF(s) == [s[0]] + r;
        assert ([s[0]] + r)[1..] == r;
        CRLFStep([s[0]] + r);
        assert s == [s[0]] + s[1..];
      }
    }
  }

  function CRLFAll(parts: seq<string>): (r: seq<string>)
    ensures |r| == |parts|
  {
    if parts == [] then [] else [ToCRLF(parts[0])] + CRLFAll(parts[1..])
  }

  lemma {:induction false} WeaveCRLF(gaps: seq<string>, fills: seq<string>)
    requires |gaps| == |fills| + 1
    ensures ToCRLF(Weave(gaps, fills)) == Weave(CRLFAll(gaps), CRLFAll(fills))
  {
    hide ToCRLF;
    if fills != [] {
      WeaveCRLF(gaps[1..], fills[1..]);
      var rest := Weave(gaps[1..], fills[1..]);
      CRLFAppend(gaps[0] + fills[0], rest);
      CRLFAppend(gaps[0], fills[0]);
      WeaveCons(ToCRLF(gaps[0]), ToCRLF(fills[0]), CRLFAll(gaps[1..]), CRLFAll(fills[1..]));
    }
  }

  // ---------------------------------------------------------------------
  // One edit of a file

  datatype Prepared = Prepared(bom: string, crlf: bool, text: string)

  /** The text that is searched: without the mark, and with LF line endings when all are
      CRLF. */
  function Prepare(content: string): Prepared {
    var bom := if BOM <= content then BOM else "";
    var rest := content[|bom|..];
    Prepared(bom, IsCRLF(rest), if IsCRLF(rest) then ToLF(rest) else rest)
  }

  function Restore(p: Prepared, text: string): string {
    p.bom + if p.crlf then ToCRLF(text) else text
  }

  /** old_string and new_string as they are searched and written. */
  function Normalized(p: Prepared, s: string): string {
    if '\r' in p.text then s else ToLF(s)
  }

  /** Preparing loses nothing. */
  lemma PrepareLosesNothing(content: string)
    ensures Restore(Prepare(content), Prepare(content).text) == content
  {
    hide ToLF, ToCRLF;
    var p := Prepare(content);
    var rest := content[|p.bom|..];
    assert content == p.bom + rest;
    if p.crlf {
      CountsAgree(rest);
      RoundTripIff(rest);
    }
  }

  function Bytes(p: Prepared, parts: seq<string>): (r: seq<string>)
    ensures |r| == |parts|
  {
    if p.crlf then CRLFAll(parts) else parts
  }

  /** Of the file's own bytes, an edit changes only what its spans cover: the mark, and
      the same gaps in the file's own line endings, stand around the old bytes and around
      the new ones. */
  lemma FileKeepsItsBytes(content: string, spans: seq<Span>)
    requires InOrder(Prepare(content).text, spans, 0)
    ensures var p := Prepare(content);
            var gaps := Bytes(p, Gaps(p.text, spans, 0));
            && content == p.bom + Weave(gaps, Bytes(p, Olds(p.text, spans, 0)))
            && Restore(p, Splice(p.text, spans, 0)) == p.bom + Weave(gaps, Bytes(p, Repls(spans)))
  {
    var p := Prepare(content);
    PrepareLosesNothing(content);
    hide Prepare, Weave, ToCRLF, Splice, Gaps, Olds, Repls, InOrder, CRLFAll;
    EditKeepsGaps(p.text, spans, 0);
    assert p.text[0..] == p.text;
    WeaveCRLF(Gaps(p.text, spans, 0), Olds(p.text, spans, 0));
    WeaveCRLF(Gaps(p.text, spans, 0), Repls(spans));
  }
}
