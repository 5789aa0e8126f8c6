/** Matching slash paths against glob patterns (internal/agent/glob.go, globMatchSegs):
    the matcher that cuts segments off the path is the relation that assigns each
    pattern segment its stretch of the path. */
module GlobMatch {

  /** Where the first segment of a path ends. */
  function SlashAt(p: string): (i: nat)
    ensures i <= |p| && '/' !in p[..i] && (i < |p| ==> p[i] == '/')
  {
    if p == "" || p[0] == '/' then 0
    else
      var i := SlashAt(p[1..]);
      assert p[..i + 1] == [p[0]] + p[1..][..i];
      i + 1
  }

  function FirstSegment(p: string): string { p[..SlashAt(p)] }

  /** The path behind its first segment, "" when it was the last. */
  function AfterFirstSegment(p: string): (r: string)
    ensures p != "" ==> |r| < |p|
  {
    if SlashAt(p) < |p| then p[SlashAt(p) + 1..] else ""
  }

  /** One segment against a segment of a path; errors count as no match. */
  type SegmentMatcher = (string, string) -> bool

  predicate GlobMatchSegs(ok: SegmentMatcher, pat: seq<string>, rest: string)
    decreases |pat|, |rest|
  {
    if pat == [] then rest == ""
    else if pat[0] == "**" then
      GlobMatchSegs(ok, pat[1..], rest) || (rest != "" && GlobMatchSegs(ok, pat, AfterFirstSegment(rest)))
    else rest != "" && ok(pat[0], FirstSegment(rest)) && GlobMatchSegs(ok, pat[1..], AfterFirstSegment(rest))
  }

  function Segments(p: string): seq<string>
    decreases |p|
  {
    if p == "" then [] else [FirstSegment(p)] + Segments(AfterFirstSegment(p))
  }

  /** strings.Join(segs, "/"). */
  function JoinPath(segs: seq<string>): string {
    if segs == [] then "" else if |segs| == 1 then segs[0] else segs[0] + "/" + JoinPath(segs[1..])
  }

  predicate Plain(seg: string) { seg != "" && '/' !in seg && seg != "." && seg != ".." }

  predicate PlainPath(segs: seq<string>) { forall i :: 0 <= i < |segs| ==> Plain(segs[i]) }

  lemma {:induction false} FirstOf(seg: string, rest: string)
    requires '/' !in seg && (rest == "" || rest[0] == '/')
    ensures SlashAt(seg + rest) == |seg|
  {
    if seg == "" {
      assert seg + rest == rest;
    } else {
      assert (seg + rest)[1..] == seg[1..] + rest;
      FirstOf(seg[1..], rest);
    }
  }

  /** A path of plain names has exactly its names as segments. */
  lemma {:induction false} SegmentsOfPath(segs: seq<string>)
    requires PlainPath(segs)
    ensures Segments(JoinPath(segs)) == segs
  {
    if segs != [] {
      var rest := if |segs| == 1 then "" else "/" + JoinPath(segs[1..]);
      assert JoinPath(segs) == segs[0] + rest;
      FirstOf(segs[0], rest);
      assert (segs[0] + rest)[..|segs[0]|] == segs[0];
      if |segs| > 1 {
        assert (segs[0] + rest)[|segs[0]| + 1..] == JoinPath(segs[1..]);
      }
      SegmentsOfPath(segs[1..]);
    }
  }

  // ---------------------------------------------------------------------
  // The relation

  function Flat(parts: seq<seq<string>>): seq<string> {
    if parts == [] then [] else parts[0] + Flat(parts[1..])
  }

  /** "**" takes any stretch of segments, another pattern one segment that it matches. */
  predicate Takes(ok: SegmentMatcher, p: string, part: seq<string>) {
    p == "**" || (|part| == 1 && ok(p, part[0]))
  }

  /** `parts` splits the path into one stretch for each pattern segment. */
  predicate Assigns(ok: SegmentMatcher, pat: seq<string>, segs: seq<string>, parts: seq<seq<string>>) {
    |parts| == |pat| && Flat(parts) == segs && forall k :: 0 <= k < |pat| ==> Takes(ok, pat[k], parts[k])
  }

  ghost predicate Matches(ok: SegmentMatcher, pat: seq<string>, segs: seq<string>) {
    exists parts :: Assigns(ok, pat, segs, parts)
  }

  lemma AssignFront(ok: SegmentMatcher, pat: seq<string>, part: seq<string>, rest: seq<string>, parts: seq<seq<string>>)
    requires pat != [] && Takes(ok, pat[0], part) && Assigns(ok, pat[1..], rest, parts)
    ensures Assigns(ok, pat, part + rest, [part] + parts)
  {
    var all := [part] + parts;
    assert all[1..] == parts;
    forall k | 0 <= k < |pat| ensures Takes(ok, pat[k], all[k]) {
      if k > 0 { assert Takes(ok, pat[1..][k - 1], parts[k - 1]); }
    }
  }

  lemma AssignRest(ok: SegmentMatcher, pat: seq<string>, segs: seq<string>, parts: seq<seq<string>>)
    requires pat != [] && Assigns(ok, pat, segs, parts)
    ensures Takes(ok, pat[0], parts[0]) && segs == parts[0] + Flat(parts[1..])
    ensures Assigns(ok, pat[1..], Flat(parts[1..]), parts[1..])
  {
    forall k | 0 <= k < |pat| - 1 ensures Takes(ok, pat[1..][k], parts[1..][k]) {
      assert Takes(ok, pat[k + 1], parts[k + 1]);
    }
  }

  lemma SegmentsStep(p: string)
    requires p != ""
    ensures Segments(p) == [FirstSegment(p)] + Segments(AfterFirstSegment(p))
  {
  }

  /** What the matcher accepts the relation does. */
  lemma {:induction false} MatcherIsSound(ok: SegmentMatcher, pat: seq<string>, rest: string) returns (parts: seq<seq<string>>)
    requires GlobMatchSegs(ok, pat, rest)
    ensures Assigns(ok, pat, Segments(rest), parts)
    decreases |pat|, |rest|
  {
    hide FirstSegment, AfterFirstSegment;
    if pat == [] {
      parts := [];
    } else if pat[0] == "**" && GlobMatchSegs(ok, pat[1..], rest) {
      var r := MatcherIsSound(ok, pat[1..], rest);
      AssignFront(ok, pat, [], Segments(rest), r);
      assert [] + Segments(rest) == Segments(rest);
      parts := [[]] + r;
    } else {
      SegmentsStep(rest);
      var after := AfterFirstSegment(rest);
      if pat[0] == "**" {
        var r := MatcherIsSound(ok, pat, after);
        AssignRest(ok, pat, Segments(after), r);
        var part := [FirstSegment(rest)] + r[0];
        AssignFront(ok, pat, part, Flat(r[1..]), r[1..]);
        assert part + Flat(r[1..]) == [FirstSegment(rest)] + Segments(after);
        parts := [part] + r[1..];
      } else {
        var r := MatcherIsSound(ok, pat[1..], after);
        AssignFront(ok, pat, [FirstSegment(rest)], Segments(after), r);
        parts := [[FirstSegment(rest)]] + r;
      }
    }
  }

  /** What the relation admits the matcher accepts. */
  lemma {:induction false} MatcherIsComplete(ok: SegmentMatcher, pat: seq<string>, rest: string, parts: seq<seq<string>>)
    requires Assigns(ok, pat, Segments(rest), parts)
    ensures GlobMatchSegs(ok, pat, rest)
    decreases |pat|, |rest|
  {
    hide FirstSegment, AfterFirstSegment;
    if pat == [] {
      if rest != "" { SegmentsStep(rest); }
    } else {
      AssignRest(ok, pat, Segments(rest), parts);
      if parts[0] == [] {
        assert [] + Flat(parts[1..]) == Flat(parts[1..]);
        MatcherIsComplete(ok, pat[1..], rest, parts[1..]);
      } else {
        SegmentsStep(rest);
        var after := AfterFirstSegment(rest);
        assert Segments(after) == parts[0][1..] + Flat(parts[1..]) by {
          assert Segments(rest)[1..] == Segments(after);
          assert (parts[0] + Flat(parts[1..]))[1..] == parts[0][1..] + Flat(parts[1..]);
        }
        if pat[0] == "**" {
          AssignFront(ok, pat, parts[0][1..], Flat(parts[1..]), parts[1..]);
          MatcherIsComplete(ok, pat, after, [parts[0][1..]] + parts[1..]);
        } else {
          assert parts[0][1..] + Flat(parts[1..]) == Flat(parts[1..]);
          MatcherIsComplete(ok, pat[1..], after, parts[1..]);
        }
      }
    }
  }

  /** The matcher is the relation, on every path. */
  lemma MatcherIsRelation(ok: SegmentMatcher, pat: seq<string>, rest: string)
    ensures GlobMatchSegs(ok, pat, rest) <==> Matches(ok, pat, Segments(rest))
  {
    if GlobMatchSegs(ok, pat, rest) { var parts := MatcherIsSound(ok, pat, rest); }
    if Matches(ok, pat, Segments(rest)) {
      var parts :| Assigns(ok, pat, Segments(rest), parts);
      MatcherIsComplete(ok, pat, rest, parts);
    }
  }
}
