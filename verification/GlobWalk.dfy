/** Where a glob walks (internal/agent/glob.go, globWalkStarts and its helpers): only
    below the literal directories the patterns share, and every match once. */
module GlobWalk {
  import opened GlobMatch

  /** A path below the workspace, by its names; [] is the workspace. */
  type Path = seq<string>

  predicate Wild(c: char) { c == '*' || c == '?' || c == '[' || c == '\\' }

  /** A segment without wildcards. */
  predicate Literal(seg: string) { seg != "" && forall i :: 0 <= i < |seg| ==> !Wild(seg[i]) }

  /** What filepath.Match promises of a pattern without wildcards. */
  ghost predicate Honest(ok: SegmentMatcher) {
    forall p, s :: Literal(p) && ok(p, s) ==> p == s
  }

  /** The leading literal segments, the last (file name) one excluded. */
  function LiteralDirs(pat: seq<string>): Path {
    if |pat| > 1 && Literal(pat[0]) then [pat[0]] + LiteralDirs(pat[1..]) else []
  }

  method LiteralDirsOf(pat: seq<string>) returns (dirs: Path)
    ensures dirs == LiteralDirs(pat)
  {
    var n := 0;
    while n < |pat| - 1 && Literal(pat[n])
      invariant n == 0 || n <= |pat| - 1
      invariant n <= |pat| && pat[..n] + LiteralDirs(pat[n..]) == LiteralDirs(pat)
    {
      assert pat[n..][1..] == pat[n + 1..] && pat[..n + 1] == pat[..n] + [pat[n]];
      assert pat[..n] + ([pat[n]] + LiteralDirs(pat[n + 1..])) == pat[..n + 1] + LiteralDirs(pat[n + 1..]);
      n := n + 1;
    }
    dirs := pat[..n];
    assert dirs + [] == dirs;
  }

  function CommonPrefix(a: Path, b: Path): Path {
    if a != [] && b != [] && a[0] == b[0] then [a[0]] + CommonPrefix(a[1..], b[1..]) else []
  }

  /** It is a prefix of both, and every prefix of both is one of it. */
  lemma {:induction false} CommonPrefixIs(a: Path, b: Path, c: Path)
    ensures CommonPrefix(a, b) <= a && CommonPrefix(a, b) <= b
    ensures c <= a && c <= b <==> c <= CommonPrefix(a, b)
  {
    if a != [] && b != [] && a[0] == b[0] {
      CommonPrefixIs(a[1..], b[1..], if c != [] then c[1..] else []);
      assert a == [a[0]] + a[1..] && b == [b[0]] + b[1..];
      if c != [] { assert c == [c[0]] + c[1..]; }
    }
  }

  /** The literal directories all patterns share. */
  function CommonLiteralDirs(patterns: seq<seq<string>>): Path {
    if patterns == [] then []
    else if |patterns| == 1 then LiteralDirs(patterns[0])
    else CommonPrefix(CommonLiteralDirs(patterns[..|patterns| - 1]), LiteralDirs(patterns[|patterns| - 1]))
  }

  lemma CommonPrefixStep(a: Path, b: Path, n: nat)
    requires n <= |a| && n <= |b|
    ensures n < |a| && n < |b| && a[n] == b[n] ==>
              a[..n] + CommonPrefix(a[n..], b[n..]) == a[..n + 1] + CommonPrefix(a[n + 1..], b[n + 1..])
    ensures n == |a| || n == |b| || a[n] != b[n] ==> a[..n] + CommonPrefix(a[n..], b[n..]) == a[..n]
  {
    if n < |a| && n < |b| && a[n] == b[n] {
      assert a[n..][1..] == a[n + 1..] && b[n..][1..] == b[n + 1..];
      assert a[..n] + [a[n]] == a[..n + 1];
    } else {
      assert CommonPrefix(a[n..], b[n..]) == [];
    }
  }

  method CommonPrefixOf(a: Path, b: Path) returns (common: Path)
    ensures common == CommonPrefix(a, b)
  {
    hide CommonPrefix;
    var n := 0;
    assert a[0..] == a && b[0..] == b && a[..0] + CommonPrefix(a, b) == CommonPrefix(a, b);
    while n < |a| && n < |b| && a[n] == b[n]
      invariant n <= |a| && n <= |b| && a[..n] + CommonPrefix(a[n..], b[n..]) == CommonPrefix(a, b)
    {
      CommonPrefixStep(a, b, n);
      n := n + 1;
    }
    CommonPrefixStep(a, b, n);
    common := a[..n];
  }

  method CommonLiteralDirsOf(patterns: seq<seq<string>>) returns (common: Path)
    ensures common == CommonLiteralDirs(patterns)
  {
    common := [];
    for i := 0 to |patterns|
      invariant common == CommonLiteralDirs(patterns[..i])
    {
      assert patterns[..i + 1][..i] == patterns[..i];
      var dirs := LiteralDirsOf(patterns[i]);
      if i == 0 {
        common := dirs;
        continue;
      }
      common := CommonPrefixOf(common, dirs);
    }
    assert patterns[..|patterns|] == patterns;
  }

  predicate Shared(patterns: seq<seq<string>>, c: Path) {
    forall i :: 0 <= i < |patterns| ==> c <= LiteralDirs(patterns[i])
  }

  lemma SharedSnoc(init: seq<seq<string>>, last: seq<string>, c: Path)
    ensures Shared(init + [last], c) <==> Shared(init, c) && c <= LiteralDirs(last)
  {
    hide LiteralDirs;
    var all := init + [last];
    assert all[|init|] == last && forall i :: 0 <= i < |init| ==> all[i] == init[i];
  }

  /** The longest prefix the literal directories of all patterns share. */
  lemma {:induction false} CommonIsLongest(patterns: seq<seq<string>>, c: Path)
    requires patterns != []
    ensures Shared(patterns, c) <==> c <= CommonLiteralDirs(patterns)
  {
    hide LiteralDirs, CommonPrefix, Shared;
    var n := |patterns| - 1;
    var init, last := patterns[..n], patterns[n];
    assert patterns == init + [last];
    SharedSnoc(init, last, c);
    if n == 0 {
      assert Shared([], c) by { SharedNone(c); }
    } else {
      CommonIsLongest(init, c);
      CommonPrefixIs(CommonLiteralDirs(init), LiteralDirs(last), c);
    }
  }

  lemma SharedNone(c: Path)
    ensures Shared([], c)
  {
  }

  // ---------------------------------------------------------------------
  // Outermost directories

  /** Neither a later duplicate nor inside another directory. */
  predicate Kept(dirs: seq<Path>, i: nat)
    requires i < |dirs|
  {
    forall j :: 0 <= j < |dirs| && j != i ==> !(dirs[j] == dirs[i] && j < i) && !(dirs[j] != dirs[i] && dirs[j] <= dirs[i])
  }

  function Outermost(dirs: seq<Path>, n: nat): seq<Path>
    requires n <= |dirs|
  {
    if n == 0 then [] else Outermost(dirs, n - 1) + if Kept(dirs, n - 1) then [dirs[n - 1]] else []
  }

  method OutermostDirs(dirs: seq<Path>) returns (out: seq<Path>)
    ensures out == Outermost(dirs, |dirs|)
  {
    out := [];
    for i := 0 to |dirs|
      invariant out == Outermost(dirs, i)
    {
      var keep := true;
      for j := 0 to |dirs|
        invariant keep <==>
                  forall k :: 0 <= k < j && k != i ==>
                    !(dirs[k] == dirs[i] && k < i) && !(dirs[k] != dirs[i] && dirs[k] <= dirs[i])
      {
        if i == j { continue; }
        if dirs[j] == dirs[i] && j < i {
          keep := false;
        } else if dirs[j] != dirs[i] && dirs[j] <= dirs[i] {
          keep := false;
        }
      }
      if keep { out := out + [dirs[i]]; }
    }
  }

  /** Every directory is in a kept one. */
  lemma {:induction false} KeptCovers(dirs: seq<Path>, i: nat) returns (k: nat)
    requires i < |dirs|
    ensures k < |dirs| && Kept(dirs, k) && dirs[k] <= dirs[i]
    decreases |dirs[i]|, i
  {
    if Kept(dirs, i) {
      k := i;
    } else {
      var j :| 0 <= j < |dirs| && j != i && ((dirs[j] == dirs[i] && j < i) || (dirs[j] != dirs[i] && dirs[j] <= dirs[i]));
      k := KeptCovers(dirs, j);
      PrefixTransitive(dirs[k], dirs[j], dirs[i]);
    }
  }

  lemma PrefixTransitive(a: Path, b: Path, c: Path)
    requires a <= b && b <= c
    ensures a <= c
  {
    assert c[..|a|] == c[..|b|][..|a|];
  }

  /** Two prefixes of one path are prefixes of each other. */
  lemma PrefixesCompare(a: Path, b: Path, c: Path)
    requires a <= c && b <= c
    ensures |a| <= |b| ==> a <= b
  {
    if |a| <= |b| { assert b[..|a|] == c[..|b|][..|a|] == c[..|a|]; }
  }

  lemma {:induction false} KeptIsOut(dirs: seq<Path>, n: nat, k: nat) returns (a: nat)
    requires k < n <= |dirs| && Kept(dirs, k)
    ensures a < |Outermost(dirs, n)| && Outermost(dirs, n)[a] == dirs[k]
    decreases n
  {
    if k == n - 1 { a := |Outermost(dirs, n - 1)|; } else { a := KeptIsOut(dirs, n - 1, k); }
  }

  /** The index behind an output. */
  lemma {:induction false} OutIsKept(dirs: seq<Path>, n: nat, a: nat) returns (k: nat)
    requires n <= |dirs| && a < |Outermost(dirs, n)|
    ensures k < n && Kept(dirs, k) && Outermost(dirs, n)[a] == dirs[k]
    ensures a < |Outermost(dirs, n)| - 1 ==> k < n - 1
    decreases n
  {
    if a < |Outermost(dirs, n - 1)| { k := OutIsKept(dirs, n - 1, a); } else { k := n - 1; }
  }

  /** The kept directories are pairwise not nested. */
  lemma {:induction false} OutNotNested(dirs: seq<Path>, n: nat, a: nat, b: nat)
    requires n <= |dirs| && a < b < |Outermost(dirs, n)|
    ensures !(Outermost(dirs, n)[a] <= Outermost(dirs, n)[b]) && !(Outermost(dirs, n)[b] <= Outermost(dirs, n)[a])
    decreases n
  {
    if b < |Outermost(dirs, n - 1)| {
      OutNotNested(dirs, n - 1, a, b);
    } else {
      var k := OutIsKept(dirs, n - 1, a);
      assert Kept(dirs, k) && Kept(dirs, n - 1);
    }
  }

  // ---------------------------------------------------------------------
  // Starts

  /** filepath.Join of a directory with segments that may be "." or "..". */
  function Resolve(dir: Path, segs: seq<string>): Path
    decreases segs
  {
    if segs == [] then dir
    else if segs[0] == "." then Resolve(dir, segs[1..])
    else if segs[0] == ".." then Resolve(if dir == [] then [] else dir[..|dir| - 1], segs[1..])
    else Resolve(dir + [segs[0]], segs[1..])
  }

  lemma {:induction false} ResolvePlain(dir: Path, segs: seq<string>)
    requires PlainPath(segs)
    ensures Resolve(dir, segs) == dir + segs
    decreases segs
  {
    if segs != [] {
      assert Plain(segs[0]) && PlainPath(segs[1..]);
      ResolvePlain(dir + [segs[0]], segs[1..]);
      assert dir + [segs[0]] + segs[1..] == dir + segs;
    } else {
      assert dir + segs == dir;
    }
  }

  /** Both readings of a pattern: relative to the search root, and to the workspace. */
  function Candidates(root: Path, prefix: Path): seq<Path> {
    [Resolve(root, prefix)] +
    (if root == [] then []
     else if root <= prefix then [Resolve([], prefix)]
     else if prefix <= root then [root]
     else [])
  }

  function Starts(rootIsDir: bool, root: Path, patterns: seq<seq<string>>): seq<Path> {
    var prefix := CommonLiteralDirs(patterns);
    if !rootIsDir || prefix == [] then [root] else Outermost(Candidates(root, prefix), |Candidates(root, prefix)|)
  }

  method GlobWalkStarts(rootIsDir: bool, root: Path, patterns: seq<seq<string>>) returns (starts: seq<Path>)
    ensures starts == Starts(rootIsDir, root, patterns)
  {
    if !rootIsDir { return [root]; }
    var prefix := CommonLiteralDirsOf(patterns);
    if |prefix| == 0 { return [root]; }
    starts := [Resolve(root, prefix)];
    if root != [] {
      if root <= prefix {
        starts := starts + [Resolve([], prefix)];
      } else if prefix <= root {
        starts := starts + [root];
      }
    }
    assert starts == Candidates(root, prefix);
    starts := OutermostDirs(starts);
  }

  /** The path as the second reading sees it: below the root, or the file's own name when
      the root is the file. */
  function RelativeToRoot(rel: Path, root: Path): Path
    requires rel != []
  {
    if rel == root then [rel[|rel| - 1]] else if root <= rel then rel[|root|..] else rel
  }

  ghost predicate MatchesAny(ok: SegmentMatcher, patterns: seq<seq<string>>, rel: Path, root: Path)
    requires rel != []
  {
    exists i :: 0 <= i < |patterns| && MatchesOne(ok, patterns[i], rel, root)
  }

  ghost predicate MatchesOne(ok: SegmentMatcher, pat: seq<string>, rel: Path, root: Path)
    requires rel != []
  {
    Matches(ok, pat, rel) || (RelativeToRoot(rel, root) != rel && Matches(ok, pat, RelativeToRoot(rel, root)))
  }

  /** A path that matches lies below the pattern's literal directories. */
  lemma {:induction false} BelowLiteralDirs(ok: SegmentMatcher, pat: seq<string>, segs: Path, parts: seq<seq<string>>)
    requires Honest(ok) && Assigns(ok, pat, segs, parts)
    ensures LiteralDirs(pat) <= segs
  {
    if |pat| > 1 && Literal(pat[0]) {
      AssignRest(ok, pat, segs, parts);
      assert pat[0] != "**" by { assert Literal(pat[0]); assert !Literal("**") by { assert Wild("**"[0]); } }
      BelowLiteralDirs(ok, pat[1..], Flat(parts[1..]), parts[1..]);
      assert segs == [pat[0]] + Flat(parts[1..]);
    }
  }

  lemma BelowPrefix(ok: SegmentMatcher, patterns: seq<seq<string>>, i: nat, segs: Path)
    requires Honest(ok) && i < |patterns| && Matches(ok, patterns[i], segs)
    ensures CommonLiteralDirs(patterns) <= segs
  {
    var parts :| Assigns(ok, patterns[i], segs, parts);
    BelowLiteralDirs(ok, patterns[i], segs, parts);
    CommonIsLongest(patterns, CommonLiteralDirs(patterns));
    PrefixTransitive(CommonLiteralDirs(patterns), LiteralDirs(patterns[i]), segs);
  }

  lemma PlainPrefix(a: Path, b: Path)
    requires a <= b && PlainPath(b)
    ensures PlainPath(a)
  {
    assert forall i :: 0 <= i < |a| ==> a[i] == b[i];
  }

  /** A candidate covers every file below the root that one of the patterns matches. */
  lemma SomeCandidateCovers(ok: SegmentMatcher, patterns: seq<seq<string>>, i: nat, rel: Path, root: Path) returns (c: nat)
    requires Honest(ok) && PlainPath(rel) && rel != [] && root <= rel && root != rel
    requires i < |patterns| && MatchesOne(ok, patterns[i], rel, root)
    ensures var cs := Candidates(root, CommonLiteralDirs(patterns)); c < |cs| && cs[c] <= rel
  {
    hide CommonLiteralDirs, Resolve, PlainPath, Matches;
    var prefix, below := CommonLiteralDirs(patterns), rel[|root|..];
    assert rel == root + below;
    if RelativeToRoot(rel, root) != rel && Matches(ok, patterns[i], below) {
      BelowPrefix(ok, patterns, i, below);
      PlainSuffix(rel, |root|);
      PlainPrefix(prefix, below);
      ResolvePlain(root, prefix);
      assert rel[..|root| + |prefix|] == root + prefix;
      c := 0;
    } else {
      BelowPrefix(ok, patterns, i, rel);
      PlainPrefix(prefix, rel);
      ResolvePlain([], prefix);
      ResolvePlain(root, prefix);
      assert [] + prefix == prefix;
      PrefixesCompare(root, prefix, rel);
      PrefixesCompare(prefix, root, rel);
      c := if root == [] then 0 else 1;
    }
  }

  lemma PlainSuffix(a: Path, n: nat)
    requires n <= |a| && PlainPath(a)
    ensures PlainPath(a[n..])
  {
  }

  /** A narrowed walk finds every file below the root that a pattern matches, relative to
      the root or to the workspace, from exactly one of its starts. */
  lemma FoundExactlyOnce(ok: SegmentMatcher, patterns: seq<seq<string>>, rel: Path, root: Path) returns (a: nat)
    requires Honest(ok) && PlainPath(rel) && rel != [] && root <= rel && root != rel && MatchesAny(ok, patterns, rel, root)
    ensures var starts := Starts(true, root, patterns);
            a < |starts| && starts[a] <= rel && forall b :: 0 <= b < |starts| && starts[b] <= rel ==> b == a
  {
    hide CommonLiteralDirs, Candidates, Outermost, MatchesOne, Honest, PlainPath, Kept;
    var i :| 0 <= i < |patterns| && MatchesOne(ok, patterns[i], rel, root);
    var c := SomeCandidateCovers(ok, patterns, i, rel, root);
    var cs := Candidates(root, CommonLiteralDirs(patterns));
    if CommonLiteralDirs(patterns) == [] {
      a := 0;
    } else {
      var k := KeptCovers(cs, c);
      a := KeptIsOut(cs, |cs|, k);
      PrefixTransitive(cs[k], cs[c], rel);
      OnlyOne(cs, a, rel);
    }
  }

  lemma OnlyOne(dirs: seq<Path>, a: nat, rel: Path)
    requires a < |Outermost(dirs, |dirs|)| && Outermost(dirs, |dirs|)[a] <= rel
    ensures forall b :: 0 <= b < |Outermost(dirs, |dirs|)| && Outermost(dirs, |dirs|)[b] <= rel ==> b == a
  {
    var out := Outermost(dirs, |dirs|);
    forall b | 0 <= b < |out| && out[b] <= rel ensures b == a {
      PrefixesCompare(out[a], out[b], rel);
      PrefixesCompare(out[b], out[a], rel);
      if a < b { OutNotNested(dirs, |dirs|, a, b); } else if b < a { OutNotNested(dirs, |dirs|, b, a); }
    }
  }

  /** On the paths a walk yields, the matcher over slash paths is the relation over
      their names. */
  lemma MatcherOnWalkPaths(ok: SegmentMatcher, pat: seq<string>, rel: Path)
    requires PlainPath(rel)
    ensures GlobMatchSegs(ok, pat, JoinPath(rel)) <==> Matches(ok, pat, rel)
  {
    SegmentsOfPath(rel);
    MatcherIsRelation(ok, pat, JoinPath(rel));
  }
}
