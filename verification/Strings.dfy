/** Substrings; a char stands for a byte. */
module Strings {

  predicate OccursAt(s: string, pat: string, i: int) { 0 <= i <= |s| - |pat| && s[i..i + |pat|] == pat }

  /** strings.Contains(s, pat). */
  predicate Contains(s: string, pat: string) { exists i :: 0 <= i <= |s| && OccursAt(s, pat, i) }
}
