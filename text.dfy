/** The case-insensitive string comparisons the services use: Kotlin's
    `lowercase()`, `contains(other, ignoreCase = true)` and the repositories'
    `IgnoreCase` queries, all on the ASCII letters. */
module Text {

  function LowerChar(c: char): char {
    if 'A' <= c <= 'Z' then (c as int - 'A' as int + 'a' as int) as char else c
  }

  /** `s.lowercase()`: as long as `s`, with no upper-case ASCII letter left;
      every other character is kept and each upper-case letter becomes its
      lower-case partner. */
  function Lowercase(s: string): (r: string)
    ensures |r| == |s|
    ensures forall i :: 0 <= i < |r| ==> !('A' <= r[i] <= 'Z')
    ensures forall i :: 0 <= i < |s| ==>
      r[i] == s[i] || ('A' <= s[i] <= 'Z' && r[i] as int == s[i] as int + 32)
  {
    seq(|s|, i requires 0 <= i < |s| => LowerChar(s[i]))
  }

  /** `a.equals(b, ignoreCase = true)`: the strings have the same length and
      match ignoring case from their first position on. */
  predicate EqualsIgnoreCase(a: string, b: string)
    ensures EqualsIgnoreCase(a, b) <==> |a| == |b| && RegionMatchesIgnoreCase(a, 0, b)
  {
    assert |a| == |b| && RegionMatchesIgnoreCase(a, 0, b) ==> Lowercase(a) == Lowercase(b);
    Lowercase(a) == Lowercase(b)
  }

  /** `s.regionMatches(i, sub, 0, sub.length, ignoreCase = true)` */
  predicate RegionMatchesIgnoreCase(s: string, i: int, sub: string) {
    0 <= i && i + |sub| <= |s| &&
    forall k :: 0 <= k < |sub| ==> LowerChar(s[i + k]) == LowerChar(sub[k])
  }

  /** `s.indexOf(sub, from, ignoreCase = true)` when a match exists at or after
      `from`: the first position of such a match, otherwise -1. */
  function IndexOfIgnoreCase(s: string, sub: string, from: nat): (r: int)
    ensures r == -1 || (from <= r && RegionMatchesIgnoreCase(s, r, sub))
    ensures forall i :: from <= i && (r == -1 || i < r) ==> !RegionMatchesIgnoreCase(s, i, sub)
    decreases |s| + 1 - from
  {
    if from + |sub| > |s| then -1
    else if RegionMatchesIgnoreCase(s, from, sub) then from
    else IndexOfIgnoreCase(s, sub, from + 1)
  }

  /** `s.contains(sub, ignoreCase = true)`: some position of `s` starts a
      case-insensitive copy of `sub` (so the empty string is in every string). */
  function ContainsIgnoreCase(s: string, sub: string): (r: bool)
    ensures r <==> exists i :: RegionMatchesIgnoreCase(s, i, sub)
  {
    IndexOfIgnoreCase(s, sub, 0) >= 0
  }

  lemma EqualsIgnoreCaseIsEquivalence(a: string, b: string, c: string)
    ensures EqualsIgnoreCase(a, a)
    ensures EqualsIgnoreCase(a, b) ==> EqualsIgnoreCase(b, a)
    ensures EqualsIgnoreCase(a, b) && EqualsIgnoreCase(b, c) ==> EqualsIgnoreCase(a, c)
  {
  }
}
