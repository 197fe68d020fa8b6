/**
 * Ordinal, case-insensitive substring search over ASCII text: the part of
 * `string.IndexOf(sub, StringComparison.OrdinalIgnoreCase)` the analyser
 * relies on.
 */
module Text {
  /** ASCII upper-casing, the part of ordinal case-insensitive comparison the model covers. */
  function AsciiUpper(c: char): char {
    if 'a' <= c <= 'z' then (c as int - 32) as char else c
  }

  /** `sub` occurs in `s` at `i`, ignoring case. */
  predicate MatchesAt(s: string, sub: string, i: nat)
    requires i + |sub| <= |s|
  {
    forall k :: 0 <= k < |sub| ==> AsciiUpper(s[i + k]) == AsciiUpper(sub[k])
  }

  predicate ContainsIgnoreCase(s: string, sub: string) {
    exists i: nat :: i + |sub| <= |s| && MatchesAt(s, sub, i)
  }

  /** `s.IndexOf(sub, from, StringComparison.OrdinalIgnoreCase)`. */
  function IndexOfIgnoreCase(s: string, sub: string, from: nat): (r: int)
    requires from <= |s|
    decreases |s| - from
    ensures r == -1 || (from <= r && r + |sub| <= |s| && MatchesAt(s, sub, r))
    ensures r == -1 <==> forall i: nat :: from <= i && i + |sub| <= |s| ==> !MatchesAt(s, sub, i)
    ensures r >= 0 ==> forall i: nat :: from <= i < r ==> !MatchesAt(s, sub, i)
  {
    if from + |sub| > |s| then -1
    else if MatchesAt(s, sub, from) then from
    else IndexOfIgnoreCase(s, sub, from + 1)
  }
}
