/**
 * Kotlin's `CharSequence.contains(other, ignoreCase)`, which the endpoint
 * classifiers use to recognise known server messages.
 */
module Text {

  /** `Char.uppercaseChar()` restricted to ASCII letters. */
  function UpperAscii(c: char): char {
    if 'a' <= c <= 'z' then (c as int - 32) as char else c
  }

  /** `Char.lowercaseChar()` restricted to ASCII letters. */
  function LowerAscii(c: char): char {
    if 'A' <= c <= 'Z' then (c as int + 32) as char else c
  }

  /** `Char.equals(other, ignoreCase)`: equal, or equal after upper- or lower-casing both. */
  predicate CharEquals(a: char, b: char, ignoreCase: bool) {
    a == b || (ignoreCase && (UpperAscii(a) == UpperAscii(b) || LowerAscii(a) == LowerAscii(b)))
  }

  /** `other` matches `s` character by character starting at `offset`. */
  predicate RegionMatches(s: string, offset: nat, other: string, ignoreCase: bool)
    requires offset + |other| <= |s|
  {
    forall j :: 0 <= j < |other| ==> CharEquals(s[offset + j], other[j], ignoreCase)
  }

  /** The specification: `other` occurs somewhere in `s`. */
  ghost predicate Occurs(s: string, other: string, ignoreCase: bool) {
    exists i: nat :: i + |other| <= |s| && RegionMatches(s, i, other, ignoreCase)
  }

  /** `s.indexOf(other, from, ignoreCase)`: the first match at or after `from`, or -1. */
  function IndexOf(s: string, other: string, from: nat, ignoreCase: bool): (r: int)
    ensures r == -1 || (from <= r && r + |other| <= |s| && RegionMatches(s, r, other, ignoreCase))
    ensures r != -1 ==> forall i: nat :: from <= i < r ==> !RegionMatches(s, i, other, ignoreCase)
    ensures r == -1 ==> forall i: nat :: from <= i && i + |other| <= |s| ==> !RegionMatches(s, i, other, ignoreCase)
    decreases |s| - from
  {
    if from + |other| > |s| then -1
    else if RegionMatches(s, from, other, ignoreCase) then from
    else IndexOf(s, other, from + 1, ignoreCase)
  }

  /** `s.contains(other, ignoreCase)`, which Kotlin defines as `indexOf(other, 0, ignoreCase) >= 0`. */
  function Contains(s: string, other: string, ignoreCase: bool): (r: bool)
    ensures r <==> Occurs(s, other, ignoreCase)
  {
    IndexOf(s, other, 0, ignoreCase) >= 0
  }

  /** A witness position is enough to show `contains`. */
  lemma ContainsAt(s: string, other: string, i: nat, ignoreCase: bool)
    requires i + |other| <= |s| && s[i..i + |other|] == other
    ensures Contains(s, other, ignoreCase)
  {
    assert RegionMatches(s, i, other, ignoreCase);
  }

  /** Whatever `s` is, it contains itself inside any text that wraps it. */
  lemma {:induction false} ContainsInfix(prefix: string, s: string, suffix: string, ignoreCase: bool)
    ensures Contains(prefix + s + suffix, s, ignoreCase)
  {
    var whole := prefix + s + suffix;
    assert whole[|prefix|..|prefix| + |s|] == s;
    ContainsAt(whole, s, |prefix|, ignoreCase);
  }

  /** A text contains what it ends with. */
  lemma ContainsSuffix(prefix: string, s: string, ignoreCase: bool)
    ensures Contains(prefix + s, s, ignoreCase)
  {
    var whole := prefix + s;
    assert whole[|prefix|..|prefix| + |s|] == s;
    ContainsAt(whole, s, |prefix|, ignoreCase);
  }

  /** Appending to a text keeps every match in it. */
  lemma ContainsExtended(s: string, other: string, more: string, ignoreCase: bool)
    requires Contains(s, other, ignoreCase)
    ensures Contains(s + more, other, ignoreCase)
  {
    var i: nat :| i + |other| <= |s| && RegionMatches(s, i, other, ignoreCase);
    assert RegionMatches(s + more, i, other, ignoreCase) by {
      forall j | 0 <= j < |other|
        ensures CharEquals((s + more)[i + j], other[j], ignoreCase)
      {
        assert (s + more)[i + j] == s[i + j];
      }
    }
  }

  /** `s.startsWith(prefix)`. */
  predicate StartsWith(s: string, prefix: string) {
    |prefix| <= |s| && s[..|prefix|] == prefix
  }

  /** Appending to a text keeps its start. */
  lemma StartsWithExtended(s: string, prefix: string, more: string)
    requires StartsWith(s, prefix)
    ensures StartsWith(s + more, prefix)
  {
    assert (s + more)[..|prefix|] == s[..|prefix|];
  }

  /** A case-sensitive match is also a case-insensitive one. */
  lemma ContainsIgnoringCaseWhenContained(s: string, other: string)
    requires Contains(s, other, false)
    ensures Contains(s, other, true)
  {
    var i: nat :| i + |other| <= |s| && RegionMatches(s, i, other, false);
    assert RegionMatches(s, i, other, true);
  }
}
