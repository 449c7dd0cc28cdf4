/**
 * The pieces of Python's `str` that the scraper relies on: `strip()`,
 * `rstrip(c)`, `replace("\n", " ")`, `lower()` and the `in` operator.
 */
module Strings {

  /** Python's `str.isspace()` for one character: exactly what `strip()` with no argument removes. */
  predicate IsSpace(c: char)
  {
    || c == ' '
    || ('\t' <= c <= '\r')
    || ('\U{1C}' <= c <= '\U{1F}')
    || c == '\U{85}' || c == '\U{A0}' || c == '\U{1680}'
    || ('\U{2000}' <= c <= '\U{200A}')
    || c == '\U{2028}' || c == '\U{2029}' || c == '\U{202F}' || c == '\U{205F}' || c == '\U{3000}'
  }

  /** Neither end of `s` is whitespace. */
  predicate NoEdgeSpace(s: string)
  {
    s == [] || (!IsSpace(s[0]) && !IsSpace(s[|s| - 1]))
  }

  /** The first position at or after `i` that does not hold whitespace, or `|s|`. */
  function SkipSpaces(s: string, i: nat): (j: nat)
    requires i <= |s|
    ensures i <= j <= |s|
    ensures forall m | i <= m < j :: IsSpace(s[m])
    ensures j < |s| ==> !IsSpace(s[j])
    decreases |s| - i
  {
    if i < |s| && IsSpace(s[i]) then SkipSpaces(s, i + 1) else i
  }

  /** The end of `s[lo..j]` once its trailing whitespace is dropped. */
  function SkipSpacesBack(s: string, lo: nat, j: nat): (e: nat)
    requires lo <= j <= |s|
    ensures lo <= e <= j
    ensures forall m | e <= m < j :: IsSpace(s[m])
    ensures lo < e ==> !IsSpace(s[e - 1])
  {
    if lo < j && IsSpace(s[j - 1]) then SkipSpacesBack(s, lo, j - 1) else j
  }

  /** `r` is `s[k..k + |r|]`, and everything of `s` outside that slice is whitespace. */
  predicate TrimmedFrom(s: string, r: string, k: int)
  {
    && 0 <= k && k + |r| <= |s|
    && s[k..k + |r|] == r
    && (forall i | 0 <= i < k :: IsSpace(s[i]))
    && (forall i | k + |r| <= i < |s| :: IsSpace(s[i]))
  }

  /** `s.strip()`: `s` with its leading and trailing whitespace removed. */
  function Strip(s: string): (r: string)
    ensures NoEdgeSpace(r)
    ensures NoEdgeSpace(s) ==> r == s
  {
    var a := SkipSpaces(s, 0);
    var e := SkipSpacesBack(s, a, |s|);
    s[a..e]
  }

  /** `strip()` removes whitespace only, and only at the two ends: the rest is one slice of `s`. */
  lemma StripTrimmed(s: string)
    ensures exists k :: TrimmedFrom(s, Strip(s), k)
  {
    var a := SkipSpaces(s, 0);
    assert TrimmedFrom(s, Strip(s), a);
  }

  /** `s.replace("\n", " ")`. */
  function ReplaceNewlines(s: string): (r: string)
    ensures |r| == |s|
    ensures '\n' !in r
    ensures forall i | 0 <= i < |s| :: r[i] == (if s[i] == '\n' then ' ' else s[i])
  {
    if s == [] then [] else [if s[0] == '\n' then ' ' else s[0]] + ReplaceNewlines(s[1..])
  }

  /** The end of `s[..j]` once its trailing copies of `c` are dropped. */
  function SkipCharBack(s: string, c: char, j: nat): (e: nat)
    requires j <= |s|
    ensures e <= j
    ensures forall m | e <= m < j :: s[m] == c
    ensures 0 < e ==> s[e - 1] != c
  {
    if 0 < j && s[j - 1] == c then SkipCharBack(s, c, j - 1) else j
  }

  /** `s.rstrip(c)` for a one-character argument `c`. */
  function RStripChar(s: string, c: char): (r: string)
    ensures |r| <= |s| && r == s[..|r|]
    ensures forall i | |r| <= i < |s| :: s[i] == c
    ensures r == [] || r[|r| - 1] != c
  {
    s[..SkipCharBack(s, c, |s|)]
  }

  /** Lower-casing of one character (ASCII letters only). */
  function LowerChar(c: char): char
  {
    if 'A' <= c <= 'Z' then (c as int + 32) as char else c
  }

  /** `s.lower()`, restricted to ASCII letters. */
  function Lower(s: string): (r: string)
    ensures |r| == |s|
    ensures forall i | 0 <= i < |s| :: !('A' <= r[i] <= 'Z')
    ensures forall i | 0 <= i < |s| :: 'A' <= s[i] <= 'Z' ==> r[i] as int == s[i] as int + 32
    ensures forall i | 0 <= i < |s| :: !('A' <= s[i] <= 'Z') ==> r[i] == s[i]
  {
    seq(|s|, i requires 0 <= i < |s| => LowerChar(s[i]))
  }

  /** `needle` occurs in `hay` starting at position `i`. */
  predicate OccursAt(hay: string, needle: string, i: int)
  {
    0 <= i && i + |needle| <= |hay| && hay[i..i + |needle|] == needle
  }

  /** Python's `needle in hay` on strings. */
  predicate Contains(hay: string, needle: string)
  {
    exists i | 0 <= i <= |hay| - |needle| :: OccursAt(hay, needle, i)
  }

  /** A string containing `a + b` also contains `a`. */
  lemma ContainsPrefixOf(hay: string, a: string, b: string)
    requires Contains(hay, a + b)
    ensures Contains(hay, a)
  {
    var i :| 0 <= i <= |hay| - |a + b| && OccursAt(hay, a + b, i);
    assert hay[i..i + |a|] == (a + b)[..|a|];
    assert OccursAt(hay, a, i);
  }
}
