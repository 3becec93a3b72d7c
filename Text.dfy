/**
 * The few string operations the validators rely on: Python's `str.lower`,
 * `str.replace(" ", "")` and `str.isalpha`, restricted to the characters
 * U+0000..U+00FF (ASCII and Latin-1).
 */
module Text {

  /** Python's `isalpha` on one character of Latin-1: the ASCII letters,
      the two ordinal indicators, the micro sign and the accented letters. */
  predicate IsLetter(c: char) {
    || ('A' <= c <= 'Z')
    || ('a' <= c <= 'z')
    || c == 'ª' || c == 'µ' || c == 'º'
    || ('À' <= c <= 'Ö')
    || ('Ø' <= c <= 'ö')
    || ('ø' <= c <= 'ÿ')
  }

  /** Python's `lower` on one character of Latin-1. */
  function LowerChar(c: char): (l: char)
    ensures IsLetter(c) <==> IsLetter(l)
    ensures 'A' <= c <= 'Z' ==> 'a' <= l <= 'z'
  {
    if 'A' <= c <= 'Z' then (c as int + 32) as char
    else if ('À' <= c <= 'Ö') || ('Ø' <= c <= 'Þ') then (c as int + 32) as char
    else c
  }

  /** Python's `s.lower()`. */
  function Lower(s: string): (r: string)
    ensures |r| == |s|
  {
    if s == [] then [] else [LowerChar(s[0])] + Lower(s[1..])
  }

  /** Python's `s.replace(" ", "")`: drops every U+0020 space and nothing else. */
  function RemoveSpaces(s: string): (r: string)
    ensures |r| <= |s|
    ensures ' ' !in r
    ensures ' ' !in s ==> r == s
  {
    if s == [] then []
    else if s[0] == ' ' then RemoveSpaces(s[1..])
    else [s[0]] + RemoveSpaces(s[1..])
  }

  /** Python's `s.isalpha()`: true exactly when `s` is non-empty and all letters.
      A text with a space in it is never alphabetic. */
  predicate IsAlpha(s: string): (b: bool)
    ensures b ==> ' ' !in s
  {
    s != [] && forall i :: 0 <= i < |s| ==> IsLetter(s[i])
  }

  lemma {:induction false} LowerAt(s: string, i: int)
    requires 0 <= i < |s|
    ensures Lower(s)[i] == LowerChar(s[i])
  {
    if i > 0 {
      LowerAt(s[1..], i - 1);
    }
  }

  /** Lower-casing twice is lower-casing once. */
  lemma {:induction false} LowerIdempotent(s: string)
    ensures Lower(Lower(s)) == Lower(s)
  {
    if s != [] {
      LowerIdempotent(s[1..]);
    }
  }

  /** A string without an upper-case ASCII letter at position `i` is not changed there. */
  lemma LowerKeepsNonUpper(s: string, i: int)
    requires Lower(s) == s && 0 <= i < |s|
    ensures !('A' <= s[i] <= 'Z')
  {
    LowerAt(s, i);
  }

  /** What survives `RemoveSpaces`: the non-space characters, and only those. */
  lemma {:induction false} RemoveSpacesContents(s: string)
    ensures forall i :: 0 <= i < |RemoveSpaces(s)| ==> RemoveSpaces(s)[i] != ' '
    ensures forall i :: 0 <= i < |RemoveSpaces(s)| ==> RemoveSpaces(s)[i] in s
    ensures forall i :: 0 <= i < |s| && s[i] != ' ' ==> s[i] in RemoveSpaces(s)
  {
    if s != [] {
      RemoveSpacesContents(s[1..]);
      var t := s[1..];
      forall i | 0 <= i < |s| && s[i] != ' '
        ensures s[i] in RemoveSpaces(s)
      {
        if i > 0 {
          assert s[i] == t[i - 1];
        }
      }
    }
  }
}
