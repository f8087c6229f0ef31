/**
 Upper-casing of strings, restricted to the ASCII letters. It stands in for the
 culture-sensitive `String.ToUpper`: only `a`..`z` change, each to the matching
 capital, so the mapping preserves length and is idempotent.
 */
module Ascii {

  predicate IsLower(c: char) {
    'a' <= c <= 'z'
  }

  /** The upper-case form of one character. */
  function UpperChar(c: char): (u: char)
    ensures !IsLower(u)
    ensures u == c <==> !IsLower(c)
    ensures IsLower(c) ==> 'A' <= u <= 'Z' && u as int + 32 == c as int
  {
    if IsLower(c) then (c as int - 32) as char else c
  }

  /** A string with no lower-case letter in it. */
  predicate IsUpperCase(s: string) {
    forall i :: 0 <= i < |s| ==> !IsLower(s[i])
  }

  /** The upper-case form of a string, character by character. */
  function ToUpper(s: string): (r: string)
    ensures |r| == |s|
    ensures IsUpperCase(r)
    ensures forall i :: 0 <= i < |s| && !IsLower(s[i]) ==> r[i] == s[i]
  {
    seq(|s|, i requires 0 <= i < |s| => UpperChar(s[i]))
  }

  /** Upper-casing leaves a string alone exactly when it is already upper-case. */
  lemma ToUpperFixesExactlyUpperCase(s: string)
    ensures ToUpper(s) == s <==> IsUpperCase(s)
  {
  }

  /** Upper-casing twice is upper-casing once. */
  lemma ToUpperIdempotent(s: string)
    ensures ToUpper(ToUpper(s)) == ToUpper(s)
  {
  }

  /** Upper-casing distributes over concatenation. */
  lemma ToUpperAppend(a: string, b: string)
    ensures ToUpper(a + b) == ToUpper(a) + ToUpper(b)
  {
  }
}
