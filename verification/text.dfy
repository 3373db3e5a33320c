/**
 The two string primitives the screen model relies on: Kotlin's
 `CharSequence.isBlank()` and `String.equals(other, ignoreCase = true)`.
 Both are modelled over the ASCII range (see README, "Left out").
 */
module Text {

  /**
   Kotlin's `Char.isWhitespace` on the ASCII range: tab through carriage
   return, the four separators U+001C to U+001F, and space.
   */
  predicate IsWhitespace(c: char) {
    '\t' <= c <= '\r' || '\U{001C}' <= c <= ' '
  }

  /** Empty, or whitespace only. */
  predicate IsBlank(s: string) {
    forall i :: 0 <= i < |s| ==> IsWhitespace(s[i])
  }

  function ToUpper(c: char): (u: char)
  {
    if 'a' <= c <= 'z' then (c as int - 32) as char else c
  }

  /** Character-wise comparison after folding lower-case letters to upper case. */
  predicate EqualsIgnoreCase(a: string, b: string) {
    |a| == |b| && forall i :: 0 <= i < |a| ==> ToUpper(a[i]) == ToUpper(b[i])
  }

  /** Upper-casing letters of a string gives a string equal to it ignoring case. */
  lemma EqualsIgnoreCaseIgnoresCase(a: string, b: string)
    requires |a| == |b| && forall i :: 0 <= i < |a| ==> b[i] == ToUpper(a[i])
    ensures EqualsIgnoreCase(a, b)
    ensures EqualsIgnoreCase("One Piece", "ONE PIECE")
    ensures !EqualsIgnoreCase("One Piece", "One Pieces")
    ensures !EqualsIgnoreCase("One Piece", "One Pi-ce")
  {
    assert !(ToUpper("One Piece"[6]) == ToUpper("One Pi-ce"[6]));
  }

  lemma EqualsIgnoreCaseIsEquivalence(a: string, b: string, c: string)
    ensures EqualsIgnoreCase(a, a)
    ensures EqualsIgnoreCase(a, b) ==> EqualsIgnoreCase(b, a)
    ensures EqualsIgnoreCase(a, b) && EqualsIgnoreCase(b, c) ==> EqualsIgnoreCase(a, c)
  {
  }
}
