/**
 * Character classes of ECMAScript regular expressions as the extractor uses them
 * (no `u` flag), and ASCII case folding.
 */
module Chars {

  predicate IsDigit(c: char) { '0' <= c <= '9' }

  predicate IsUpper(c: char) { 'A' <= c <= 'Z' }

  predicate IsLower(c: char) { 'a' <= c <= 'z' }

  /** `[A-Za-z]`; also `[A-Z]` and `[a-z]` under the `i` flag without `u`. */
  predicate IsLetter(c: char) { IsUpper(c) || IsLower(c) }

  /** The word characters of `\b` without the `u` flag. */
  predicate IsWordChar(c: char) { IsLetter(c) || IsDigit(c) || c == '_' }

  /** LineTerminator: the characters `.` does not match. */
  predicate IsLineTerminator(c: char) {
    c == '\n' || c == '\r' || c == '\U{2028}' || c == '\U{2029}'
  }

  /** `\s`: WhiteSpace and LineTerminator; `String.prototype.trim` strips the same set. */
  predicate IsSpace(c: char) {
    c == '\t' || c == '\U{000B}' || c == '\U{000C}' || c == ' ' || c == '\U{00A0}'
    || c == '\U{1680}' || ('\U{2000}' <= c <= '\U{200A}') || c == '\U{202F}'
    || c == '\U{205F}' || c == '\U{3000}' || c == '\U{FEFF}'
    || IsLineTerminator(c)
  }

  /**
   * ASCII lower-casing. Under the `i` flag without `u`, two characters match when their
   * upper-case forms agree, except that a non-ASCII character never matches an ASCII one;
   * for the ASCII letters and punctuation in the extractor's patterns that is exactly
   * equality after this folding.
   */
  function Fold(c: char): (r: char)
    ensures IsUpper(c) ==> IsLower(r) && r as int == c as int + 32
    ensures !IsUpper(c) ==> r == c
  {
    if IsUpper(c) then (c as int + 32) as char else c
  }

  /** `toLowerCase` on text made of ASCII characters. */
  function Lower(s: string): (r: string)
    ensures |r| == |s|
    ensures forall k :: 0 <= k < |s| ==> r[k] == Fold(s[k])
  {
    if |s| == 0 then [] else [Fold(s[0])] + Lower(s[1..])
  }

  predicate AllDigits(s: string) {
    forall k :: 0 <= k < |s| ==> IsDigit(s[k])
  }

  /** Letters are not white space. */
  lemma LetterNotSpace(c: char)
    requires IsLetter(c)
    ensures !IsSpace(c) && !IsLineTerminator(c)
  {
  }

  predicate AllLetters(s: string) {
    forall k :: 0 <= k < |s| ==> IsLetter(s[k])
  }

  /** Text matching `[A-Z][a-z]+`: a capital followed by one or more lower-case letters. */
  predicate IsCapitalisedWord(s: string) {
    |s| >= 2 && IsUpper(s[0]) && forall k :: 1 <= k < |s| ==> IsLower(s[k])
  }

  /** A capitalised word is the only spelling of its lower-case form that is capitalised. */
  lemma {:induction false} CapitalisedUnique(a: string, b: string)
    requires IsCapitalisedWord(a) && IsCapitalisedWord(b)
    requires Lower(a) == Lower(b)
    ensures a == b
  {
    forall k | 0 <= k < |a|
      ensures a[k] == b[k]
    {
      assert Lower(a)[k] == Lower(b)[k];
    }
  }
}
