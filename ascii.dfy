/**
 * The ASCII part of JavaScript's String.prototype.toUpperCase and
 * String.prototype.toLowerCase, one character at a time.
 */
module Ascii {

  predicate IsLower(c: char) { 'a' <= c <= 'z' }

  predicate IsUpper(c: char) { 'A' <= c <= 'Z' }

  predicate IsDigit(c: char) { '0' <= c <= '9' }

  /** The characters the pattern `[a-z0-9]` matches. */
  predicate IsLowerAlnum(c: char) { IsLower(c) || IsDigit(c) }

  function ToUpper(c: char): char
  {
    if IsLower(c) then (c as int - 32) as char else c
  }

  function ToLower(c: char): char
  {
    if IsUpper(c) then (c as int + 32) as char else c
  }

  /** Upper-casing maps a lower-case letter to an upper-case one and fixes everything else. */
  lemma ToUpperSpec(c: char)
    ensures IsLower(c) ==> IsUpper(ToUpper(c)) && ToLower(ToUpper(c)) == c
    ensures !IsLower(c) ==> ToUpper(c) == c
    ensures !IsLower(ToUpper(c))
  {
  }

  /** Lower-casing maps an upper-case letter to a lower-case one and fixes everything else. */
  lemma ToLowerSpec(c: char)
    ensures IsUpper(c) ==> IsLower(ToLower(c)) && ToUpper(ToLower(c)) == c
    ensures !IsUpper(c) ==> ToLower(c) == c
    ensures !IsUpper(ToLower(c))
  {
  }
}
