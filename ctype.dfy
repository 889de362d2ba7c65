/**
 * The <ctype.h> classification and case mapping functions in the "C" locale,
 * and the notion of a C string (a character sequence without an embedded NUL).
 */
module CType {

  /** isspace: space, tab, newline, vertical tab, form feed, carriage return. */
  predicate IsSpace(c: char) {
    c == ' ' || c == '\t' || c == '\n' || c == '\U{0B}' || c == '\U{0C}' || c == '\r'
  }

  /** isdigit: the ten decimal digits. */
  predicate IsDigit(c: char) {
    '0' <= c <= '9'
  }

  predicate IsUpper(c: char) {
    'A' <= c <= 'Z'
  }

  predicate IsLower(c: char) {
    'a' <= c <= 'z'
  }

  /** isalpha: the 52 ASCII letters. */
  predicate IsAlpha(c: char) {
    IsUpper(c) || IsLower(c)
  }

  /** toupper: lower-case letters map to upper case, everything else is unchanged. */
  function ToUpper(c: char): (u: char)
    ensures IsLower(c) ==> u as int == c as int - 32
    ensures !IsLower(c) ==> u == c
  {
    if IsLower(c) then (c as int - 32) as char else c
  }

  /** tolower: upper-case letters map to lower case, everything else is unchanged. */
  function ToLower(c: char): (l: char)
    ensures IsUpper(c) ==> l as int == c as int + 32
    ensures !IsUpper(c) ==> l == c
  {
    if IsUpper(c) then (c as int + 32) as char else c
  }

  /** A C string never holds the terminating NUL inside it. */
  predicate IsCString(s: string) {
    forall i :: 0 <= i < |s| ==> s[i] != '\0'
  }
}
