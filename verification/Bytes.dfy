/** Bytes, and the few character constants the C sources name. */
module Bytes {

  type byte = x: int | 0 <= x < 256

  const NUL: byte := 0
  const LF: byte := 10
  const CR: byte := 13
  const SPACE: byte := 32
  const PERCENT: byte := 37
  const AMPERSAND: byte := 38
  const PLUS: byte := 43
  const HYPHEN: byte := 45
  const DOT: byte := 46
  const SLASH: byte := 47
  const COLON: byte := 58
  const EQUALS: byte := 61
  const BACKSLASH: byte := 92

  /** `isspace` in the C locale. */
  predicate IsSpace(c: byte) {
    c == 32 || 9 <= c <= 13
  }

  /** True when `tolower(c)` is a letter of the C locale. */
  predicate IsLetter(c: byte) {
    65 <= c <= 90 || 97 <= c <= 122
  }

  /** The characters of a text, all of them ASCII. */
  predicate Spelt(s: seq<byte>, t: string) {
    |s| == |t| && forall i :: 0 <= i < |s| ==> s[i] == t[i] as int
  }
}
