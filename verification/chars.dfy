/** Character classes the text-normalisation stages test for. */
module Chars {

  /** The code points, as inclusive ranges, for which Python's `str.isspace`
      holds (also what `re`'s `\s` and the argument-less `str.strip()` treat
      as whitespace): the characters whose bidirectional class is WS, B or S,
      or whose category is Zs. */
  const SpaceRanges: seq<(int, int)> := [
    (0x09, 0x0D), (0x1C, 0x20), (0x85, 0x85), (0xA0, 0xA0), (0x1680, 0x1680),
    (0x2000, 0x200A), (0x2028, 0x2029), (0x202F, 0x202F), (0x205F, 0x205F), (0x3000, 0x3000)
  ]

  /** `x` lies in one of the inclusive `ranges`. */
  predicate InRanges(x: int, ranges: seq<(int, int)>) {
    |ranges| > 0 && (ranges[0].0 <= x <= ranges[0].1 || InRanges(x, ranges[1..]))
  }

  /** Python's `str.isspace` for one character. */
  predicate IsSpace(c: char) {
    InRanges(c as int, SpaceRanges)
  }

  predicate NotSpace(c: char) {
    !IsSpace(c)
  }

  /** The code point lies in the range `[\x00-\x7F]`. */
  predicate IsAscii(c: char) {
    c as int <= 0x7F
  }

  predicate IsAsciiString(s: string) {
    forall i :: 0 <= i < |s| ==> IsAscii(s[i])
  }

  /** Python's `string.punctuation`: the 32 ASCII punctuation characters. */
  const Punctuation: string := "!\"#$%&'()*+,-./:;<=>?@[\\]^_`{|}~"

  predicate IsPunct(c: char) {
    c in Punctuation
  }

  predicate NotPunct(c: char) {
    !IsPunct(c)
  }
}
