/** Character classes the parser consults. */
module Chars {

  /** Java's `Character.isWhitespace` on one UTF-16 unit: the Unicode space,
      line and paragraph separators except the three no-break spaces
      (U+00A0, U+2007, U+202F), plus the controls U+0009..U+000D and
      U+001C..U+001F. */
  predicate IsWhitespace(c: char) {
    || c == ' '
    || ('\t' <= c <= '\r')
    || ('\U{1C}' <= c <= '\U{1F}')
    || c == '\U{1680}'
    || ('\U{2000}' <= c <= '\U{200A}' && c != '\U{2007}')
    || c == '\U{2028}'
    || c == '\U{2029}'
    || c == '\U{205F}'
    || c == '\U{3000}'
  }

  /** `Character.isDigit`, restricted to the ASCII decimal digits. */
  predicate IsDigit(c: char) {
    '0' <= c <= '9'
  }

  /** The characters `parseNumber` keeps scanning over. */
  predicate IsNumberChar(c: char) {
    IsDigit(c) || c == '.'
  }
}
