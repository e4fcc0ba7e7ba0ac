/** C strings and the character classes of the C locale. */
module CStrings {
  /** The bytes of a C string: anything but NUL. */
  type Byte = c: char | 0 < c as int < 256 witness 'a'
  type Text = seq<Byte>

  // The C locale's character classes.

  predicate IsPrint(c: Byte) {
    ' ' <= c <= '~'
  }

  predicate IsSpace(c: Byte) {
    c == ' ' || 9 <= c as int <= 13
  }

  predicate IsAlnum(c: Byte) {
    '0' <= c <= '9' || 'A' <= c <= 'Z' || 'a' <= c <= 'z'
  }
}
