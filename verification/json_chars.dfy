/** The characters that matter to JSON, and the bounds of its integers. */
module JsonChars {
  const NUL := '\0'
  const BACKSPACE := '\U{08}'
  const FORM_FEED := '\U{0C}'
  /** Characters are bytes without a sign, as on ARM. */
  const LAST := '\U{FF}'

  const INT64_MIN: int := -0x8000_0000_0000_0000
  const INT64_MAX: int := 0x7FFF_FFFF_FFFF_FFFF

  predicate IsByte(c: char) {
    NUL < c <= LAST
  }

  predicate IsDigit(c: char) {
    '0' <= c <= '9'
  }
}
