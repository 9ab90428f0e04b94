/** Character classes of Python's str. */
module Unicode {
  /** str.isspace of one code point; \s in a regular expression matches the same ones. */
  predicate IsSpace(code: int) {
    || 9 <= code <= 13 || 28 <= code <= 32 || code == 0x85 || code == 0xA0 || code == 0x1680
    || 0x2000 <= code <= 0x200A || code == 0x2028 || code == 0x2029 || code == 0x202F || code == 0x205F
    || code == 0x3000
  }
}
