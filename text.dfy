/**
 * Python's character classes and case mapping as the launcher uses them,
 * restricted to ASCII: `str.strip`, `str.isdigit` and `str.lower`.
 */
module Text {
  import opened Seqs

  /** The characters `str.strip()` removes, restricted to ASCII. */
  predicate IsSpace(c: char) {
    c == ' ' || '\t' <= c <= '\r' || '\U{1C}' <= c <= '\U{1F}'
  }

  /** `s.strip()`. */
  function Strip(s: string): string {
    Trim(s, IsSpace)
  }

  /** `c.isdigit()` for ASCII. */
  predicate IsDigit(c: char) {
    '0' <= c <= '9'
  }

  /** `c.lower()` for ASCII. */
  function LowerChar(c: char): char {
    if 'A' <= c <= 'Z' then (c as int - 'A' as int + 'a' as int) as char else c
  }

  /** `s.lower()` for ASCII. */
  function Lower(s: string): string {
    seq(|s|, i requires 0 <= i < |s| => LowerChar(s[i]))
  }
}
