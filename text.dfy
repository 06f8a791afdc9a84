/**
 * The string tests the todo code relies on: Rails' `blank?`/`present?`,
 * Ruby's `\d` class and the unanchored substring match of SQL `LIKE '%f%'`.
 */
module Text {

  /** Ruby's `[[:space:]]` on a Unicode string: the characters with the White_Space property. */
  predicate IsSpace(c: char) {
    var n := c as int;
    (0x09 <= n <= 0x0D) || n == 0x20 || n == 0x85 || n == 0xA0 || n == 0x1680
    || (0x2000 <= n <= 0x200A) || n == 0x2028 || n == 0x2029 || n == 0x202F
    || n == 0x205F || n == 0x3000
  }

  /** `String#blank?`: nothing but white space, the empty string included. */
  predicate IsBlank(s: string) {
    forall i :: 0 <= i < |s| ==> IsSpace(s[i])
  }

  /** Ruby's `\d`, which matches the ASCII digits only. */
  predicate IsDigit(c: char) {
    '0' <= c <= '9'
  }

  /** `s =~ /\A\d+\z/`: one or more digits and nothing else. */
  predicate AllDigits(s: string) {
    |s| > 0 && forall i :: 0 <= i < |s| ==> IsDigit(s[i])
  }

  /** `f` occurs in `s` starting at position `i`. */
  predicate OccursAt(s: string, f: string, i: int) {
    0 <= i <= |s| - |f| && s[i..i + |f|] == f
  }

  /** `s LIKE '%f%'`, read as a plain case-sensitive substring test. */
  predicate Contains(s: string, f: string) {
    exists i | 0 <= i <= |s| - |f| :: OccursAt(s, f, i)
  }
}
