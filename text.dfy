/**
 * Character classes and whole-string operations used by the slug pipeline and
 * by the case-insensitive username check.
 */
module Text {

  predicate IsAsciiUpper(c: char) { 'A' <= c <= 'Z' }

  predicate IsAsciiLower(c: char) { 'a' <= c <= 'z' }

  predicate IsAsciiDigit(c: char) { '0' <= c <= '9' }

  /** The class `[a-zA-Z0-9]` of a JavaScript regular expression. */
  predicate IsAsciiAlphanumeric(c: char) { IsAsciiUpper(c) || IsAsciiLower(c) || IsAsciiDigit(c) }

  /**
   * The characters matched by `\s` in a JavaScript regular expression, which are
   * also the characters `String.prototype.trim` removes: the white space and
   * line terminator code points of ECMAScript.
   */
  predicate IsJsWhitespace(c: char)
  {
    var n := c as int;
    (0x09 <= n <= 0x0D) || n == 0x20 || n == 0xA0 || n == 0x1680 ||
    (0x2000 <= n <= 0x200A) || n == 0x2028 || n == 0x2029 || n == 0x202F ||
    n == 0x205F || n == 0x3000 || n == 0xFEFF
  }

  /** Lower-cases an ASCII capital letter and leaves every other character alone. */
  function LowerChar(c: char): (r: char)
    ensures IsAsciiUpper(c) ==> IsAsciiLower(r) && r as int == c as int + 32
    ensures !IsAsciiUpper(c) ==> r == c
  {
    if IsAsciiUpper(c) then (c as int + 32) as char else c
  }

  /** `toLowerCase` on strings whose letters are ASCII. */
  function ToLower(s: string): (r: string)
    ensures |r| == |s|
    ensures forall i :: 0 <= i < |s| ==> r[i] == LowerChar(s[i])
  {
    seq(|s|, i requires 0 <= i < |s| => LowerChar(s[i]))
  }

  /** The ASCII letters and digits of `s`, in order; every other character dropped. */
  function AsciiAlphanumerics(s: string): (r: string)
    ensures forall i :: 0 <= i < |r| ==> IsAsciiAlphanumeric(r[i])
    ensures |r| <= |s|
  {
    if s == [] then []
    else (if IsAsciiAlphanumeric(s[0]) then [s[0]] else []) + AsciiAlphanumerics(s[1..])
  }

  lemma {:induction false} AlphanumericsOfConcat(a: string, b: string)
    ensures AsciiAlphanumerics(a + b) == AsciiAlphanumerics(a) + AsciiAlphanumerics(b)
  {
    if a != [] {
      assert (a + b)[1..] == a[1..] + b;
      AlphanumericsOfConcat(a[1..], b);
    } else {
      assert a + b == b;
    }
  }

  /** Lower-casing and picking out the letters and digits can be done in either order. */
  lemma {:induction false} AlphanumericsOfLower(s: string)
    ensures AsciiAlphanumerics(ToLower(s)) == ToLower(AsciiAlphanumerics(s))
  {
    if s != [] {
      assert ToLower(s)[1..] == ToLower(s[1..]);
      AlphanumericsOfLower(s[1..]);
      var head := if IsAsciiAlphanumeric(s[0]) then [s[0]] else [];
      assert ToLower(head + AsciiAlphanumerics(s[1..])) == ToLower(head) + ToLower(AsciiAlphanumerics(s[1..]));
    }
  }

  /** Equality up to ASCII letter case. */
  predicate EqualIgnoringCase(a: string, b: string)
  {
    ToLower(a) == ToLower(b)
  }
}
