/** Lower-case hexadecimal formatting with zero padding to a fixed width
    (Rust's `{:0Wx}`), and the parser that reads such a string back. */
module HexFormat {

  function Pow16(n: nat): (p: nat)
    ensures p > 0
  {
    if n == 0 then 1 else 16 * Pow16(n - 1)
  }

  lemma Pow16Eight()
    ensures Pow16(8) == 0x1_0000_0000
  {
  }

  predicate IsLowerHexDigit(c: char)
  {
    '0' <= c <= '9' || 'a' <= c <= 'f'
  }

  predicate IsLowerHex(s: string)
  {
    forall i :: 0 <= i < |s| ==> IsLowerHexDigit(s[i])
  }

  /** The digit for a value below 16. */
  function Digit(d: nat): (c: char)
    requires d < 16
    ensures IsLowerHexDigit(c)
  {
    if d < 10 then ('0' as int + d) as char else ('a' as int + d - 10) as char
  }

  /** The value of a digit; it is the inverse of Digit. */
  function DigitValue(c: char): (d: nat)
    requires IsLowerHexDigit(c)
    ensures d < 16 && Digit(d) == c
  {
    if '0' <= c <= '9' then c as int - '0' as int else c as int - 'a' as int + 10
  }

  lemma DigitValueOfDigit(d: nat)
    requires d < 16
    ensures DigitValue(Digit(d)) == d
  {
  }

  /** `n` written in exactly `width` lower-case digits, most significant
      first, padded with leading zeros. */
  function ToHex(n: nat, width: nat): (s: string)
    requires n < Pow16(width)
    ensures |s| == width && IsLowerHex(s)
  {
    if width == 0 then [] else ToHex(n / 16, width - 1) + [Digit(n % 16)]
  }

  /** The value of a string of lower-case digits, most significant first. */
  function ParseHex(s: string): (n: nat)
    requires IsLowerHex(s)
    ensures n < Pow16(|s|)
  {
    if s == [] then 0 else ParseHex(s[..|s| - 1]) * 16 + DigitValue(s[|s| - 1])
  }

  /** Parsing a formatted number gives the number back. */
  lemma {:induction false} ParseToHex(n: nat, width: nat)
    requires n < Pow16(width)
    ensures ParseHex(ToHex(n, width)) == n
  {
    if width > 0 {
      var s := ToHex(n, width);
      assert s[..|s| - 1] == ToHex(n / 16, width - 1);
      ParseToHex(n / 16, width - 1);
      DigitValueOfDigit(n % 16);
    }
  }

  /** Formatting a parsed string at its own width gives the string back, so
      every fixed-width lower-case hex string is the format of exactly one
      number. */
  lemma {:induction false} ToHexParse(s: string)
    requires IsLowerHex(s)
    ensures ToHex(ParseHex(s), |s|) == s
  {
    if s != [] {
      var init := s[..|s| - 1];
      ToHexParse(init);
      var n := ParseHex(s);
      assert n / 16 == ParseHex(init);
      assert n % 16 == DigitValue(s[|s| - 1]);
      assert s == init + [s[|s| - 1]];
    }
  }
}
