/**
 * Hexadecimal text as it appears in call data: digits, the big-endian value of a
 * digit string, and the fixed-width rendering of a number.
 */
module Hex {

  /** 16^n: the number of values an n-digit hex string can denote. */
  function Pow16(n: nat): (r: nat)
    ensures r >= 1
  {
    if n == 0 then 1 else 16 * Pow16(n - 1)
  }

  predicate IsHexDigit(c: char) {
    ('0' <= c <= '9') || ('a' <= c <= 'f') || ('A' <= c <= 'F')
  }

  predicate IsHexString(s: string) {
    forall i :: 0 <= i < |s| ==> IsHexDigit(s[i])
  }

  /** The value of one hex digit; upper and lower case letters are accepted. */
  function DigitValue(c: char): (d: nat)
    requires IsHexDigit(c)
    ensures d < 16
  {
    if '0' <= c <= '9' then c as int - '0' as int
    else if 'a' <= c <= 'f' then c as int - 'a' as int + 10
    else c as int - 'A' as int + 10
  }

  /** The lower-case digit for a value below 16. */
  function HexChar(d: nat): (c: char)
    requires d < 16
    ensures IsHexDigit(c) && DigitValue(c) == d
  {
    if d < 10 then ('0' as int + d) as char else ('a' as int + d - 10) as char
  }

  /** The big-endian value of a hex digit string (no "0x" prefix). */
  function Value(s: string): (r: nat)
    requires IsHexString(s)
    ensures r < Pow16(|s|)
  {
    if |s| == 0 then 0
    else
      var high := Value(s[..|s| - 1]);
      var low := DigitValue(s[|s| - 1]);
      assert high * 16 + low < Pow16(|s|) by {
        assert high <= Pow16(|s| - 1) - 1;
        assert high * 16 <= Pow16(|s| - 1) * 16 - 16;
      }
      high * 16 + low
  }

  /** `v` written with exactly `n` lower-case digits, zero-padded on the left (higher digits dropped). */
  function ToHex(v: nat, n: nat): (s: string)
    ensures |s| == n && IsHexString(s)
  {
    if n == 0 then [] else ToHex(v / 16, n - 1) + [HexChar(v % 16)]
  }

  /** Reading back an n-digit rendering gives the number, when it fits in n digits. */
  lemma {:induction false} ValueOfToHex(v: nat, n: nat)
    requires v < Pow16(n)
    ensures Value(ToHex(v, n)) == v
  {
    if n > 0 {
      var s := ToHex(v, n);
      assert s[..n - 1] == ToHex(v / 16, n - 1);
      assert v / 16 < Pow16(n - 1);
      ValueOfToHex(v / 16, n - 1);
    }
  }
}
