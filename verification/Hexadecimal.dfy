/** Hexadecimal digits and numbers. */
module Hexadecimal {

  predicate IsHexDigit(c: char) {
    '0' <= c <= '9' || 'a' <= c <= 'f' || 'A' <= c <= 'F'
  }

  predicate AllHexDigits(s: string) {
    forall i | 0 <= i < |s| :: IsHexDigit(s[i])
  }

  function HexDigitValue(c: char): nat
    requires IsHexDigit(c)
  {
    if c <= '9' then (c - '0') as nat else if c <= 'F' then (c - 'A') as nat + 10 else (c - 'a') as nat + 10
  }

  function HexValue(s: string): nat
    requires AllHexDigits(s)
  {
    if s == "" then 0 else 16 * HexValue(s[..|s| - 1]) + HexDigitValue(s[|s| - 1])
  }

  function HexDigit(d: nat): char
    requires d < 16
  {
    if d < 10 then '0' + d as char else 'a' + (d - 10) as char
  }

  /** The low digits of a number, in lower case. */
  function Hex(n: nat, digits: nat): string {
    if digits == 0 then "" else Hex(n / 16, digits - 1) + [HexDigit(n % 16)]
  }

  /** Whether that many digits are enough. */
  predicate FitsHex(n: nat, digits: nat) {
    if digits == 0 then n == 0 else FitsHex(n / 16, digits - 1)
  }

  lemma DigitRoundTrip(d: nat)
    requires d < 16
    ensures IsHexDigit(HexDigit(d)) && HexDigitValue(HexDigit(d)) == d
  {
  }

  /** The digits, in both cases. */
  lemma HexDigits(c: char, d: nat)
    requires d < 6
    ensures IsHexDigit(c) <==> c in {'0', '1', '2', '3', '4', '5', '6', '7', '8', '9',
                                     'a', 'b', 'c', 'd', 'e', 'f', 'A', 'B', 'C', 'D', 'E', 'F'}
    ensures HexDigitValue("abcdef"[d]) == HexDigitValue("ABCDEF"[d]) == 10 + d
  {
  }

  lemma {:induction false} HexRoundTrip(n: nat, digits: nat)
    requires FitsHex(n, digits)
    ensures |Hex(n, digits)| == digits && AllHexDigits(Hex(n, digits)) && HexValue(Hex(n, digits)) == n
    decreases digits
  {
    if digits > 0 {
      HexRoundTrip(n / 16, digits - 1);
      DigitRoundTrip(n % 16);
      assert Hex(n, digits)[..digits - 1] == Hex(n / 16, digits - 1);
    }
  }

  lemma ByteFits(n: nat)
    requires n < 0x100
    ensures FitsHex(n, 2)
  {
    assert n / 16 / 16 == 0;
  }

  lemma WordFits(n: nat)
    requires n < 0x1_0000_0000
    ensures FitsHex(n, 8)
  {
    var n2 := n / 16 / 16;
    var n4 := n2 / 16 / 16;
    var n6 := n4 / 16 / 16;
    ByteFits(n6);
    assert FitsHex(n4, 4) && FitsHex(n2, 6);
  }
}
