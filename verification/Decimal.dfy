/** Decimal integers as Rust prints and parses them. */
module Decimal {
  import opened Wrappers

  predicate IsDigit(c: char) {
    '0' <= c <= '9'
  }

  predicate AllDigits(s: string) {
    forall i | 0 <= i < |s| :: IsDigit(s[i])
  }

  function Digit(d: nat): char
    requires d < 10
  {
    '0' + d as char
  }

  function Value(s: string): nat
    requires AllDigits(s)
  {
    if s == "" then 0 else 10 * Value(s[..|s| - 1]) + (s[|s| - 1] - '0') as nat
  }

  /** `{}` of an unsigned integer. */
  function Print(n: nat): string {
    if n < 10 then [Digit(n)] else Print(n / 10) + [Digit(n % 10)]
  }

  /** `str::parse` of an unsigned integer: an optional plus sign and at least one digit. */
  function ParseUnsigned(s: string, max: nat): Option<nat> {
    var digits := if "+" <= s then s[1..] else s;
    if digits == "" || !AllDigits(digits) || Value(digits) > max then None else Some(Value(digits))
  }

  /** `str::parse` of a signed integer whose range is -1 - max to max. */
  function ParseSigned(s: string, max: nat): Option<int> {
    var negative := "-" <= s;
    var digits := if negative || "+" <= s then s[1..] else s;
    if digits == "" || !AllDigits(digits) then None
    else
      var v: int := if negative then 0 - Value(digits) else Value(digits);
      if -1 - max <= v <= max then Some(v) else None
  }

  function PrintSigned(n: int): string {
    if n < 0 then "-" + Print(-n) else Print(n)
  }

  lemma {:induction false} PrintParses(n: nat)
    ensures Print(n) != "" && AllDigits(Print(n)) && Value(Print(n)) == n
    ensures n > 0 ==> Print(n)[0] != '0'
  {
    if n >= 10 {
      PrintParses(n / 10);
      assert Print(n)[..|Print(n)| - 1] == Print(n / 10);
    }
  }

  /** A printed number is read back, with or without a plus sign, exactly when it is in range. */
  lemma UnsignedRoundTrip(n: nat, max: nat)
    ensures ParseUnsigned(Print(n), max) == ParseUnsigned("+" + Print(n), max) == if n <= max then Some(n) else None
  {
    PrintParses(n);
    assert IsDigit(Print(n)[0]);
    assert ("+" + Print(n))[1..] == Print(n);
  }

  lemma SignedRoundTrip(n: int, max: nat)
    ensures ParseSigned(PrintSigned(n), max) == if -1 - max <= n <= max then Some(n) else None
    ensures n >= 0 ==> ParseSigned("+" + PrintSigned(n), max) == ParseSigned(PrintSigned(n), max)
    ensures "-" <= PrintSigned(n) <==> n < 0
  {
    var m := if n < 0 then -n else n;
    PrintParses(m);
    assert IsDigit(Print(m)[0]);
    assert ("-" + Print(m))[1..] == Print(m) && ("+" + Print(m))[1..] == Print(m);
  }

  /** A sign alone is no number, and neither is nothing. */
  lemma NoDigits(max: nat)
    ensures ParseUnsigned("", max) == ParseUnsigned("+", max) == None
    ensures ParseSigned("", max) == ParseSigned("+", max) == ParseSigned("-", max) == None
  {
    assert "+"[1..] == "" && "-"[1..] == "";
  }
}
