/** Decimal numerals as Go's strconv package writes and reads them. */
module Decimal {

  datatype Parsed = Value(value: nat) | Invalid

  predicate IsDigits(s: string) {
    forall i :: 0 <= i < |s| ==> '0' <= s[i] <= '9'
  }

  function Digit(d: nat): char
    requires d < 10
  {
    ('0' as int + d) as char
  }

  /** strconv.Itoa on a non-negative integer */
  function Itoa(n: nat): (s: string)
    ensures s != "" && IsDigits(s)
  {
    if n < 10 then [Digit(n)] else Itoa(n / 10) + [Digit(n % 10)]
  }

  function DigitsValue(s: string): nat
    requires IsDigits(s)
  {
    if s == "" then 0
    else 10 * DigitsValue(s[..|s| - 1]) + (s[|s| - 1] as int - '0' as int)
  }

  /** strconv.Atoi with its error dropped, as the callers here use it: 0 for anything
      that is not a numeral */
  function Atoi(s: string): int {
    if s != "" && IsDigits(s) then DigitsValue(s)
    else if |s| > 1 && s[0] == '+' && IsDigits(s[1..]) then DigitsValue(s[1..])
    else if |s| > 1 && s[0] == '-' && IsDigits(s[1..]) then -(DigitsValue(s[1..]) as int)
    else 0
  }

  /** strconv.ParseUint(s, 10, 32) */
  function ParseUint32(s: string): Parsed {
    if s == "" || !IsDigits(s) || DigitsValue(s) >= 0x1_0000_0000 then Invalid
    else Value(DigitsValue(s))
  }

  lemma {:induction false} ItoaValue(n: nat)
    ensures DigitsValue(Itoa(n)) == n
  {
    if n < 10 {
      assert Itoa(n)[..0] == "";
    } else {
      ItoaValue(n / 10);
      assert Itoa(n)[..|Itoa(n)| - 1] == Itoa(n / 10);
    }
  }

  lemma ItoaRoundTrip(n: nat)
    ensures Atoi(Itoa(n)) == n
    ensures n < 0x1_0000_0000 ==> ParseUint32(Itoa(n)) == Value(n)
  {
    ItoaValue(n);
  }
}
