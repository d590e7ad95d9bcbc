/** Decimal numerals: what printf writes for a number put back into the source,
    and NumberValue, which reads it (src/botlib/l_script.c:596-675). */
module Numerals {
  import Bits

  function Digit(d: nat): (c: char)
    requires d < 10
    ensures '0' <= c <= '9' && c as int == '0' as int + d
  {
    ('0' as int + d) as char
  }

  /** printf's %ld of a non-negative number. */
  function Decimal(n: nat): (s: string)
    ensures |s| > 0 && forall c <- s :: '0' <= c <= '9'
  {
    if n < 10 then [Digit(n)] else Decimal(n / 10) + [Digit(n % 10)]
  }

  /** printf's %1.2f of the absolute value, on reals and rounding halves up. */
  function FixedPoint(f: real): string {
    var hundredths := Bits.Abs(((if f < 0.0 then -f else f) * 100.0 + 0.5).Floor);
    Decimal(hundredths / 100) + "." + [Digit(hundredths / 10 % 10), Digit(hundredths % 10)]
  }

  /** NumberValue's loop over a decimal numeral, entered with `acc`. */
  function DecimalValueFrom(acc: int, s: string): int
    decreases s
  {
    if s == "" then acc else DecimalValueFrom(acc * 10 + (s[0] as int - '0' as int), s[1..])
  }

  function DecimalValue(s: string): int { DecimalValueFrom(0, s) }

  lemma {:induction false} DecimalValueAppend(acc: int, s: string, c: char)
    ensures DecimalValueFrom(acc, s + [c]) == DecimalValueFrom(acc, s) * 10 + (c as int - '0' as int)
    decreases s
  {
    if s == "" {
      assert [c][1..] == "";
    } else {
      assert (s + [c])[1..] == s[1..] + [c];
      DecimalValueAppend(acc * 10 + (s[0] as int - '0' as int), s[1..], c);
    }
  }

  /** Reading the numeral of a number gives the number back. */
  lemma {:induction false} DecimalRoundTrip(n: nat)
    ensures DecimalValue(Decimal(n)) == n
  {
    if n < 10 {
      assert Decimal(n) == [Digit(n)] && [Digit(n)][1..] == "";
      assert DecimalValueFrom(0, [Digit(n)]) == DecimalValueFrom(n, "");
    } else {
      DecimalRoundTrip(n / 10);
      DecimalValueAppend(0, Decimal(n / 10), Digit(n % 10));
    }
  }
}
