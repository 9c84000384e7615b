// Decimal numerals: the digit strings the canonicaliser reads and prints.
module Numerals {

  predicate IsDigit(c: char) {
    '0' <= c <= '9'
  }

  function DigitValue(c: char): nat
    requires IsDigit(c)
  {
    c as int - '0' as int
  }

  function Digit(d: nat): (c: char)
    requires d < 10
    ensures IsDigit(c) && DigitValue(c) == d
  {
    '0' + d as char
  }

  /** The regular expression \d{min,max}, anchored at both ends. */
  predicate IsNumeral(s: string, min: nat, max: nat) {
    min <= |s| <= max && forall i :: 0 <= i < |s| ==> IsDigit(s[i])
  }

  function Value(s: string): nat
    requires IsNumeral(s, 0, |s|)
  {
    if s == "" then 0 else 10 * Value(s[..|s| - 1]) + DigitValue(s[|s| - 1])
  }

  /** String(n) for a natural number. */
  function Numeral(n: nat): (s: string)
    ensures s != "" && IsNumeral(s, 1, |s|)
  {
    if n < 10 then [Digit(n)] else Numeral(n / 10) + [Digit(n % 10)]
  }

  lemma {:induction false} NumeralValue(n: nat)
    ensures Value(Numeral(n)) == n
  {
    var s := Numeral(n);
    if n < 10 {
      assert s[..0] == "";
    } else {
      NumeralValue(n / 10);
      assert s[..|s| - 1] == Numeral(n / 10);
    }
  }

  function Power10(k: nat): nat {
    if k == 0 then 1 else 10 * Power10(k - 1)
  }

  lemma {:induction false} NumeralLength(n: nat, k: nat)
    requires k > 0 && n < Power10(k)
    ensures |Numeral(n)| <= k
    decreases k
  {
    if n >= 10 {
      assert Power10(k) == 10 * Power10(k - 1);
      NumeralLength(n / 10, k - 1);
    }
  }

  // ---- Fractions of up to four decimal digits, in ten-thousandths ----

  function FractionValue(s: string): nat
    requires IsNumeral(s, 1, 4)
  {
    1000 * DigitValue(s[0])
    + (if |s| > 1 then 100 * DigitValue(s[1]) else 0)
    + (if |s| > 2 then 10 * DigitValue(s[2]) else 0)
    + (if |s| > 3 then DigitValue(s[3]) else 0)
  }

  /** The digits after the point, without trailing zeros. */
  function FractionDigits(f: nat): (s: string)
    requires 0 < f < 10000
    ensures IsNumeral(s, 1, 4)
  {
    var tens := f / 10;
    var hundreds := tens / 10;
    var lead := Digit(hundreds / 10);
    if f % 10 != 0 then [lead, Digit(hundreds % 10), Digit(tens % 10), Digit(f % 10)]
    else if tens % 10 != 0 then [lead, Digit(hundreds % 10), Digit(tens % 10)]
    else if hundreds % 10 != 0 then [lead, Digit(hundreds % 10)]
    else [lead]
  }

  lemma FractionRoundTrip(f: nat)
    requires 0 < f < 10000
    ensures FractionValue(FractionDigits(f)) == f
  {
  }

  /** String(Number(x.toFixed(4))) for x = v / 10000. */
  function Decimal(v: nat): string {
    if v % 10000 == 0 then Numeral(v / 10000)
    else Numeral(v / 10000) + "." + FractionDigits(v % 10000)
  }
}
