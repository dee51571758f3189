/** Integer-cent money display: `formatCurrency` renders `cents / 100` with two decimals
    behind a dollar sign. `toCents`/`toDollars` are binary floating point and are not part
    of this model. */
module Money {
  import opened Common

  function DigitChar(d: nat): (c: char)
    requires d < 10
    ensures '0' <= c <= '9'
  {
    ['0', '1', '2', '3', '4', '5', '6', '7', '8', '9'][d]
  }

  predicate IsDigit(c: char)
  {
    '0' <= c <= '9'
  }

  function DigitValue(c: char): (d: nat)
    requires IsDigit(c)
    ensures d < 10
  {
    (c as int) - ('0' as int)
  }

  lemma DigitRoundTrip(d: nat)
    requires d < 10
    ensures DigitValue(DigitChar(d)) == d
  {
  }

  /** The decimal numeral of `n` without leading zeros (`String(n)` for a safe integer). */
  function Decimal(n: nat): (s: string)
    ensures |s| >= 1
    ensures forall i :: 0 <= i < |s| ==> IsDigit(s[i])
    ensures |s| > 1 ==> s[0] != '0'
  {
    if n < 10 then [DigitChar(n)] else Decimal(n / 10) + [DigitChar(n % 10)]
  }

  predicate AllDigits(s: string)
  {
    forall i :: 0 <= i < |s| ==> IsDigit(s[i])
  }

  /** The value of a string of digits. */
  function DecimalValue(s: string): nat
    requires AllDigits(s)
  {
    if |s| == 0 then 0 else 10 * DecimalValue(s[..|s| - 1]) + DigitValue(s[|s| - 1])
  }

  /** Reading back a decimal numeral gives the number: the numeral loses nothing. */
  lemma {:induction false} DecimalRoundTrip(n: nat)
    ensures DecimalValue(Decimal(n)) == n
  {
    if n >= 10 {
      var s := Decimal(n);
      assert s[..|s| - 1] == Decimal(n / 10);
      DecimalRoundTrip(n / 10);
      DigitRoundTrip(n % 10);
    } else {
      DigitRoundTrip(n);
      assert Decimal(n)[..0] == [];
    }
  }

  /** `formatCurrency(cents)`: `"$"`, a minus sign for negative amounts, the whole dollars,
      `"."` and exactly two cent digits. */
  function FormatCurrency(cents: int): (s: string)
    ensures |s| >= 5 && s[0] == '$' && s[|s| - 3] == '.'
    ensures IsDigit(s[|s| - 2]) && IsDigit(s[|s| - 1])
    ensures cents >= 0 ==> s == "$" + Decimal(cents / 100) + "." + s[|s| - 2..]
    ensures cents >= 0 ==> 10 * DigitValue(s[|s| - 2]) + DigitValue(s[|s| - 1]) == cents % 100
  {
    var magnitude := if cents < 0 then -cents else cents;
    var sign := if cents < 0 then "-" else "";
    var c := magnitude % 100;
    DigitRoundTrip(c / 10);
    DigitRoundTrip(c % 10);
    "$" + sign + Decimal(magnitude / 100) + "." + [DigitChar(c / 10), DigitChar(c % 10)]
  }

  /** Reads a string of the shape `FormatCurrency` produces back into cents. */
  function ParseCurrency(s: string): Option<int>
  {
    if |s| < 5 || s[0] != '$' || s[|s| - 3] != '.' then None
    else
      var body := s[1..|s| - 3];
      var negative := |body| > 0 && body[0] == '-';
      var whole := if negative then body[1..] else body;
      var cents := s[|s| - 2..];
      if |whole| == 0 || !AllDigits(whole)
         || !IsDigit(cents[0]) || !IsDigit(cents[1]) then None
      else
        var magnitude := 100 * DecimalValue(whole) + 10 * DigitValue(cents[0]) + DigitValue(cents[1]);
        Some(if negative then -magnitude else magnitude)
  }

  /** The display loses no information: every amount, of either sign, reads back exactly. */
  lemma FormatCurrencyRoundTrip(cents: int)
    ensures ParseCurrency(FormatCurrency(cents)) == Some(cents)
  {
    var magnitude := if cents < 0 then -cents else cents;
    var c := magnitude % 100;
    var d := [DigitChar(c / 10), DigitChar(c % 10)];
    DecimalRoundTrip(magnitude / 100);
    DigitRoundTrip(c / 10);
    DigitRoundTrip(c % 10);
    assert FormatCurrency(cents) == "$" + (if cents < 0 then "-" else "") + Decimal(magnitude / 100) + "." + d;
    ParseParts(if cents < 0 then "-" else "", Decimal(magnitude / 100), d);
  }

  function Signed(negative: bool, magnitude: int): int
  {
    if negative then -magnitude else magnitude
  }

  /** Reading back a sign, whole dollars and two cent digits. */
  lemma {:induction false} ParseParts(sign: string, whole: string, d: string)
    requires sign == "" || sign == "-"
    requires |whole| > 0 && AllDigits(whole)
    requires |d| == 2 && IsDigit(d[0]) && IsDigit(d[1])
    ensures ParseCurrency("$" + sign + whole + "." + d)
      == Some(Signed(sign == "-", 100 * DecimalValue(whole) + 10 * DigitValue(d[0]) + DigitValue(d[1])))
  {
    var body := sign + whole;
    var s := "$" + body + ("." + d);
    assert "$" + sign + whole + "." + d == s;
    assert !(|s| < 5 || s[0] != '$' || s[|s| - 3] != '.');
    assert s[1..|s| - 3] == body;
    assert s[|s| - 2..] == d;
    var magnitude := 100 * DecimalValue(whole) + 10 * DigitValue(d[0]) + DigitValue(d[1]);
    if sign == "-" {
      assert body[0] == '-' && body[1..] == whole;
      assert ParseCurrency(s) == Some(-magnitude);
    } else {
      assert body == whole && body[0] != '-';
      assert ParseCurrency(s) == Some(magnitude);
    }
  }

  /** The examples of the documentation and the tests. */
  lemma FormatCurrencyExamples()
    ensures FormatCurrency(1250) == "$12.50"
    ensures FormatCurrency(0) == "$0.00"
  {
    assert Decimal(12) == "12";
  }

  lemma FormatCurrencyCentExamples()
    ensures FormatCurrency(1) == "$0.01"
    ensures FormatCurrency(999) == "$9.99"
  {
  }

  lemma FormatCurrencyHundredDollars()
    ensures FormatCurrency(10000) == "$100.00"
  {
    assert Decimal(100) == "100";
  }

  /** `toFixed` puts the minus sign after the dollar sign. */
  lemma FormatCurrencyNegative()
    ensures FormatCurrency(-1250) == "$-12.50"
  {
    assert Decimal(12) == "12";
  }
}
