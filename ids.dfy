/**
 * Object identifiers. Both tracker variants key their registry by the
 * string `f"ID_{n}"`; the model keeps the number `n` and renders the label
 * with `IdLabel`. Distinct numbers give distinct labels, so reasoning about
 * numbers is reasoning about the labels.
 */
module Ids {

  predicate IsDigit(c: char)
  {
    '0' <= c <= '9'
  }

  predicate AllDigits(s: string)
  {
    forall i :: 0 <= i < |s| ==> IsDigit(s[i])
  }

  function DigitChar(d: nat): (c: char)
    requires d < 10
    ensures IsDigit(c) && c as int - '0' as int == d
  {
    ('0' as int + d) as char
  }

  /** Python's `str(n)` for a non-negative integer: no sign, no leading zeros. */
  function Decimal(n: nat): (s: string)
    ensures |s| >= 1 && AllDigits(s)
    ensures |s| > 1 ==> s[0] != '0'
  {
    if n < 10 then [DigitChar(n)] else Decimal(n / 10) + [DigitChar(n % 10)]
  }

  function ParseDecimal(s: string): nat
    requires AllDigits(s)
  {
    if s == [] then 0
    else ParseDecimal(s[..|s| - 1]) * 10 + (s[|s| - 1] as int - '0' as int)
  }

  lemma {:induction false} DecimalRoundTrip(n: nat)
    ensures ParseDecimal(Decimal(n)) == n
  {
    var s := Decimal(n);
    if n >= 10 {
      DecimalRoundTrip(n / 10);
      assert s[..|s| - 1] == Decimal(n / 10);
    }
  }

  /** The registry key `f"ID_{n}"`. */
  function IdLabel(n: nat): (s: string)
    ensures |s| > 3 && s[..3] == "ID_" && AllDigits(s[3..])
  {
    "ID_" + Decimal(n)
  }

  /** Two identifiers have the same label exactly when they are equal. */
  lemma IdLabelInjective(m: nat, n: nat)
    ensures IdLabel(m) == IdLabel(n) <==> m == n
  {
    if IdLabel(m) == IdLabel(n) {
      assert Decimal(m) == IdLabel(m)[3..];
      assert Decimal(n) == IdLabel(n)[3..];
      DecimalRoundTrip(m);
      DecimalRoundTrip(n);
    }
  }
}
