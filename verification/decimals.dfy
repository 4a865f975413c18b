// Decimal numbers as text.

module Decimals {
  import opened Division

  predicate IsDigit(c: char) { '0' <= c <= '9' }

  function DigitChar(d: nat): (c: char)
    requires d < 10
    ensures IsDigit(c) && c as int == '0' as int + d
  {
    '0' + d as char
  }

  function Decimal(n: nat): (s: string)
    ensures s != [] && forall c :: c in s ==> IsDigit(c)
  {
    (if n < 10 then [] else Decimal(n / 10)) + [DigitChar(n % 10)]
  }

  function IntText(i: int): string {
    if i < 0 then "-" + Decimal(-i) else Decimal(i)
  }

  predicate AllDigits(s: string) { forall c :: c in s ==> IsDigit(c) }

  function DecVal(ds: string): nat
    requires AllDigits(ds)
  {
    if ds == [] then 0
    else
      assert ds[|ds| - 1] in ds;
      10 * DecVal(ds[..|ds| - 1]) + (ds[|ds| - 1] as int - '0' as int)
  }

  lemma {:induction false} DecValDecimal(n: nat)
    ensures DecVal(Decimal(n)) == n
  {
    var s := Decimal(n);
    if n >= 10 { DecValDecimal(n / 10); }
    assert s[..|s| - 1] == if n < 10 then [] else Decimal(n / 10);
  }

  // Digit i from the right is the one of the i-th power of ten; there is a digit, and no zero in front.
  lemma {:induction false} DecimalDigits(n: nat, i: nat)
    requires i < |Decimal(n)|
    ensures Decimal(n)[|Decimal(n)| - 1 - i] == "0123456789"[n / Pow10(i) % 10]
    ensures n > 0 ==> Decimal(n)[0] != '0'
    ensures n < Pow10(|Decimal(n)|)
  {
    var s := Decimal(n);
    assert Pow10(0) == 1;
    if n < 10 {
      assert Pow10(1) == 10;
    } else {
      var t := Decimal(n / 10);
      assert s == t + [DigitChar(n % 10)];
      DecimalDigits(n / 10, if i == 0 then 0 else i - 1);
      if i > 0 {
        DivideTwice(n, Pow10(i - 1));
        assert s[|s| - 1 - i] == t[|t| - 1 - (i - 1)];
      }
    }
  }

  lemma DivideTwice(n: nat, p: nat)
    requires p > 0
    ensures n / 10 / p == n / (10 * p)
  {
    var q, r, l := n / 10 / p, n / 10 % p, n % 10;
    assert n == 10 * (n / 10) + l && n / 10 == p * q + r;
    var low := 10 * r + l;
    assert n == q * (10 * p) + low && low < 10 * p;
    Residue(n, 10 * p, q, low);
  }

  // One more digit is ten times the number and the digit.
  lemma DecValDigits(ds: string, d: nat)
    requires AllDigits(ds) && d < 10
    ensures var more := ds + ["0123456789"[d]];
            AllDigits([]) && DecVal([]) == 0 && AllDigits(more) && DecVal(more) == 10 * DecVal(ds) + d
  {
    assert (ds + ["0123456789"[d]])[..|ds|] == ds;
  }

  lemma {:induction false} DecimalLength(n: nat, bound: nat, digits: nat)
    requires n < bound && 0 < digits && bound == Pow10(digits)
    ensures |Decimal(n)| <= digits
  {
    if n >= 10 { DecimalLength(n / 10, Pow10(digits - 1), digits - 1); }
  }

  function Pow10(k: nat): (p: nat)
    ensures p > 0
  { if k == 0 then 1 else 10 * Pow10(k - 1)
  }
}
