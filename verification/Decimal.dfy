/** The text sprintf writes for "%d", and the value of such a text. */
module Decimal {

  import opened CText

  predicate IsDigit(c: char) {
    '0' <= c <= '9'
  }

  function DigitValue(c: char): (d: nat)
    requires IsDigit(c)
    ensures d < 10
  {
    c as int - '0' as int
  }

  function Digit(d: nat): (c: char)
    requires d < 10
    ensures IsDigit(c) && DigitValue(c) == d
  {
    ('0' as int + d) as char
  }

  function OfNat(n: nat): (s: string)
    ensures s != []
  {
    if n < 10 then [Digit(n)] else OfNat(n / 10) + [Digit(n % 10)]
  }

  function OfInt(n: int): (s: string)
    ensures s != []
  {
    if n < 0 then "-" + OfNat(-n) else OfNat(n)
  }

  function ValueTo(s: string, n: nat): nat
    requires n <= |s| && forall i :: 0 <= i < |s| ==> IsDigit(s[i])
  {
    if n == 0 then 0 else 10 * ValueTo(s, n - 1) + DigitValue(s[n - 1])
  }

  lemma {:induction false} OfNatDigits(n: nat, i: nat)
    requires i < |OfNat(n)|
    ensures IsDigit(OfNat(n)[i])
  {
    if n >= 10 && i < |OfNat(n / 10)| { OfNatDigits(n / 10, i); }
  }

  lemma OfNatAllDigits(n: nat)
    ensures forall i :: 0 <= i < |OfNat(n)| ==> IsDigit(OfNat(n)[i])
  {
    forall i | 0 <= i < |OfNat(n)| ensures IsDigit(OfNat(n)[i]) { OfNatDigits(n, i); }
  }

  /** No leading zero, except in "0" itself. */
  lemma {:induction false} OfNatLead(n: nat)
    ensures OfNat(n)[0] == '0' <==> n == 0
  {
    if n >= 10 { OfNatLead(n / 10); }
  }

  lemma {:induction false} ValueExtend(s: string, t: string, n: nat)
    requires n <= |s| && (forall i :: 0 <= i < |s| ==> IsDigit(s[i])) && (forall i :: 0 <= i < |t| ==> IsDigit(t[i]))
    requires n <= |t| && s[..n] == t[..n]
    ensures ValueTo(s, n) == ValueTo(t, n)
  {
    if n > 0 {
      assert s[..n][n - 1] == t[..n][n - 1];
      assert s[..n - 1] == s[..n][..n - 1] && t[..n - 1] == t[..n][..n - 1];
      ValueExtend(s, t, n - 1);
    }
  }

  /** Reading the decimal text back gives the number. */
  lemma {:induction false} ValueOfNat(n: nat)
    requires forall i :: 0 <= i < |OfNat(n)| ==> IsDigit(OfNat(n)[i])
    ensures ValueTo(OfNat(n), |OfNat(n)|) == n
  {
    if n < 10 {
      assert ValueTo(OfNat(n), 0) == 0;
    } else {
      var head := OfNat(n / 10);
      OfNatAllDigits(n / 10);
      ValueOfNat(n / 10);
      ValueExtend(OfNat(n), head, |head|);
    }
  }

  lemma OfNatInjective(m: nat, n: nat)
    requires OfNat(m) == OfNat(n)
    ensures m == n
  {
    hide OfNat;
    OfNatAllDigits(m);
    OfNatAllDigits(n);
    ValueOfNat(m);
    ValueOfNat(n);
  }

  lemma {:induction false} OfNatLength(n: nat, k: nat)
    requires k > 0
    ensures |OfNat(n)| <= k <==> n < Power10(k)
  {
    if n >= 10 && k > 1 { OfNatLength(n / 10, k - 1); }
    if k > 1 { Power10Grows(k - 1); }
  }

  function Power10(k: nat): nat {
    if k == 0 then 1 else 10 * Power10(k - 1)
  }

  lemma {:induction false} Power10Grows(k: nat)
    ensures Power10(k) >= 1
  {
    if k > 0 { Power10Grows(k - 1); }
  }
}
