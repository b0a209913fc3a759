/** The page-number footer `Page i / N` written by the module-level `paginate`,
    and a parser that recovers `(i, N)` from it. The parser is the footer's
    inverse: two different page positions never share a footer text. */
module PageFooter {
  import opened Wrappers

  predicate IsDigit(c: char) {
    '0' <= c <= '9'
  }

  predicate AllDigits(s: string) {
    forall i :: 0 <= i < |s| ==> IsDigit(s[i])
  }

  function DigitChar(d: nat): (c: char)
    requires d < 10
    ensures IsDigit(c)
  {
    ['0', '1', '2', '3', '4', '5', '6', '7', '8', '9'][d]
  }

  function DigitValue(c: char): (d: nat)
    requires IsDigit(c)
    ensures d < 10
  {
    (c as int - '0' as int) as nat
  }

  lemma DigitRoundTrip(d: nat)
    requires d < 10
    ensures DigitValue(DigitChar(d)) == d
  {
  }

  /** Python's `str(n)` for a non-negative integer: decimal, no leading zeros. */
  function Decimal(n: nat): (s: string)
    ensures 0 < |s|
    ensures AllDigits(s)
    ensures s[0] == '0' ==> n == 0
    ensures n == 0 ==> s == "0"
  {
    if n < 10 then [DigitChar(n)] else Decimal(n / 10) + [DigitChar(n % 10)]
  }

  /** The value of a string of decimal digits (empty reads as 0). */
  function ParseDecimal(s: string): nat
    requires AllDigits(s)
  {
    if |s| == 0 then 0 else 10 * ParseDecimal(s[..|s| - 1]) + DigitValue(s[|s| - 1])
  }

  lemma {:induction false} DecimalRoundTrip(n: nat)
    ensures ParseDecimal(Decimal(n)) == n
  {
    var s := Decimal(n);
    if n < 10 {
      DigitRoundTrip(n);
    } else {
      DecimalRoundTrip(n / 10);
      DigitRoundTrip(n % 10);
      assert s[..|s| - 1] == Decimal(n / 10);
    }
  }

  const Prefix: string := "Page "
  const Separator: string := " / "

  /** The footer text `Page {i} / {n}` for page `i` of `n`. */
  function FooterText(i: nat, n: nat): string
  {
    Prefix + Decimal(i) + Separator + Decimal(n)
  }

  /** Length of the longest all-digit prefix of `s`. */
  function LeadingDigits(s: string): (k: nat)
    ensures k <= |s|
    ensures AllDigits(s[..k])
    ensures k < |s| ==> !IsDigit(s[k])
  {
    if |s| == 0 || !IsDigit(s[0]) then 0
    else
      var k := 1 + LeadingDigits(s[1..]);
      assert s[..k] == [s[0]] + s[1..][..k - 1];
      k
  }

  lemma {:induction false} LeadingDigitsOfNumber(d: string, rest: string)
    requires AllDigits(d)
    requires 0 < |rest| && !IsDigit(rest[0])
    ensures LeadingDigits(d + rest) == |d|
  {
    if |d| > 0 {
      assert (d + rest)[1..] == d[1..] + rest;
      LeadingDigitsOfNumber(d[1..], rest);
    }
  }

  /** Recovers `(i, n)` from a footer text, or `None` if the text is not one. */
  function ParseFooter(s: string): Option<(nat, nat)>
  {
    if |s| < |Prefix| || s[..|Prefix|] != Prefix then None
    else
      var r := s[|Prefix|..];
      var k := LeadingDigits(r);
      if k == 0 || |r| < k + |Separator| || r[k..k + |Separator|] != Separator then None
      else
        var t := r[k + |Separator|..];
        if |t| == 0 || !AllDigits(t) then None
        else Some((ParseDecimal(r[..k]), ParseDecimal(t)))
  }

  /** The footer of page `i` of `n` reads back as exactly `(i, n)`. */
  lemma FooterRoundTrip(i: nat, n: nat)
    ensures ParseFooter(FooterText(i, n)) == Some((i, n))
  {
    var di, dn := Decimal(i), Decimal(n);
    var s := FooterText(i, n);
    assert s[..|Prefix|] == Prefix;
    var r := s[|Prefix|..];
    assert r == di + (Separator + dn);
    LeadingDigitsOfNumber(di, Separator + dn);
    var k := |di|;
    assert r[..k] == di;
    assert r[k..k + |Separator|] == Separator;
    assert r[k + |Separator|..] == dn;
    DecimalRoundTrip(i);
    DecimalRoundTrip(n);
  }

  /** Different page positions get different footers. */
  lemma FooterInjective(i: nat, n: nat, j: nat, m: nat)
    requires FooterText(i, n) == FooterText(j, m)
    ensures i == j && n == m
  {
    FooterRoundTrip(i, n);
    FooterRoundTrip(j, m);
  }
}
