/** Printing and reading decimal numbers, as String, padStart and Number do. */
module Decimal {
  predicate IsDigit(c: char) {
    '0' <= c <= '9'
  }

  predicate AllDigits(s: string) {
    forall i :: 0 <= i < |s| ==> IsDigit(s[i])
  }

  function DigitOf(c: char): nat
    requires IsDigit(c)
  {
    c as int - '0' as int
  }

  function CharOf(d: nat): char
    requires d < 10
  {
    ('0' as int + d) as char
  }

  /** The number a digit string names. */
  function Value(s: string): nat
    requires AllDigits(s)
  {
    if s == [] then 0 else Value(s[..|s| - 1]) * 10 + DigitOf(s[|s| - 1])
  }

  /** String(n). */
  function Digits(n: nat): (s: string)
    ensures s != [] && AllDigits(s)
  {
    if n < 10 then [CharOf(n)] else Digits(n / 10) + [CharOf(n % 10)]
  }

  function Zeros(k: nat): (s: string)
    ensures |s| == k && AllDigits(s) && forall i :: 0 <= i < k ==> s[i] == '0'
  {
    seq(k, _ => '0')
  }

  /** String(n).padStart(width, '0'). */
  function Padded(n: nat, width: nat): (s: string)
    ensures s != [] && AllDigits(s)
  {
    var d := Digits(n);
    if |d| < width then Zeros(width - |d|) + d else d
  }

  function Pow10(k: nat): (p: nat)
    ensures p >= 1
  {
    if k == 0 then 1 else 10 * Pow10(k - 1)
  }

  lemma {:induction false} DigitsReadBack(n: nat)
    ensures Value(Digits(n)) == n
    ensures n > 0 ==> Digits(n)[0] != '0'
  {
    if n >= 10 {
      DigitsReadBack(n / 10);
      assert Digits(n)[..|Digits(n)| - 1] == Digits(n / 10);
    }
  }

  lemma {:induction false} LeadingZeros(k: nat, s: string)
    requires AllDigits(s)
    ensures Value(Zeros(k) + s) == Value(s)
    decreases |s|, k
  {
    var whole := Zeros(k) + s;
    if s == [] {
      if k > 0 {
        assert whole[..k - 1] == Zeros(k - 1) + s;
        LeadingZeros(k - 1, s);
        assert whole[k - 1] == '0';
      }
    } else {
      assert whole[..|whole| - 1] == Zeros(k) + s[..|s| - 1];
      LeadingZeros(k, s[..|s| - 1]);
    }
  }

  /** Padding does not change the number read back. */
  lemma PaddedReadsBack(n: nat, width: nat)
    ensures Value(Padded(n, width)) == n
  {
    DigitsReadBack(n);
    var d := Digits(n);
    if |d| < width { LeadingZeros(width - |d|, d); }
  }

  lemma {:induction false} ValueBound(s: string)
    requires AllDigits(s)
    ensures Value(s) < Pow10(|s|)
  {
    if s != [] { ValueBound(s[..|s| - 1]); }
  }

  lemma {:induction false} DigitsLength(n: nat, k: nat)
    requires k > 0
    ensures |Digits(n)| <= k <==> n < Pow10(k)
    decreases k
  {
    if k == 1 {
      assert Pow10(1) == 10;
    } else if n >= 10 {
      DigitsLength(n / 10, k - 1);
    } else {
      SomePower(k);
    }
  }

  lemma {:induction false} SomePower(k: nat)
    requires k > 0
    ensures Pow10(k) >= 10
  {
    if k > 1 { SomePower(k - 1); }
  }

  /** A number below ten to the width prints on exactly that many places. */
  lemma PaddedLength(n: nat, width: nat)
    requires width > 0
    ensures |Padded(n, width)| == width <==> n < Pow10(width)
    ensures n >= Pow10(width) ==> |Padded(n, width)| > width && Padded(n, width) == Digits(n)
  {
    DigitsLength(n, width);
  }

  /** The parts of a printed reference: a lead, the year, a dash and a number. */
  lemma ReferenceParts(lead: string, year: string, number: string)
    ensures var s, k, d := lead + (year + ("-" + number)), |lead|, |year|;
            && |s| == k + d + 1 + |number| && s[..k] == lead && s[k..k + d] == year && s[k + d] == '-'
            && s[k + d + 1..] == number
  {
  }
}
