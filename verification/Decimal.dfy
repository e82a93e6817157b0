/** Decimal numerals: printing a number, reading one back, and the arithmetic of their digits. */
module Decimal {

  predicate IsDigit(c: char) {
    '0' <= c <= '9'
  }

  predicate AllDigits(s: string) {
    forall i :: 0 <= i < |s| ==> IsDigit(s[i])
  }

  function DigitChar(d: nat): (c: char)
    requires d < 10
    ensures IsDigit(c) && DigitValue(c) == d
  {
    '0' + d as char
  }

  function DigitValue(c: char): nat
    requires IsDigit(c)
  {
    (c - '0') as nat
  }

  function Pow10(n: nat): (p: nat)
    ensures p >= 1
  {
    if n == 0 then 1 else 10 * Pow10(n - 1)
  }

  /** The numeral of `n`, as `String(n)` and `strconv.FormatUint` print it. */
  function Numeral(n: nat): (s: string)
    ensures s != "" && AllDigits(s)
  {
    if n < 10 then [DigitChar(n)] else Numeral(n / 10) + [DigitChar(n % 10)]
  }

  function Value(s: string): nat
    requires AllDigits(s)
  {
    if s == "" then 0 else Value(s[..|s| - 1]) * 10 + DigitValue(s[|s| - 1])
  }

  lemma {:induction false} ValueOfNumeral(n: nat)
    ensures Value(Numeral(n)) == n
  {
    if n >= 10 {
      ValueOfNumeral(n / 10);
      assert Numeral(n)[..|Numeral(n)| - 1] == Numeral(n / 10);
    } else {
      assert Numeral(n)[..0] == "";
    }
  }

  lemma NumeralIsInjective(m: nat, n: nat)
    requires Numeral(m) == Numeral(n)
    ensures m == n
  {
    ValueOfNumeral(m);
    ValueOfNumeral(n);
  }

  lemma {:induction false} ValueOfConcat(s: string, t: string)
    requires AllDigits(s) && AllDigits(t)
    ensures AllDigits(s + t) && Value(s + t) == Value(s) * Pow10(|t|) + Value(t)
    decreases |t|
  {
    if t == "" {
      assert s + t == s;
    } else {
      var t' := t[..|t| - 1];
      ValueOfConcat(s, t');
      assert (s + t)[..|s + t| - 1] == s + t';
      assert Pow10(|t|) == 10 * Pow10(|t'|);
      MulTen(Value(s), Pow10(|t'|));
    }
  }

  lemma {:induction false} ValueIsBounded(s: string)
    requires AllDigits(s)
    ensures Value(s) < Pow10(|s|)
  {
    if s != "" {
      ValueIsBounded(s[..|s| - 1]);
    }
  }

  lemma {:induction false} Pow10Adds(m: nat, n: nat)
    ensures Pow10(m + n) == Pow10(m) * Pow10(n)
  {
    if m > 0 {
      Pow10Adds(m - 1, n);
      MulRegroups(10, Pow10(m - 1), Pow10(n));
    }
  }

  lemma {:induction false} Pow10Grows(m: nat, n: nat)
    ensures m <= n ==> Pow10(m) <= Pow10(n)
    decreases n
  {
    if m < n {
      Pow10Grows(m, n - 1);
    }
  }

  /** A numeral has no more digits than it needs. */
  lemma {:induction false} NumeralIsShort(n: nat, m: nat)
    requires n < Pow10(m) && m >= 1
    ensures |Numeral(n)| <= m
    decreases m
  {
    if n >= 10 {
      NumeralIsShort(n / 10, m - 1);
    }
  }

  lemma NumeralIsLong(n: nat, m: nat)
    requires n >= Pow10(m)
    ensures |Numeral(n)| > m
  {
    ValueOfNumeral(n);
    ValueIsBounded(Numeral(n));
    Pow10Grows(|Numeral(n)|, m);
  }

  function Zeros(n: nat): (s: string)
    ensures |s| == n && AllDigits(s) && forall i :: 0 <= i < n ==> s[i] == '0'
  {
    seq(n, i => '0')
  }

  lemma {:induction false} ValueOfZeros(n: nat)
    ensures Value(Zeros(n)) == 0
  {
    if n > 0 {
      ValueOfZeros(n - 1);
      assert Zeros(n)[..n - 1] == Zeros(n - 1);
    }
  }

  lemma MulTen(a: int, b: int)
    ensures a * (10 * b) == a * b * 10
  {
  }

  // Products and remainders the solver does not find by itself.

  lemma MulAtLeast(d: int, m: nat)
    requires d >= 1
    ensures d * m >= m
  {
    assert d * m == (d - 1) * m + m;
  }

  lemma MulOverMinus(a: int, b: int, m: int)
    ensures (a - b) * m == a * m - b * m
  {
  }

  lemma MulOverPlus(a: int, b: int, m: int)
    ensures (a + b) * m == a * m + b * m
  {
  }

  lemma MulRegroups(a: int, b: int, c: int)
    ensures a * b * c == a * (b * c)
  {
  }

  lemma RemainderIs(q: nat, m: nat, r: nat)
    requires m >= 1 && r < m
    ensures (q * m + r) % m == r
  {
    var x := q * m + r;
    var q', r' := x / m, x % m;
    assert x == q' * m + r';
    MulOverMinus(q, q', m);
    if q' < q {
      MulAtLeast(q - q', m);
    }
    if q' > q {
      MulOverMinus(q', q, m);
      MulAtLeast(q' - q, m);
    }
  }
}
