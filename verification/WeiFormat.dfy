/** Prices: printing wei as a short decimal (`fmtPrice`) and reading a decimal back into wei (`toWei`).

    Of the library underneath, `FormatUnits` and `ParseUnits` model what is used here, with 18 decimals. */
module WeiFormat {
  import opened Decimal

  const DECIMALS: nat := 18

  // ---------------------------------------------------------------- printing

  /** `replace(/0+$/, '')`. */
  function TrimZeros(s: string): (t: string)
    ensures t <= s
    ensures t != "" ==> t[|t| - 1] != '0'
    ensures forall i :: |t| <= i < |s| ==> s[i] == '0'
  {
    if s != "" && s[|s| - 1] == '0' then TrimZeros(s[..|s| - 1]) else s
  }

  function PadLeft(s: string, n: nat): string {
    if |s| < n then Zeros(n - |s|) + s else s
  }

  function PadRight(s: string, n: nat): string {
    if |s| < n then s + Zeros(n - |s|) else s
  }

  function Take(s: string, k: nat): string {
    if |s| <= k then s else s[..k]
  }

  /** `s.split('.')` of a string with at most one dot. */
  function SplitDot(s: string): (string, string) {
    if s == "" then ("", "")
    else if s[0] == '.' then ("", s[1..])
    else var (a, b) := SplitDot(s[1..]); ([s[0]] + a, b)
  }

  /** The digits before and after the point, all of them. */
  function Whole(n: nat): (s: string)
    ensures AllDigits(s)
  {
    var d := PadLeft(Numeral(n), DECIMALS);
    d[..|d| - DECIMALS]
  }

  function Fraction(n: nat): (s: string)
    ensures AllDigits(s) && |s| == DECIMALS
  {
    var d := PadLeft(Numeral(n), DECIMALS);
    d[|d| - DECIMALS..]
  }

  function Joined(whole: string, fraction: string): string {
    if fraction == "" then whole else whole + "." + fraction
  }

  function FormatUnits(n: int): string {
    var a := if n < 0 then -n else n;
    (if n < 0 then "-" else "") + Joined(if Whole(a) == "" then "0" else Whole(a), TrimZeros(Fraction(a)))
  }

  /** A comma goes where a digit precedes and a positive multiple of three digits follows. */
  predicate CommaBefore(s: string, i: nat)
    requires i < |s|
  {
    i > 0 && IsDigit(s[i - 1]) && (|s| - i) % 3 == 0
  }

  function GroupFrom(s: string, i: nat): string
    requires i <= |s|
    decreases |s| - i
  {
    if i == |s| then ""
    else (if CommaBefore(s, i) then "," else "") + [s[i]] + GroupFrom(s, i + 1)
  }

  function FmtPrice(n: int, maxFrac: nat): string {
    var (whole, frac) := SplitDot(FormatUnits(n));
    Joined(GroupFrom(whole, 0), TrimZeros(Take(frac, maxFrac)))
  }

  // ---------------------------------------------------------------- reading

  /** `TooFine`: more than 18 significant fraction digits, which the library rounds. */
  datatype Parsed = Wei(amount: int) | NotANumber | TooFine

  predicate IsSpace(c: char) {
    || c in "\t\n\r "
    || c in ['\U{000B}', '\U{000C}', '\U{00A0}', '\U{1680}', '\U{2028}', '\U{2029}',
             '\U{202F}', '\U{205F}', '\U{3000}', '\U{FEFF}']
    || '\U{2000}' <= c <= '\U{200A}'
  }

  function TrimStart(s: string): string {
    if s != "" && IsSpace(s[0]) then TrimStart(s[1..]) else s
  }

  function TrimEnd(s: string): string {
    if s != "" && IsSpace(s[|s| - 1]) then TrimEnd(s[..|s| - 1]) else s
  }

  /** `/^\d*\.?\d*$/`, and neither empty nor a lone dot. */
  predicate IsDecimal(t: string) {
    t != "" && t != "." && AllDigits(SplitDot(t).0) && AllDigits(SplitDot(t).1)
  }

  function ParseUnits(t: string, decimals: nat): Parsed
    requires IsDecimal(t)
  {
    var (whole, frac) := SplitDot(t);
    var f := TrimZeros(frac);
    if |f| > decimals then TooFine else Wei(Value(whole + PadRight(f, decimals)))
  }

  function ToWei(v: string): Parsed {
    var t := TrimEnd(TrimStart(v));
    if IsDecimal(t) then ParseUnits(t, DECIMALS) else NotANumber
  }

  function RemoveCommas(s: string): string {
    if s == "" then "" else (if s[0] == ',' then "" else [s[0]]) + RemoveCommas(s[1..])
  }

  // ---------------------------------------------------------------- pieces

  lemma {:induction false} RemoveCommasFrom(s: string, i: nat)
    requires i <= |s| && ',' !in s
    ensures RemoveCommas(GroupFrom(s, i)) == s[i..]
    decreases |s| - i
  {
    if i < |s| {
      var rest := GroupFrom(s, i + 1);
      RemoveCommasFrom(s, i + 1);
      KeepsDigit(s[i], rest);
      SkipsComma([s[i]] + rest);
      assert GroupFrom(s, i) == if CommaBefore(s, i) then "," + ([s[i]] + rest) else [s[i]] + rest;
      assert s[i..] == [s[i]] + s[i + 1..];
    }
  }

  lemma KeepsDigit(c: char, rest: string)
    requires c != ','
    ensures RemoveCommas([c] + rest) == [c] + RemoveCommas(rest)
  {
    assert ([c] + rest)[1..] == rest;
  }

  lemma SkipsComma(rest: string)
    ensures RemoveCommas("," + rest) == RemoveCommas(rest)
  {
    assert ("," + rest)[1..] == rest;
  }

  lemma {:induction false} RemoveCommasConcat(s: string, t: string)
    ensures RemoveCommas(s + t) == RemoveCommas(s) + RemoveCommas(t)
  {
    if s == "" {
      assert s + t == t;
    } else {
      var rest := s[1..];
      RemoveCommasConcat(rest, t);
      assert s + t == [s[0]] + (rest + t) && s == [s[0]] + rest;
      if s[0] == ',' {
        SkipsComma(rest);
        SkipsComma(rest + t);
      } else {
        KeepsDigit(s[0], rest);
        KeepsDigit(s[0], rest + t);
      }
    }
  }

  lemma {:induction false} NoCommasToRemove(s: string)
    requires ',' !in s
    ensures RemoveCommas(s) == s
  {
    if s != "" {
      NoCommasToRemove(s[1..]);
    }
  }

  lemma {:induction false} SplitOfJoined(whole: string, fraction: string)
    requires '.' !in whole
    ensures SplitDot(Joined(whole, fraction)) == (whole, fraction)
  {
    var s := Joined(whole, fraction);
    if whole == "" {
      assert s == if fraction == "" then "" else "." + fraction;
    } else {
      SplitOfJoined(whole[1..], fraction);
      assert s[0] == whole[0] && s[1..] == Joined(whole[1..], fraction);
      assert [whole[0]] + whole[1..] == whole;
    }
  }

  lemma {:induction false} TrimmingDigits(s: string)
    requires s != "" && !IsSpace(s[0]) && !IsSpace(s[|s| - 1])
    ensures TrimEnd(TrimStart(s)) == s
  {
  }

  lemma DigitsAreDigits(s: string)
    requires AllDigits(s)
    ensures '.' !in s && ',' !in s && '-' !in s
    ensures forall t :: t <= s ==> AllDigits(t)
  {
  }

  /** The value of a fraction, in units of the last of `d` places. */
  function FractionValue(f: string, d: nat): nat
    requires AllDigits(f) && |f| <= d
  {
    Value(f) * Pow10(d - |f|)
  }

  lemma FractionPadded(f: string, d: nat)
    requires AllDigits(f) && |f| <= d
    ensures AllDigits(PadRight(f, d)) && |PadRight(f, d)| == d
    ensures Value(PadRight(f, d)) == FractionValue(f, d)
  {
    if |f| < d {
      ValueOfConcat(f, Zeros(d - |f|));
      ValueOfZeros(d - |f|);
    }
  }

  /** Dropping trailing zeros does not change a fraction. */
  lemma FractionTrimmed(f: string, t: string, d: nat)
    requires AllDigits(f) && |f| <= d && t <= f && forall i :: |t| <= i < |f| ==> f[i] == '0'
    ensures AllDigits(t) && FractionValue(t, d) == FractionValue(f, d)
  {
    var m := |f| - |t|;
    assert f == t + Zeros(m);
    ValueOfConcat(t, Zeros(m));
    ValueOfZeros(m);
    Pow10Adds(m, d - |f|);
    MulRegroups(Value(t), Pow10(m), Pow10(d - |f|));
  }

  lemma NumberSplits(n: nat)
    ensures n == Value(Whole(n)) * Pow10(DECIMALS) + Value(Fraction(n))
  {
    PaddedValue(Numeral(n), DECIMALS);
    ValueOfNumeral(n);
    var d := PadLeft(Numeral(n), DECIMALS);
    assert d == Whole(n) + Fraction(n);
    ValueOfConcat(Whole(n), Fraction(n));
  }

  lemma PaddedValue(s: string, n: nat)
    requires AllDigits(s)
    ensures AllDigits(PadLeft(s, n)) && Value(PadLeft(s, n)) == Value(s)
  {
    if |s| < n {
      ValueOfConcat(Zeros(n - |s|), s);
      ValueOfZeros(n - |s|);
    }
  }

  lemma CutArithmetic(n: nat, w: nat, high: nat, low: nat, p: nat, pk: nat, m: nat)
    requires low < m && p == pk * m && n == w * p + (high * m + low)
    ensures w * p + high * m == n - n % m
  {
    MulRegroups(w, pk, m);
    MulOverPlus(w * pk, high, m);
    RemainderIs(w * pk + high, m, low);
  }

  /** The first k digits of a fraction carry everything but the remainder. */
  lemma CutAt(n: nat, w: nat, f: string, k: nat)
    requires AllDigits(f) && k <= |f| && n == w * Pow10(|f|) + Value(f)
    ensures AllDigits(f[..k])
    ensures w * Pow10(|f|) + FractionValue(f[..k], |f|) == n - n % Pow10(|f| - k)
  {
    var high, low := f[..k], f[k..];
    var v, m := Value(high), Pow10(|f| - k);
    assert v * m + Value(low) == Value(f) && Value(low) < m by {
      assert f == high + low;
      ValueOfConcat(high, low);
      ValueIsBounded(low);
    }
    assert Pow10(|f|) == Pow10(k) * m by {
      Pow10Adds(k, |f| - k);
    }
    CutArithmetic(n, w, v, Value(low), Pow10(|f|), Pow10(k), m);
    assert FractionValue(high, |f|) == v * m;
  }

  // ---------------------------------------------------------------- what is shown

  function ShownWhole(n: nat): (s: string)
    ensures s != "" && AllDigits(s)
  {
    if Whole(n) == "" then "0" else Whole(n)
  }

  function ShownFraction(n: nat, k: nat): string {
    TrimZeros(Take(TrimZeros(Fraction(n)), k))
  }

  lemma FmtPriceIs(n: nat, k: nat)
    ensures FmtPrice(n, k) == Joined(GroupFrom(ShownWhole(n), 0), ShownFraction(n, k))
  {
    DigitsAreDigits(ShownWhole(n));
    SplitOfJoined(ShownWhole(n), TrimZeros(Fraction(n)));
    assert FormatUnits(n) == Joined(ShownWhole(n), TrimZeros(Fraction(n)));
  }

  lemma ShownFractionValue(n: nat, k: nat)
    requires k <= DECIMALS
    ensures AllDigits(ShownFraction(n, k)) && |ShownFraction(n, k)| <= k
    ensures FractionValue(ShownFraction(n, k), DECIMALS) == FractionValue(Fraction(n)[..k], DECIMALS)
  {
    FractionTrimmed(Fraction(n)[..k], ShownFraction(n, k), DECIMALS);
  }

  function AmountOf(whole: string, f: string, d: nat): int
    requires AllDigits(whole) && AllDigits(f) && |f| <= d
  {
    Value(whole) * Pow10(d) + FractionValue(f, d)
  }

  lemma ParseUnitsOf(t: string, whole: string, f: string, d: nat)
    requires IsDecimal(t) && SplitDot(t) == (whole, f) && |f| <= d && (f != "" ==> f[|f| - 1] != '0')
    ensures AllDigits(whole) && AllDigits(f) && ParseUnits(t, d) == Wei(AmountOf(whole, f, d))
  {
    assert TrimZeros(f) == f;
    FractionPadded(f, d);
    ValueOfConcat(whole, PadRight(f, d));
  }

  lemma JoinedIsClean(whole: string, f: string)
    requires whole != "" && AllDigits(whole) && AllDigits(f)
    ensures Joined(whole, f) != "" && Joined(whole, f) != "."
    ensures TrimEnd(TrimStart(Joined(whole, f))) == Joined(whole, f)
  {
    var s := Joined(whole, f);
    assert s[0] == whole[0];
    assert s[|s| - 1] == if f == "" then whole[|whole| - 1] else f[|f| - 1];
    TrimmingDigits(s);
  }

  /** Reading back a whole part and a shown fraction. */
  lemma ParseOfJoined(whole: string, f: string)
    requires whole != "" && AllDigits(whole) && AllDigits(f) && |f| <= DECIMALS
    requires f != "" ==> f[|f| - 1] != '0'
    ensures ToWei(Joined(whole, f)) == Wei(AmountOf(whole, f, DECIMALS))
  {
    var t := Joined(whole, f);
    assert IsDecimal(t) && SplitDot(t) == (whole, f) by {
      assert '.' !in whole;
      SplitOfJoined(whole, f);
      JoinedIsClean(whole, f);
    }
    JoinedIsClean(whole, f);
    ParseUnitsOf(t, whole, f, DECIMALS);
  }

  // ---------------------------------------------------------------- the round trip

  lemma ShownFractionEnds(n: nat, k: nat)
    ensures ShownFraction(n, k) != "" ==> ShownFraction(n, k)[|ShownFraction(n, k)| - 1] != '0'
  {
  }

  /** Reading back what is shown, commas removed, gives the amount minus what does not fit into k fraction digits:
      display loses less than 10^(18-k) wei and never rounds up. */
  lemma DisplayLosesOnlyTheRemainder(n: nat, k: nat)
    requires k <= DECIMALS
    ensures ToWei(RemoveCommas(FmtPrice(n, k))) == Wei(n - n % Pow10(DECIMALS - k))
  {
    ShownReadsBack(n, k);
    ShownAmount(n, k);
  }

  lemma ShownUngrouped(n: nat, k: nat)
    requires AllDigits(ShownFraction(n, k))
    ensures RemoveCommas(FmtPrice(n, k)) == Joined(ShownWhole(n), ShownFraction(n, k))
  {
    FmtPriceIs(n, k);
    DigitsAreDigits(ShownWhole(n));
    DigitsAreDigits(ShownFraction(n, k));
    UngroupJoined(ShownWhole(n), ShownFraction(n, k));
  }

  lemma ShownReadsBack(n: nat, k: nat)
    requires k <= DECIMALS
    ensures AllDigits(ShownFraction(n, k)) && |ShownFraction(n, k)| <= DECIMALS
    ensures ToWei(RemoveCommas(FmtPrice(n, k))) == Wei(AmountOf(ShownWhole(n), ShownFraction(n, k), DECIMALS))
  {
    ShownFractionValue(n, k);
    ShownUngrouped(n, k);
    ShownFractionEnds(n, k);
    ParseOfJoined(ShownWhole(n), ShownFraction(n, k));
  }

  lemma ShownAmount(n: nat, k: nat)
    requires k <= DECIMALS && AllDigits(ShownFraction(n, k)) && |ShownFraction(n, k)| <= DECIMALS
    ensures AmountOf(ShownWhole(n), ShownFraction(n, k), DECIMALS) == n - n % Pow10(DECIMALS - k)
  {
    ShownFractionValue(n, k);
    WholeValue(n);
    NumberSplits(n);
    CutAt(n, Value(Whole(n)), Fraction(n), k);
    AmountIs(ShownWhole(n), ShownFraction(n, k), Value(Whole(n)), Fraction(n)[..k]);
  }

  lemma AmountIs(whole: string, f: string, w: nat, g: string)
    requires AllDigits(whole) && AllDigits(f) && |f| <= DECIMALS && AllDigits(g) && |g| <= DECIMALS
    requires Value(whole) == w && FractionValue(f, DECIMALS) == FractionValue(g, DECIMALS)
    ensures AmountOf(whole, f, DECIMALS) == w * Pow10(DECIMALS) + FractionValue(g, DECIMALS)
  {
  }

  lemma WholeValue(n: nat)
    ensures Value(ShownWhole(n)) == Value(Whole(n))
  {
    assert "0"[..0] == "";
  }

  lemma UngroupJoined(whole: string, f: string)
    requires ',' !in whole && ',' !in f
    ensures RemoveCommas(Joined(GroupFrom(whole, 0), f)) == Joined(whole, f)
  {
    RemoveCommasFrom(whole, 0);
    assert whole[0..] == whole;
    if f != "" {
      var g := GroupFrom(whole, 0);
      RemoveCommasConcat(g + ".", f);
      RemoveCommasConcat(g, ".");
      NoCommasToRemove(".");
      NoCommasToRemove(f);
      assert g + "." + f == (g + ".") + f;
    }
  }

  // ---------------------------------------------------------------- with the commas left in

  lemma {:induction false} SplitCovers(t: string)
    ensures forall c | c in t :: c == '.' || c in SplitDot(t).0 || c in SplitDot(t).1
  {
    if t != "" && t[0] != '.' {
      SplitCovers(t[1..]);
      assert t == [t[0]] + t[1..];
    }
  }

  lemma {:induction false} TrimStartKeeps(s: string, c: char)
    requires c in s && !IsSpace(c)
    ensures c in TrimStart(s)
  {
    if IsSpace(s[0]) {
      assert s == [s[0]] + s[1..];
      TrimStartKeeps(s[1..], c);
    }
  }

  lemma {:induction false} TrimEndKeeps(s: string, c: char)
    requires c in s && !IsSpace(c)
    ensures c in TrimEnd(s)
  {
    if IsSpace(s[|s| - 1]) {
      assert s == s[..|s| - 1] + [s[|s| - 1]];
      TrimEndKeeps(s[..|s| - 1], c);
    }
  }

  /** One character that is no digit, dot or space spoils the input. */
  lemma StrayCharacterIsRefused(v: string, c: char)
    requires c in v && !IsSpace(c) && !IsDigit(c) && c != '.'
    ensures ToWei(v) == NotANumber
  {
    TrimStartKeeps(v, c);
    TrimEndKeeps(TrimStart(v), c);
    SplitCovers(TrimEnd(TrimStart(v)));
  }

  lemma {:induction false} ShortIsNotGrouped(s: string, i: nat)
    requires i <= |s| <= 3
    ensures GroupFrom(s, i) == s[i..]
    decreases |s| - i
  {
    if i < |s| {
      ShortIsNotGrouped(s, i + 1);
      assert !CommaBefore(s, i);
      assert s[i..] == [s[i]] + s[i + 1..];
    }
  }

  lemma {:induction false} LongIsGrouped(s: string, i: nat)
    requires AllDigits(s) && |s| > 3 && i <= |s| - 3
    ensures ',' in GroupFrom(s, i)
    decreases |s| - i
  {
    var rest := GroupFrom(s, i + 1);
    if i == |s| - 3 {
      assert GroupFrom(s, i) == "," + [s[i]] + rest;
    } else {
      LongIsGrouped(s, i + 1);
      assert GroupFrom(s, i) == (if CommaBefore(s, i) then "," else "") + [s[i]] + rest;
    }
  }

  lemma GroupKeepsHead(s: string)
    requires s != ""
    ensures GroupFrom(s, 0) != "" && GroupFrom(s, 0)[0] == s[0]
  {
    assert GroupFrom(s, 0) == "" + [s[0]] + GroupFrom(s, 1);
  }

  lemma JoinedKeeps(whole: string, f: string, c: char)
    requires c in whole
    ensures c in Joined(whole, f)
  {
  }

  lemma NegativeShowsItsSign(n: int, k: nat)
    requires n < 0
    ensures '-' in FmtPrice(n, k)
  {
    var shown, f := ShownWhole(-n), TrimZeros(Fraction(-n));
    var whole := "-" + shown;
    assert FormatUnits(n) == Joined(whole, f) by {
      assert "-" + (shown + "." + f) == whole + "." + f;
    }
    DigitsAreDigits(shown);
    SplitOfJoined(whole, f);
    GroupKeepsHead(whole);
    JoinedKeeps(GroupFrom(whole, 0), TrimZeros(Take(f, k)), '-');
  }

  lemma WholeLength(n: nat)
    ensures n < Pow10(DECIMALS + 3) <==> |ShownWhole(n)| <= 3
  {
    if n < Pow10(DECIMALS + 3) {
      NumeralIsShort(n, DECIMALS + 3);
    } else {
      NumeralIsLong(n, DECIMALS + 3);
    }
  }

  lemma ShortShowsNoComma(n: nat, k: nat)
    requires k <= DECIMALS && n < Pow10(DECIMALS + 3)
    ensures RemoveCommas(FmtPrice(n, k)) == FmtPrice(n, k)
  {
    var whole := ShownWhole(n);
    FmtPriceIs(n, k);
    WholeLength(n);
    ShownFractionValue(n, k);
    ShownUngrouped(n, k);
    ShortIsNotGrouped(whole, 0);
    assert whole[0..] == whole;
  }

  lemma LongShowsAComma(n: nat, k: nat)
    requires n >= Pow10(DECIMALS + 3)
    ensures ',' in FmtPrice(n, k)
  {
    FmtPriceIs(n, k);
    WholeLength(n);
    LongIsGrouped(ShownWhole(n), 0);
    JoinedKeeps(GroupFrom(ShownWhole(n), 0), ShownFraction(n, k), ',');
  }

  lemma MarkIsRefused(text: string, mark: char)
    requires mark in text && (mark == '-' || mark == ',')
    ensures ToWei(text) == NotANumber
  {
    StrayCharacterIsRefused(text, mark);
  }

  /** The text as shown, commas and all, can be typed back exactly when the amount is not negative and below a thousand
      whole coins; then it reads as the same wei as with the commas removed. */
  lemma ShownTextReadsBackIff(n: int, k: nat)
    requires k <= DECIMALS
    ensures ToWei(FmtPrice(n, k)) ==
            if 0 <= n < Pow10(DECIMALS + 3) then Wei(n - n % Pow10(DECIMALS - k)) else NotANumber
  {
    if 0 <= n < Pow10(DECIMALS + 3) {
      ShortShowsNoComma(n, k);
      DisplayLosesOnlyTheRemainder(n, k);
    } else if n < 0 {
      NegativeShowsItsSign(n, k);
      MarkIsRefused(FmtPrice(n, k), '-');
    } else {
      LongShowsAComma(n, k);
      MarkIsRefused(FmtPrice(n, k), ',');
    }
  }

  // ---------------------------------------------------------------- what is shown, character by character

  lemma {:induction false} TailIsNotGrouped(s: string, i: nat)
    requires i <= |s| < i + 3
    ensures GroupFrom(s, i) == s[i..]
    decreases |s| - i
  {
    if i < |s| {
      TailIsNotGrouped(s, i + 1);
      assert s[i..] == [s[i]] + s[i + 1..];
      assert i > 0 ==> (|s| - i) % 3 != 0;
    }
  }

  lemma GroupsEnd(s: string, m: nat)
    requires AllDigits(s) && |s| == m + 3 && m > 0
    ensures GroupFrom(s, m) == "," + s[m..]
  {
    TailIsNotGrouped(s, m + 1);
    assert CommaBefore(s, m);
    assert s[m..] == [s[m]] + s[m + 1..];
  }

  lemma GroupStep(s: string, i: nat)
    requires i < |s|
    ensures GroupFrom(s, i) == (if CommaBefore(s, i) then "," else "") + [s[i]] + GroupFrom(s, i + 1)
  {
  }

  lemma Regrouped(c: string, d: string, g: string, t: string)
    ensures c + d + (g + "," + t) == (c + d + g) + "," + t
  {
  }

  lemma LastGroupStep(s: string, head: string, i: nat)
    requires |s| == |head| + 3 && head == s[..|head|] && i < |head|
    requires GroupFrom(s, i + 1) == GroupFrom(head, i + 1) + "," + s[|head|..]
    ensures GroupFrom(s, i) == GroupFrom(head, i) + "," + s[|head|..]
  {
    GroupStep(s, i);
    GroupStep(head, i);
    assert CommaBefore(s, i) <==> CommaBefore(head, i);
    Regrouped(if CommaBefore(s, i) then "," else "", [s[i]], GroupFrom(head, i + 1), s[|head|..]);
  }

  lemma {:induction false} LastGroup(s: string, head: string, i: nat)
    requires AllDigits(s) && head != "" && |s| == |head| + 3 && head == s[..|head|] && i <= |head|
    ensures GroupFrom(s, i) == GroupFrom(head, i) + "," + s[|head|..]
    decreases |s| - i
  {
    if i == |head| {
      GroupsEnd(s, i);
      assert GroupFrom(head, i) == "";
    } else {
      LastGroup(s, head, i + 1);
      LastGroupStep(s, head, i);
    }
  }

  /** Commas stand between groups of three digits counted from the right, and nowhere else. */
  lemma GroupsOfThree(s: string)
    requires AllDigits(s)
    ensures GroupFrom(s, 0) == if |s| <= 3 then s else GroupFrom(s[..|s| - 3], 0) + "," + s[|s| - 3..]
  {
    if |s| <= 3 {
      ShortIsNotGrouped(s, 0);
      assert s[0..] == s;
    } else {
      LongIsHeadAndGroup(s, s[..|s| - 3]);
    }
  }

  lemma LongIsHeadAndGroup(s: string, head: string)
    requires AllDigits(s) && |s| > 3 && head == s[..|s| - 3]
    ensures GroupFrom(s, 0) == GroupFrom(head, 0) + "," + s[|s| - 3..]
  {
    LastGroup(s, head, 0);
  }

  lemma {:induction false} GroupsBehindSign(s: string, i: nat)
    requires AllDigits(s) && i <= |s|
    ensures GroupFrom("-" + s, i + 1) == GroupFrom(s, i)
    decreases |s| - i
  {
    if i < |s| {
      GroupsBehindSign(s, i + 1);
      assert ("-" + s)[i] == if i == 0 then '-' else s[i - 1];
      assert CommaBefore("-" + s, i + 1) <==> CommaBefore(s, i);
    }
  }

  lemma JoinedBehindSign(whole: string, f: string)
    ensures Joined("-" + whole, f) == "-" + Joined(whole, f)
  {
    assert "-" + (whole + "." + f) == ("-" + whole) + "." + f;
  }

  /** A negative amount is shown as its opposite, behind a minus. */
  lemma NegativeIsShownAs(n: int, k: nat)
    requires n > 0
    ensures FmtPrice(-n, k) == "-" + FmtPrice(n, k)
  {
    var shown, f := ShownWhole(n), TrimZeros(Fraction(n));
    DigitsAreDigits(shown);
    FmtPriceIs(n, k);
    JoinedBehindSign(shown, f);
    SplitOfJoined("-" + shown, f);
    SignedGroups(shown);
    JoinedBehindSign(GroupFrom(shown, 0), ShownFraction(n, k));
  }

  lemma SignedGroups(s: string)
    requires AllDigits(s)
    ensures GroupFrom("-" + s, 0) == "-" + GroupFrom(s, 0)
  {
    GroupsBehindSign(s, 0);
  }

  /** The number without its last k digits. */
  function DroppingDigits(n: nat, k: nat): nat {
    if k == 0 then n else DroppingDigits(n / 10, k - 1)
  }

  /** That is its quotient by 10^k. */
  lemma {:induction false} DroppingIsDividing(n: nat, k: nat)
    ensures DroppingDigits(n, k) * Pow10(k) <= n < (DroppingDigits(n, k) + 1) * Pow10(k)
  {
    if k > 0 {
      var q, p := DroppingDigits(n / 10, k - 1), Pow10(k - 1);
      DroppingIsDividing(n / 10, k - 1);
      MulTen(q, p);
      MulTen(q + 1, p);
    }
  }

  lemma {:induction false} DropDigits(n: nat, k: nat)
    requires n >= Pow10(k)
    ensures |Numeral(n)| > k && Numeral(n)[..|Numeral(n)| - k] == Numeral(DroppingDigits(n, k))
  {
    if k == 0 {
      assert Numeral(n)[..|Numeral(n)|] == Numeral(n);
    } else {
      DropDigits(n / 10, k - 1);
      var d := Numeral(n / 10);
      assert Numeral(n) == d + [DigitChar(n % 10)];
      assert Numeral(n)[..|Numeral(n)| - k] == d[..|d| - (k - 1)];
    }
  }

  lemma {:induction false} NothingLeft(n: nat, k: nat)
    requires n < Pow10(k)
    ensures DroppingDigits(n, k) == 0
  {
    if k > 0 {
      NothingLeft(n / 10, k - 1);
    }
  }

  /** Before the point stand the whole coins, without leading zeros. */
  lemma WholeIsTheQuotient(n: nat)
    ensures ShownWhole(n) == Numeral(DroppingDigits(n, DECIMALS))
  {
    WholeDigits(n, DECIMALS);
  }

  lemma WholeDigits(n: nat, k: nat)
    requires k >= 1
    ensures var d := PadLeft(Numeral(n), k);
            |d| >= k && (if |d| == k then "0" else d[..|d| - k]) == Numeral(DroppingDigits(n, k))
  {
    if n >= Pow10(k) {
      DropDigits(n, k);
    } else {
      NumeralIsShort(n, k);
      NothingLeft(n, k);
    }
  }

  /** What is shown of an amount that is not negative: the whole coins in groups of three and at most k digits after the
      point, none of them a zero at the end; with no digit left there is no point. */
  lemma ShownIs(n: nat, k: nat)
    requires k <= DECIMALS
    ensures exists f ::
              && FmtPrice(n, k) == Joined(GroupFrom(Numeral(DroppingDigits(n, DECIMALS)), 0), f)
              && AllDigits(f) && |f| <= k && (f != "" ==> f[|f| - 1] != '0')
  {
    FmtPriceIs(n, k);
    WholeIsTheQuotient(n);
    ShownFractionValue(n, k);
    ShownFractionEnds(n, k);
  }

  // ---------------------------------------------------------------- what is read

  predicate AllSpaces(s: string) {
    forall i :: 0 <= i < |s| ==> IsSpace(s[i])
  }

  /** `text` is digits, perhaps a point and more digits, perhaps with space around. */
  predicate Spells(text: string, before: string, whole: string, dot: string, f: string, after: string) {
    && text == before + (whole + dot + f) + after
    && AllSpaces(before) && AllSpaces(after) && AllDigits(whole) && AllDigits(f)
    && whole + f != "" && (dot == "." || (dot == "" && f == ""))
  }

  lemma {:induction false} TrimStartCuts(s: string) returns (before: string)
    ensures s == before + TrimStart(s) && AllSpaces(before)
  {
    before := "";
    if s != "" && IsSpace(s[0]) {
      before := TrimStartCuts(s[1..]);
      before := [s[0]] + before;
      assert s == [s[0]] + s[1..];
    }
  }

  lemma {:induction false} TrimEndCuts(s: string) returns (after: string)
    ensures s == TrimEnd(s) + after && AllSpaces(after)
  {
    after := "";
    if s != "" && IsSpace(s[|s| - 1]) {
      after := TrimEndCuts(s[..|s| - 1]);
      after := after + [s[|s| - 1]];
      assert s == s[..|s| - 1] + [s[|s| - 1]];
    }
  }

  lemma {:induction false} TrimStartSkips(before: string, rest: string)
    requires AllSpaces(before) && rest != "" && !IsSpace(rest[0])
    ensures TrimStart(before + rest) == rest
  {
    if before == "" {
      assert before + rest == rest;
    } else {
      assert (before + rest)[1..] == before[1..] + rest;
      TrimStartSkips(before[1..], rest);
    }
  }

  lemma {:induction false} TrimEndSkips(rest: string, after: string)
    requires AllSpaces(after) && rest != "" && !IsSpace(rest[|rest| - 1])
    ensures TrimEnd(rest + after) == rest
    decreases |after|
  {
    if after == "" {
      assert rest + after == rest;
    } else {
      var n := |after| - 1;
      assert (rest + after)[..|rest + after| - 1] == rest + after[..n];
      TrimEndSkips(rest, after[..n]);
    }
  }

  lemma {:induction false} SplitDotJoins(t: string)
    ensures var (a, b) := SplitDot(t); t == a + b || t == a + "." + b
    ensures var (a, b) := SplitDot(t); t == a + b ==> b == ""
  {
    if t != "" && t[0] != '.' {
      SplitDotJoins(t[1..]);
      assert t == [t[0]] + t[1..];
    }
  }

  lemma {:induction false} SplitAtDot(whole: string, dot: string, f: string)
    requires AllDigits(whole) && (dot == "." || (dot == "" && f == ""))
    ensures SplitDot(whole + dot + f) == (whole, f)
  {
    var t := whole + dot + f;
    if whole == "" {
      assert t == dot + f;
      assert dot == "." ==> t[1..] == f;
    } else {
      assert t[0] == whole[0] && t[1..] == whole[1..] + dot + f;
      SplitAtDot(whole[1..], dot, f);
      assert whole == [whole[0]] + whole[1..];
    }
  }

  lemma TrimmedText(before: string, t: string, after: string)
    requires AllSpaces(before) && AllSpaces(after) && t != "" && !IsSpace(t[0]) && !IsSpace(t[|t| - 1])
    ensures TrimEnd(TrimStart(before + t + after)) == t
  {
    assert before + t + after == before + (t + after);
    TrimStartSkips(before, t + after);
    TrimEndSkips(t, after);
  }

  lemma SpelledText(text: string, before: string, whole: string, dot: string, f: string, after: string)
    requires Spells(text, before, whole, dot, f, after)
    ensures var t := TrimEnd(TrimStart(text));
            t == whole + dot + f && SplitDot(t) == (whole, f) && IsDecimal(t)
  {
    var t := whole + dot + f;
    assert forall i :: 0 <= i < |t| ==> IsDigit(t[i]) || t[i] == '.';
    TrimmedText(before, t, after);
    SplitAtDot(whole, dot, f);
  }

  /** Such a text reads as the digits before the point and the first eighteen after it; zeros at its end do not count,
      and a nineteenth digit that does is reported. */
  lemma SpelledIsRead(text: string, before: string, whole: string, dot: string, f: string, after: string)
    requires Spells(text, before, whole, dot, f, after)
    ensures AllDigits(TrimZeros(f))
    ensures ToWei(text) == if |TrimZeros(f)| > DECIMALS then TooFine
                           else Wei(Value(whole) * Pow10(DECIMALS) + FractionValue(TrimZeros(f), DECIMALS))
  {
    SpelledText(text, before, whole, dot, f, after);
    DigitsAreDigits(f);
    if |TrimZeros(f)| <= DECIMALS {
      ReadAmount(whole, TrimZeros(f), DECIMALS);
    }
  }

  lemma ReadAmount(whole: string, f: string, d: nat)
    requires AllDigits(whole) && AllDigits(f) && |f| <= d
    ensures AllDigits(whole + PadRight(f, d))
    ensures Value(whole + PadRight(f, d)) == AmountOf(whole, f, d)
  {
    FractionPadded(f, d);
    ValueOfConcat(whole, PadRight(f, d));
  }

  /** And nothing else is read. */
  lemma AcceptedIsSpelled(text: string)
    requires ToWei(text) != NotANumber
    ensures exists before, whole, dot, f, after :: Spells(text, before, whole, dot, f, after)
  {
    var before := TrimStartCuts(text);
    var after := TrimEndCuts(TrimStart(text));
    var t := TrimEnd(TrimStart(text));
    var (whole, f) := SplitDot(t);
    SplitDotJoins(t);
    var dot := if t == whole + f then "" else ".";
    assert t == whole + dot + f;
    assert text == before + t + after;
    assert whole + f != "" by {
      assert "" + "." == ".";
    }
    assert Spells(text, before, whole, dot, f, after);
  }

  lemma AcceptedIff(text: string)
    ensures ToWei(text) != NotANumber
            <==> exists before, whole, dot, f, after :: Spells(text, before, whole, dot, f, after)
  {
    if ToWei(text) != NotANumber {
      AcceptedIsSpelled(text);
    }
    if before, whole, dot, f, after :| Spells(text, before, whole, dot, f, after) {
      SpelledText(text, before, whole, dot, f, after);
    }
  }
}
