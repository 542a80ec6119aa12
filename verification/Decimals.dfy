/**
 * Decimal strings: the request grammars of quantities and tax rates, their
 * scaled value, the padded text a numeric(.,6) column returns, and the
 * canonical form the service reads back.
 */
module Decimals {
  import opened Wrappers
  import opened Arithmetic

  predicate IsDigit(c: char) { '0' <= c <= '9' }

  predicate AllDigits(s: string) { forall i | 0 <= i < |s| :: IsDigit(s[i]) }

  /** Position of the decimal point, or the length of the string. */
  function PointAt(s: string): (i: nat)
    ensures i <= |s|
    ensures forall j | 0 <= j < i :: s[j] != '.'
    ensures i < |s| ==> s[i] == '.'
  {
    if s == "" || s[0] == '.' then 0 else 1 + PointAt(s[1..])
  }

  function Whole(s: string): string { s[..PointAt(s)] }

  function Fraction(s: string): string {
    if PointAt(s) < |s| then s[PointAt(s) + 1..] else ""
  }

  predicate IsFraction(f: string) {
    1 <= |f| <= 6 && AllDigits(f) && f[|f| - 1] != '0'
  }

  predicate IsPositiveWhole(w: string) {
    1 <= |w| <= 4 && AllDigits(w) && w[0] != '0'
  }

  /** ^(?:[1-9][0-9]{0,3}(?:\.[0-9]{0,5}[1-9])?|0\.[0-9]{0,5}[1-9])$ */
  predicate IsQuantity(s: string) {
    || IsPositiveWhole(s)
    || (PointAt(s) < |s| && IsFraction(Fraction(s)) && (IsPositiveWhole(Whole(s)) || Whole(s) == "0"))
  }

  /** ^(?:0\.[0-9]{0,5}[1-9]|1)$ */
  predicate IsTaxRate(s: string) {
    s == "1" || (PointAt(s) < |s| && IsFraction(Fraction(s)) && Whole(s) == "0")
  }

  function DigitValue(c: char): nat
    requires IsDigit(c)
  {
    c as int - '0' as int
  }

  function Digits(s: string): nat
    requires AllDigits(s)
  {
    if s == "" then 0 else 10 * Digits(s[..|s| - 1]) + DigitValue(s[|s| - 1])
  }

  predicate IsDecimal(s: string) {
    AllDigits(Whole(s)) && AllDigits(Fraction(s))
  }

  /** The first six fractional digits, padded with zeros. */
  function SixDigits(fraction: string): string {
    (fraction + "000000")[..6]
  }

  function ScaleDecimal(s: string): nat
    requires IsDecimal(s)
  {
    Digits(Whole(s)) * SCALE + Digits(SixDigits(Fraction(s)))
  }

  /** Text of a numeric(.,6) column that stored `s`. */
  function Padded(s: string): string {
    Whole(s) + "." + SixDigits(Fraction(s))
  }

  function StripZeros(s: string): string {
    if s != "" && s[|s| - 1] == '0' then StripZeros(s[..|s| - 1]) else s
  }

  function CanonicalDecimal(v: string): string {
    if '.' !in v then v
    else
      var stripped := StripZeros(v);
      if stripped != "" && stripped[|stripped| - 1] == '.' then stripped[..|stripped| - 1] else stripped
  }

  function Zeros(n: nat): string { seq(n, _ => '0') }

  lemma {:induction false} StripZerosOfPadding(s: string, n: nat)
    requires s != "" && s[|s| - 1] != '0'
    ensures StripZeros(s + Zeros(n)) == s
  {
    if n == 0 {
      assert s + Zeros(0) == s;
    } else {
      var t := s + Zeros(n);
      assert t[..|t| - 1] == s + Zeros(n - 1);
      StripZerosOfPadding(s, n - 1);
    }
  }

  lemma {:induction false} PointAtOf(w: string, f: string)
    requires AllDigits(w)
    ensures PointAt(w + "." + f) == |w|
    ensures Whole(w + "." + f) == w && Fraction(w + "." + f) == f
  {
    var s := w + "." + f;
    assert s[|w|] == '.';
    assert forall j | 0 <= j < |w| :: s[j] == w[j] && IsDigit(w[j]);
  }

  lemma GrammarsAreDecimal(s: string)
    requires IsQuantity(s) || IsTaxRate(s)
    ensures IsDecimal(s)
    ensures PointAt(s) == |s| || IsFraction(Fraction(s))
    ensures PointAt(s) == |s| ==> AllDigits(s) && s != ""
  {
    if PointAt(s) == |s| {
      assert Whole(s) == s;
    } else {
      assert !AllDigits(s) by { assert !IsDigit(s[PointAt(s)]); }
    }
  }

  /** What a request accepted is what the service reads back after the column padded it. */
  lemma CanonicalUndoesPadding(s: string)
    requires IsQuantity(s) || IsTaxRate(s)
    ensures CanonicalDecimal(Padded(s)) == s
  {
    GrammarsAreDecimal(s);
    var f := Fraction(s);
    var n := 6 - |f|;
    assert SixDigits(f) == f + Zeros(n);
    var kept := Whole(s) + "." + f;
    assert Padded(s) == kept + Zeros(n);
    assert '.' in Padded(s) by { assert Padded(s)[|Whole(s)|] == '.'; }
    StripZerosOfPadding(kept, n);
    if PointAt(s) == |s| {
      assert kept[..|kept| - 1] == s;
    } else {
      assert kept == s;
      assert IsDigit(f[|f| - 1]);
    }
  }

  /** The padded text has the value that was stored. */
  lemma PaddingKeepsValue(s: string)
    requires IsQuantity(s) || IsTaxRate(s)
    ensures IsDecimal(s) && IsDecimal(Padded(s)) && ScaleDecimal(Padded(s)) == ScaleDecimal(s)
    ensures |Fraction(Padded(s))| == 6 && Whole(Padded(s)) == Whole(s)
  {
    GrammarsAreDecimal(s);
    var six := SixDigits(Fraction(s));
    PointAtOf(Whole(s), six);
    assert SixDigits(six) == six;
  }

  function Power10(n: nat): pos { if n == 0 then 1 else 10 * Power10(n - 1) }

  lemma {:induction false} DigitsBelow(s: string)
    requires AllDigits(s)
    ensures Digits(s) < Power10(|s|)
    decreases |s|
  {
    if s != "" { DigitsBelow(s[..|s| - 1]); }
  }

  lemma {:induction false} SomeDigitIsPositive(s: string, i: nat)
    requires AllDigits(s) && i < |s| && s[i] != '0'
    ensures 0 < Digits(s)
    decreases |s|
  {
    if i < |s| - 1 { SomeDigitIsPositive(s[..|s| - 1], i); }
  }

  lemma Powers()
    ensures Power10(1) == 10 && Power10(2) == 100 && Power10(3) == 1000 && Power10(4) == 10_000 && Power10(6) == 1_000_000
  {
  }

  lemma ZeroAndOne()
    ensures Digits("0") == 0 && Digits("1") == 1 && AllDigits("0") && AllDigits("1")
  {
    assert "0"[..0] == "" && "1"[..0] == "";
  }

  /** Whole parts of the grammars are below 10000, and positive unless they are 0. */
  lemma WholeIsBounded(w: string)
    requires IsPositiveWhole(w) || w == "0"
    ensures AllDigits(w) && Digits(w) <= 9_999 && (w != "0" ==> 0 < Digits(w))
  {
    ZeroAndOne();
    if IsPositiveWhole(w) {
      Powers();
      DigitsBelow(w);
      SomeDigitIsPositive(w, 0);
    }
  }

  /** Fractions of the grammars are positive and below one. */
  lemma FractionIsBounded(f: string)
    requires IsFraction(f)
    ensures AllDigits(SixDigits(f)) && 0 < Digits(SixDigits(f)) < 1_000_000
  {
    var six := SixDigits(f);
    Powers();
    DigitsBelow(six);
    assert six[|f| - 1] == f[|f| - 1];
    SomeDigitIsPositive(six, |f| - 1);
  }

  lemma NoFraction()
    ensures AllDigits(SixDigits("")) && Digits(SixDigits("")) == 0
  {
    assert SixDigits("") == Zeros(6);
    ZerosAreZero(6);
  }

  /** The grammars bound the scaled values: 0 < quantity < 10^10 and 0 < rate <= 10^6. */
  lemma GrammarsBoundValues(s: string)
    ensures IsQuantity(s) ==> IsDecimal(s) && 0 < ScaleDecimal(s) <= 9_999_999_999
    ensures IsTaxRate(s) ==> IsDecimal(s) && 0 < ScaleDecimal(s) <= SCALE
  {
    if IsQuantity(s) || IsTaxRate(s) {
      GrammarsAreDecimal(s);
      ZeroAndOne();
      NoFraction();
      if PointAt(s) == |s| { assert Whole(s) == s; }
      WholeIsBounded(Whole(s));
      if PointAt(s) < |s| { FractionIsBounded(Fraction(s)); }
    }
  }

  lemma {:induction false} ZerosAreZero(n: nat)
    ensures AllDigits(Zeros(n)) && Digits(Zeros(n)) == 0
  {
    if n > 0 {
      assert Zeros(n)[..n - 1] == Zeros(n - 1);
      ZerosAreZero(n - 1);
    }
  }

  // ---------- the value of a text ----------

  /** A digit is worth its place in 0123456789. */
  lemma DigitsOfOne(c: char)
    requires IsDigit(c)
    ensures Digits([c]) == c as int - 48
  {
    assert Digits([c]) == 10 * Digits([c][..0]) + DigitValue(c);
  }

  /** Every digit counts ten times the one after it. */
  lemma {:induction false} DigitsArePositional(a: string, b: string)
    requires AllDigits(a) && AllDigits(b)
    ensures AllDigits(a + b) && Digits(a + b) == Digits(a) * Power10(|b|) + Digits(b)
    decreases |b|
  {
    if b == "" {
      assert a + b == a;
    } else {
      assert (a + b)[..|a + b| - 1] == a + b[..|b| - 1];
      DigitsArePositional(a, b[..|b| - 1]);
      TenTimes(Digits(a), Power10(|b| - 1));
    }
  }

  lemma TenTimes(a: int, power: int)
    ensures 10 * (a * power) == a * (10 * power)
  {
  }

  lemma {:induction false} ZerosShift(f: string, n: nat)
    requires AllDigits(f)
    ensures AllDigits(f + Zeros(n)) && Digits(f + Zeros(n)) == Digits(f) * Power10(n)
  {
    ZerosAreZero(n);
    DigitsArePositional(f, Zeros(n));
  }

  lemma {:induction false} PowersMultiply(a: nat, b: nat)
    ensures Power10(a) * Power10(b) == Power10(a + b)
    decreases a
  {
    if a > 0 { PowersMultiply(a - 1, b); }
  }

  lemma SixFractionDigits(f: string)
    requires AllDigits(f) && |f| <= 6
    ensures AllDigits(SixDigits(f)) && Digits(SixDigits(f)) * Power10(|f|) == Digits(f) * 1_000_000
  {
    var rest := 6 - |f|;
    assert SixDigits(f) == f + Zeros(rest);
    ZerosShift(f, rest);
    PowersMultiply(rest, |f|);
    Million();
    Regroups(Digits(f), Power10(rest), Power10(|f|), 1_000_000);
  }

  lemma Regroups(a: int, b: int, c: int, product: int)
    requires b * c == product
    ensures a * b * c == a * product
  {
    Associates(a, b, c);
  }

  lemma Associates(a: int, b: int, c: int)
    ensures a * b * c == a * (b * c)
  {
  }

  /** The scaled value of a decimal text is a millionth-fold of its digits, shifted by the digits after the point. */
  lemma ScaledIsValue(w: string, f: string)
    requires AllDigits(w) && AllDigits(f) && |f| <= 6
    ensures IsDecimal(w + "." + f) && ScaleDecimal(w + "." + f) * Power10(|f|) == (Digits(w) * Power10(|f|) + Digits(f)) * 1_000_000
    ensures IsDecimal(w) && ScaleDecimal(w) == Digits(w) * 1_000_000
  {
    SplitAtPoint(w, f);
    SixFractionDigits(f);
    WholeAlone(w);
    ShiftedSum(ScaleDecimal(w + "." + f), Digits(w), Digits(SixDigits(f)), Digits(f), Power10(|f|));
  }

  lemma Million()
    ensures Power10(6) == 1_000_000
  {
  }

  lemma SplitAtPoint(w: string, f: string)
    requires AllDigits(w) && AllDigits(f) && |f| <= 6
    ensures IsDecimal(w + "." + f) && AllDigits(SixDigits(f)) && ScaleDecimal(w + "." + f) == Digits(w) * SCALE + Digits(SixDigits(f))
  {
    PointAtOf(w, f);
    SixFractionDigits(f);
  }

  lemma ShiftedSum(scaled: nat, whole: nat, six: nat, digits: nat, power: nat)
    requires scaled == whole * SCALE + six && six * power == digits * 1_000_000
    ensures scaled * power == (whole * power + digits) * 1_000_000
  {
    Distributes(power, whole * SCALE, six);
    Associates(whole, SCALE, power);
    Associates(whole, power, SCALE);
  }

  lemma WholeAlone(w: string)
    requires AllDigits(w)
    ensures IsDecimal(w) && ScaleDecimal(w) == Digits(w) * 1_000_000
  {
    assert forall i | 0 <= i < |w| :: IsDigit(w[i]) && w[i] != '.';
    assert Whole(w) == w && Fraction(w) == "" && SixDigits("") == Zeros(6);
    ZerosAreZero(6);
  }

  // ---------- every value has exactly one text ----------

  function DigitChar(n: nat): (c: char)
    requires n < 10
    ensures IsDigit(c) && DigitValue(c) == n
  {
    '0' + n as char
  }

  /** The digits of a number without leading zeros. */
  function Text(n: nat): string { if n < 10 then [DigitChar(n)] else Text(n / 10) + [DigitChar(n % 10)] }

  /** Exactly k digits. */
  function Fixed(n: nat, k: nat): string { if k == 0 then "" else Fixed(n / 10, k - 1) + [DigitChar(n % 10)] }

  lemma {:induction false} TextIsNumber(n: nat, k: nat)
    requires 0 < k && n < Power10(k)
    ensures AllDigits(Text(n)) && Digits(Text(n)) == n && 0 < |Text(n)| <= k && (n > 0 ==> Text(n)[0] != '0')
    decreases n
  {
    if n < 10 {
      DigitsOfOne(DigitChar(n));
    } else {
      assert k > 1;
      TextIsNumber(n / 10, k - 1);
      assert Text(n)[..|Text(n)| - 1] == Text(n / 10);
    }
  }

  lemma {:induction false} FixedIsNumber(n: nat, k: nat)
    requires n < Power10(k)
    ensures AllDigits(Fixed(n, k)) && |Fixed(n, k)| == k && Digits(Fixed(n, k)) == n
    decreases k
  {
    if k > 0 {
      FixedIsNumber(n / 10, k - 1);
      assert Fixed(n, k)[..k - 1] == Fixed(n / 10, k - 1);
    }
  }

  lemma {:induction false} StripSplits(s: string)
    ensures var kept := StripZeros(s);
            && |kept| <= |s| && s == kept + Zeros(|s| - |kept|) && (kept != "" ==> kept[|kept| - 1] != '0')
    decreases |s|
  {
    if s != "" && s[|s| - 1] == '0' {
      StripSplits(s[..|s| - 1]);
      var kept := StripZeros(s);
      assert s == s[..|s| - 1] + "0";
      assert Zeros(|s| - |kept|) == Zeros(|s| - 1 - |kept|) + "0";
    } else {
      assert s == s + Zeros(0);
    }
  }

  /** A fraction of at most six digits without trailing zeros, for any positive number of millionths. */
  lemma FractionOf(m: nat) returns (f: string)
    requires 0 < m < 1_000_000
    ensures IsFraction(f) && AllDigits(SixDigits(f)) && Digits(SixDigits(f)) == m
  {
    Powers();
    FixedIsNumber(m, 6);
    StripSplits(Fixed(m, 6));
    f := StripZeros(Fixed(m, 6));
    assert forall i | 0 <= i < |f| :: f[i] == Fixed(m, 6)[i] && IsDigit(f[i]);
    ZerosAreZero(6);
    assert "" + Zeros(6) == Zeros(6);
    assert SixDigits(f) == f + Zeros(6 - |f|);
  }

  lemma WholeOf(w: nat)
    requires w <= 9_999
    ensures AllDigits(Text(w)) && Digits(Text(w)) == w && (IsPositiveWhole(Text(w)) || (w == 0 && Text(w) == "0"))
  {
    Powers();
    TextIsNumber(w, 4);
  }

  lemma {:induction false} LeadingDigit(s: string)
    requires AllDigits(s) && s != "" && s[0] != '0'
    ensures Power10(|s| - 1) <= Digits(s)
    decreases |s|
  {
    if |s| > 1 { LeadingDigit(s[..|s| - 1]); }
  }

  lemma {:induction false} SameLengthSameText(a: string, b: string)
    requires AllDigits(a) && AllDigits(b) && |a| == |b| && Digits(a) == Digits(b)
    ensures a == b
    decreases |a|
  {
    if a != "" {
      var n := |a| - 1;
      assert DigitValue(a[n]) == Digits(a) % 10 && DigitValue(b[n]) == Digits(b) % 10;
      SameLengthSameText(a[..n], b[..n]);
      assert a == a[..n] + [a[n]] && b == b[..n] + [b[n]];
    }
  }

  lemma SameWholeSameText(a: string, b: string)
    requires (IsPositiveWhole(a) || a == "0") && (IsPositiveWhole(b) || b == "0") && AllDigits(a) && AllDigits(b) && Digits(a) == Digits(b)
    ensures a == b
  {
    WholeIsBounded(a);
    WholeIsBounded(b);
    ZeroAndOne();
    if IsPositiveWhole(a) && IsPositiveWhole(b) {
      LeadingDigit(a);
      LeadingDigit(b);
      DigitsBelow(a);
      DigitsBelow(b);
      SameLengthSameText(a, b);
    }
  }

  /** Two texts of the grammars with one value are the same text. */
  lemma TextsAreUnique(s: string, t: string)
    requires (IsQuantity(s) || IsTaxRate(s)) && (IsQuantity(t) || IsTaxRate(t))
    requires IsDecimal(s) && IsDecimal(t) && ScaleDecimal(s) == ScaleDecimal(t)
    ensures s == t
  {
    SplitsValue(s);
    SplitsValue(t);
    SameWholeSameText(Whole(s), Whole(t));
    SameLengthSameText(SixDigits(Fraction(s)), SixDigits(Fraction(t)));
    CanonicalUndoesPadding(s);
    CanonicalUndoesPadding(t);
  }

  /** The whole part and the millionths of a value. */
  lemma SplitsValue(s: string)
    requires IsQuantity(s) || IsTaxRate(s)
    ensures IsDecimal(s) && AllDigits(SixDigits(Fraction(s))) && (IsPositiveWhole(Whole(s)) || Whole(s) == "0")
    ensures Digits(Whole(s)) == ScaleDecimal(s) / SCALE && Digits(SixDigits(Fraction(s))) == ScaleDecimal(s) % SCALE
  {
    GrammarsAreDecimal(s);
    NoFraction();
    if PointAt(s) == |s| { assert Whole(s) == s; } else { FractionIsBounded(Fraction(s)); }
  }

  /** Every quantity from 0.000001 to 9999.999999 in millionths is written in exactly one way, and nothing else is one. */
  lemma QuantitiesAreExactly(n: nat)
    ensures (exists s :: IsQuantity(s) && IsDecimal(s) && ScaleDecimal(s) == n) <==> 0 < n <= 9_999_999_999
  {
    if 0 < n <= 9_999_999_999 {
      var w, m := n / SCALE, n % SCALE;
      WholeOf(w);
      if m == 0 {
        WholeAlone(Text(w));
        assert IsQuantity(Text(w));
      } else {
        var f := FractionOf(m);
        PointAtOf(Text(w), f);
        assert IsQuantity(Text(w) + "." + f) && ScaleDecimal(Text(w) + "." + f) == n;
      }
    }
    forall s | IsQuantity(s) && IsDecimal(s) && ScaleDecimal(s) == n ensures 0 < n <= 9_999_999_999 { GrammarsBoundValues(s); }
  }

  /** Every rate from 0.000001 to 1 in millionths likewise. */
  lemma RatesAreExactly(n: nat)
    ensures (exists s :: IsTaxRate(s) && IsDecimal(s) && ScaleDecimal(s) == n) <==> 0 < n <= 1_000_000
  {
    if n == 1_000_000 {
      ZeroAndOne();
      WholeAlone("1");
      assert IsTaxRate("1");
    } else if 0 < n < 1_000_000 {
      var f := FractionOf(n);
      ZeroAndOne();
      PointAtOf("0", f);
      assert IsTaxRate("0" + "." + f) && ScaleDecimal("0" + "." + f) == n;
    }
    forall s | IsTaxRate(s) && IsDecimal(s) && ScaleDecimal(s) == n ensures 0 < n <= 1_000_000 { GrammarsBoundValues(s); }
  }
}
