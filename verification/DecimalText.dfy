/** Exact decimals: their physical widths, and their text. Text is a string
    with one character per byte. */
module DecimalText {
  import opened Basics
  import opened LogicalTypes
  import opened Values

  function Pow10(n: nat): (p: nat)
    ensures p > 0
  {
    if n == 0 then 1 else 10 * Pow10(n - 1)
  }

  lemma {:induction false} Pow10Grows(m: nat, n: nat)
    requires m <= n
    ensures Pow10(m) <= Pow10(n)
    decreases n - m
  {
    if m < n {
      Pow10Grows(m, n - 1);
    }
  }

  function Magnitude(v: int): nat { if v < 0 then -v else v }

  // ---- physical widths ------------------------------------------------------------

  lemma Powers()
    ensures 2 * Pow10(4) < P16 && 2 * Pow10(9) < P32 && 2 * Pow10(18) < P64 && 2 * Pow10(38) < P128
  {
    assert Pow10(9) == 1_000_000_000 by { assert Pow10(4) == 10_000; }
    assert Pow10(18) == 1_000_000_000_000_000_000 by { assert Pow10(13) == 10_000_000_000_000; }
    assert Pow10(28) == 10_000_000_000_000_000_000_000_000_000 by { assert Pow10(23) == 100_000_000_000_000_000_000_000; }
    assert Pow10(38) == 100_000_000_000_000_000_000_000_000_000_000_000_000 by {
      assert Pow10(33) == 1_000_000_000_000_000_000_000_000_000_000_000;
    }
  }

  /** A decimal of at most `width` digits fits the bytes its width gets. */
  lemma WidthSuffices(width: nat, unscaled: int)
    requires width <= 38 && Magnitude(unscaled) < Pow10(width)
    ensures IsSigned(unscaled, Pow256(DecimalBytes(width))) && IsSigned(unscaled, P128)
  {
    hide Pow10;
    Powers();
    WordSizes();
    Pow10Grows(width, if width <= 4 then 4 else if width <= 9 then 9 else if width <= 18 then 18 else 38);
  }

  /** Building a decimal, truncating it to its physical width and widening it
      again loses nothing. */
  lemma DecimalColumnExact(t: LogicalType, unscaled: int)
    requires t.id == DECIMAL && t.width <= 38 && Magnitude(unscaled) < Pow10(t.width)
    ensures var v := VDecimal(NewDecimal(t.width, t.scale, unscaled));
            && CellTyped(t, v) && BigInt(v.d) == unscaled
            && DecodeCell(t, CellBytes(t, v)) == Some(v)
  {
    hide CellBytes, DecodeCell, NewDecimal, BigInt;
    WidthSuffices(t.width, unscaled);
    NewDecimalExact(t.width, t.scale, unscaled);
    NewDecimalLabels(t.width, t.scale, unscaled);
    CellBack(t, VDecimal(NewDecimal(t.width, t.scale, unscaled)));
  }

  lemma NewDecimalLabels(width: nat, scale: nat, unscaled: int)
    ensures NewDecimal(width, scale, unscaled).width == width && NewDecimal(width, scale, unscaled).scale == scale
  {
  }

  // ---- digits -----------------------------------------------------------------------

  function Digit(n: nat): char
    requires n < 10
  {
    "0123456789"[n]
  }

  predicate IsDigit(c: char) { '0' <= c <= '9' }

  predicate AllDigits(s: string)
  {
    forall i :: 0 <= i < |s| ==> IsDigit(s[i])
  }

  /** strconv and big.Int's decimal text of a natural number. */
  function Digits(n: nat): (s: string)
    ensures |s| > 0 && AllDigits(s)
    ensures s[0] == '0' ==> n == 0 && |s| == 1
  {
    if n < 10 then [Digit(n)] else Digits(n / 10) + [Digit(n % 10)]
  }

  /** Exactly `k` digits. */
  function FixedDigits(n: nat, k: nat): (s: string)
    ensures |s| == k && AllDigits(s)
  {
    if k == 0 then "" else FixedDigits(n / 10, k - 1) + [Digit(n % 10)]
  }

  function DigitValue(c: char): int { c as int - '0' as int }

  lemma DigitIs(n: nat)
    requires n < 10
    ensures DigitValue(Digit(n)) == n
  {
  }

  function NumberOf(s: string): int
  {
    if s == "" then 0 else 10 * NumberOf(s[..|s| - 1]) + DigitValue(s[|s| - 1])
  }

  lemma {:induction false} DigitsBack(n: nat)
    ensures NumberOf(Digits(n)) == n
    decreases n
  {
    if n >= 10 {
      DigitsBack(n / 10);
      assert Digits(n)[..|Digits(n)| - 1] == Digits(n / 10);
    }
  }

  lemma QuotientIsNat(n: nat, p: nat)
    requires p > 0
    ensures n / p >= 0
  {
  }

  function WholePart(n: nat, k: nat): nat
  {
    QuotientIsNat(n, Pow10(k));
    n / Pow10(k)
  }

  function FracPart(n: nat, k: nat): (b: nat)
    ensures b < Pow10(k)
  {
    n % Pow10(k)
  }

  /** `10 q + r` split at the `k+1`-th digit. */
  lemma SplitDigits(q: nat, r: nat, k: nat)
    requires r < 10
    ensures WholePart(10 * q + r, k + 1) == WholePart(q, k)
    ensures FracPart(10 * q + r, k + 1) == 10 * FracPart(q, k) + r
  {
    var p := Pow10(k);
    var a, b := q / p, q % p;
    assert q == a * p + b;
    assert 10 * q + r == a * (10 * p) + (10 * b + r);
    ModUnique(10 * q + r, 10 * p, a, 10 * b + r);
  }

  lemma {:induction false} FixedBack(a: nat, b: nat, k: nat)
    requires b < Pow10(k)
    ensures NumberOf(Digits(a) + FixedDigits(b, k)) == a * Pow10(k) + b
    decreases k
  {
    var s := Digits(a) + FixedDigits(b, k);
    if k == 0 {
      assert s == Digits(a);
      DigitsBack(a);
    } else {
      hide Digits, Digit;
      FixedBack(a, b / 10, k - 1);
      assert FixedDigits(b, k)[k - 1] == Digit(b % 10) && DigitValue(Digit(b % 10)) == b % 10 by { DigitIs(b % 10); }
      assert s[..|s| - 1] == Digits(a) + FixedDigits(b / 10, k - 1);
      TenTimes(a, Pow10(k - 1));
    }
  }

  lemma TenTimes(a: nat, p: nat)
    ensures a * (10 * p) == 10 * (a * p)
  {
  }

  // ---- Decimal.String ----------------------------------------------------------------

  function Zeros(n: nat): (s: string)
    ensures |s| == n && AllDigits(s)
  {
    seq(n, i => '0')
  }

  /** The text of `unscaled / 10^scale`: sign, whole part, and exactly `scale`
      fraction digits. */
  function Text(unscaled: int, scale: nat): string
  {
    (if unscaled < 0 then "-" else "") + Unsigned(Magnitude(unscaled), scale)
  }

  function Unsigned(n: nat, scale: nat): string
  {
    Digits(WholePart(n, scale)) + (if scale > 0 then "." + FixedDigits(FracPart(n, scale), scale) else "")
  }

  /** Padding to more than `scale` digits, as %0*s does it. */
  function Padded(n: nat, scale: nat): string
  {
    var s := Digits(n);
    if scale >= |s| then Zeros(scale + 1 - |s|) + s else s
  }

  lemma PaddedStep(n: nat, scale: nat)
    requires scale > 0
    ensures Padded(n, scale) == Padded(n / 10, scale - 1) + [Digit(n % 10)]
  {
    if n < 10 {
      assert Zeros(scale - 1) + "0" == Zeros(scale);
      assert Digits(n / 10) == "0";
      assert scale - 1 > 0 ==> Padded(0, scale - 1) == Zeros(scale - 1) + "0";
      assert Padded(0, scale - 1) == Zeros(scale);
    } else {
      assert |Digits(n)| == |Digits(n / 10)| + 1;
      assert Padded(n, scale) == Padded(n / 10, scale - 1) + [Digit(n % 10)];
    }
  }

  lemma FixedStep(b: nat, r: nat, k: nat)
    requires r < 10 && k > 0
    ensures FixedDigits(10 * b + r, k) == FixedDigits(b, k - 1) + [Digit(r)]
  {
  }

  ghost predicate Splits(n: nat, scale: nat)
  {
    Padded(n, scale) == Digits(WholePart(n, scale)) + FixedDigits(FracPart(n, scale), scale)
  }

  /** The padded digits are the whole part and the fraction. */
  lemma {:induction false} PaddedSplits(n: nat, scale: nat)
    ensures Splits(n, scale)
    decreases scale
  {
    if scale == 0 {
      assert n / 1 == n && Padded(n, 0) == Digits(n) && Digits(n) + "" == Digits(n);
    } else {
      PaddedSplits(n / 10, scale - 1);
      PaddedGrows(n, scale - 1);
    }
  }

  /** One more digit behind: a longer fraction. */
  lemma PaddedGrows(n: nat, k: nat)
    requires Splits(n / 10, k)
    ensures Splits(n, k + 1)
  {
    hide Digits, FixedDigits, Padded, Digit, Pow10;
    var q, r := n / 10, n % 10;
    assert n == 10 * q + r;
    SplitDigits(q, r, k);
    PaddedStep(n, k + 1);
    FixedStep(FracPart(q, k), r, k + 1);
    var whole, frac := Digits(WholePart(q, k)), FixedDigits(FracPart(q, k), k);
    assert (whole + frac) + [Digit(r)] == whole + (frac + [Digit(r)]);
  }

  /** Decimal.String */
  method String(d: Decimal) returns (s: string)
    ensures s == Text(BigInt(d), d.scale)
  {
    hide Digits, FixedDigits, Pow10, BigInt, Zeros;
    var v := BigInt(d);
    var neg := v < 0;
    if neg {
      v := -v;
    }
    s := Digits(v);
    if d.scale >= |s| {
      s := Zeros(d.scale + 1 - |s|) + s;
    }
    PaddedSplits(v, d.scale);
    ghost var whole, frac := Digits(WholePart(v, d.scale)), FixedDigits(FracPart(v, d.scale), d.scale);
    assert s == whole + frac;
    if d.scale > 0 {
      var cut := |s| - d.scale;
      assert s[..cut] == whole && s[cut..] == frac;
      s := s[..cut] + "." + s[cut..];
      assert s == whole + ("." + frac);
    }
    if neg {
      s := "-" + s;
    }
    assert "" + Unsigned(v, d.scale) == Unsigned(v, d.scale);
  }

  // ---- reading decimals ----------------------------------------------------------------

  /** The number of leading digits. */
  function DigitRun(s: string): (n: nat)
    ensures n <= |s| && AllDigits(s[..n])
    ensures n < |s| ==> !IsDigit(s[n])
  {
    if s == "" || !IsDigit(s[0]) then 0
    else
      var n := DigitRun(s[1..]);
      assert s[..n + 1] == [s[0]] + s[1..][..n];
      n + 1
  }

  predicate IsExponent(s: string)
  {
    s == "" ||
    (&& (s[0] == 'e' || s[0] == 'E')
     && var digits := if |s| > 1 && (s[1] == '+' || s[1] == '-') then s[2..] else s[1..];
        digits != "" && AllDigits(digits))
  }

  predicate IsFraction(s: string)
  {
    if s != "" && s[0] == '.' then
      var n := DigitRun(s[1..]);
      n > 0 && IsExponent(s[n + 1..])
    else IsExponent(s)
  }

  /** A number by section 6 of RFC 8259. */
  predicate IsNumber(s: string)
  {
    var t := if s != "" && s[0] == '-' then s[1..] else s;
    var n := DigitRun(t);
    n > 0 && (t[0] == '0' ==> n == 1) && IsFraction(t[n..])
  }

  /** Characters of numbers; a minus only in front or in an exponent. */
  predicate IsNumberChar(c: char) { IsDigit(c) || c == '.' || IsExponentMark(c) || c == '+' || c == '-' }

  predicate IsExponentMark(c: char) { c == 'e' || c == 'E' }

  predicate Fits(s: string, i: nat)
    requires i < |s|
  {
    IsNumberChar(s[i]) && (s[i] == '-' ==> i > 0 && IsExponentMark(s[i - 1]))
  }

  predicate ShapedFrom(s: string, from: nat)
  {
    forall i :: from <= i < |s| ==> Fits(s, i)
  }

  /** What may follow the whole part. */
  predicate NumberTail(s: string)
  {
    ShapedFrom(s, 0) && (s != "" ==> IsDigit(s[|s| - 1]))
  }

  lemma ExponentTail(s: string)
    requires IsExponent(s)
    ensures NumberTail(s)
  {
    if s != "" {
      var from := if |s| > 1 && (s[1] == '+' || s[1] == '-') then 2 else 1;
      var digits := s[from..];
      forall i | 0 <= i < |s| ensures Fits(s, i) {
        assert i >= from ==> s[i] == digits[i - from];
      }
    }
  }

  lemma DigitsTail(digits: string, s: string)
    requires AllDigits(digits) && digits != "" && NumberTail(s)
    ensures NumberTail(digits + s)
  {
    var t := digits + s;
    forall i | 0 <= i < |t| ensures Fits(t, i) {
      if i < |digits| {
        assert t[i] == digits[i];
      } else {
        var j := i - |digits|;
        assert t[i] == s[j] && Fits(s, j);
        assert j > 0 ==> t[i - 1] == s[j - 1];
      }
    }
  }

  lemma DotTail(c: char, s: string)
    requires (c == '.' || c == '-') && s != "" && IsDigit(s[0]) && NumberTail(s)
    ensures ShapedFrom([c] + s, 1) && (c == '.' ==> NumberTail([c] + s))
  {
    var t := [c] + s;
    forall i | 1 <= i < |t| ensures Fits(t, i) {
      assert t[i] == s[i - 1] && Fits(s, i - 1);
      assert i > 1 ==> t[i - 1] == s[i - 2];
    }
    assert c == '.' ==> Fits(t, 0);
  }

  lemma FractionTail(s: string)
    requires IsFraction(s)
    ensures NumberTail(s)
  {
    hide IsExponent, NumberTail, IsDigit;
    if s != "" && s[0] == '.' {
      var n := DigitRun(s[1..]);
      var digits, rest := s[1..][..n], s[n + 1..];
      ExponentTail(rest);
      DigitsTail(digits, rest);
      assert s == ['.'] + (digits + rest);
      assert IsDigit((digits + rest)[0]) by { assert AllDigits(digits); }
      DotTail('.', digits + rest);
    } else {
      ExponentTail(s);
    }
  }

  lemma FirstDigit(digits: string)
    requires AllDigits(digits) && digits != ""
    ensures IsDigit(digits[0])
  {
  }

  lemma ShapedLater(s: string)
    requires ShapedFrom(s, 0)
    ensures ShapedFrom(s, 1)
  {
  }

  /** The characters of a number. */
  lemma NumberShape(s: string)
    requires IsNumber(s)
    ensures s != "" && (s[0] == '-' || IsDigit(s[0])) && IsDigit(s[|s| - 1]) && ShapedFrom(s, 1)
  {
    hide IsFraction, IsDigit, AllDigits, DigitRun;
    var t := if s != "" && s[0] == '-' then s[1..] else s;
    var n := DigitRun(t);
    var digits, rest := t[..n], t[n..];
    assert AllDigits(digits) && digits != "" && IsFraction(rest) && t == digits + rest && (s == t || s == ['-'] + t);
    FirstDigit(digits);
    hide IsNumber;
    FractionTail(rest);
    DigitsTail(digits, rest);
    hide ShapedFrom;
    DotTail('-', t);
    ShapedLater(t);
  }

  /** Decimal text read as an integer over a power of ten. */
  function Unscaled(s: string): (int, nat)
  {
    if s != "" && s[0] == '-' then
      var (n, k) := UnscaledMagnitude(s[1..]);
      (-n, k)
    else UnscaledMagnitude(s)
  }

  function UnscaledMagnitude(s: string): (int, nat)
  {
    var n := DigitRun(s);
    if n < |s| && s[n] == '.' then (NumberOf(s[..n] + s[n + 1..]), |s| - n - 1) else (NumberOf(s), 0)
  }

  lemma {:induction false} RunOf(digits: string, rest: string)
    requires AllDigits(digits) && (rest == "" || !IsDigit(rest[0]))
    ensures DigitRun(digits + rest) == |digits|
    decreases |digits|
  {
    if digits != "" {
      RunOf(digits[1..], rest);
      assert (digits + rest)[1..] == digits[1..] + rest;
    } else {
      assert digits + rest == rest;
    }
  }

  lemma UnsignedReads(n: nat, scale: nat)
    ensures UnscaledMagnitude(Unsigned(n, scale)) == (n as int, scale)
    ensures IsNumber(Unsigned(n, scale)) && Unsigned(n, scale)[0] != '-'
  {
    hide Digits, FixedDigits, NumberOf;
    var p := Pow10(scale);
    var a, b := WholePart(n, scale), FracPart(n, scale);
    var whole, frac := Digits(a), FixedDigits(b, scale);
    var s := Unsigned(n, scale);
    assert n == a * p + b;
    FixedBack(a, b, scale);
    hide Pow10, WholePart, FracPart;
    if scale > 0 {
      assert s == whole + ("." + frac);
      RunOf(whole, "." + frac);
      assert s[..|whole|] == whole && s[|whole| + 1..] == frac && s[|whole|..] == "." + frac;
      RunOf(frac, "");
      assert ("." + frac)[1..] == frac && frac + "" == frac;
      assert ("." + frac)[|frac| + 1..] == "";
    } else {
      assert s == whole && whole + frac == whole && whole + "" == whole;
      RunOf(whole, "");
      assert s[|whole|..] == "";
    }
  }

  /** Decimal.String is exact and canonical: a number by section 6 of RFC
      8259 that reads back as the unscaled integer over ten to the scale, with
      exactly `scale` fraction digits. */
  lemma TextReadsBack(unscaled: int, scale: nat)
    ensures Unscaled(Text(unscaled, scale)) == (unscaled, scale)
    ensures IsNumber(Text(unscaled, scale))
  {
    hide Unsigned, UnscaledMagnitude, DigitRun, IsFraction;
    UnsignedReads(Magnitude(unscaled), scale);
    var s := Unsigned(Magnitude(unscaled), scale);
    if unscaled < 0 {
      assert ("-" + s)[1..] == s;
    } else {
      assert "" + s == s;
    }
  }

  /** Two decimals of one scale with one text are one number. */
  lemma TextInjective(u: int, v: int, scale: nat)
    requires Text(u, scale) == Text(v, scale)
    ensures u == v
  {
    TextReadsBack(u, scale);
    TextReadsBack(v, scale);
  }

  lemma DigitExamples()
    ensures Digits(0) == "0" && Digits(19) == "19" && Digits(42) == "42"
    ensures FixedDigits(99, 2) == "99" && FixedDigits(5, 2) == "05" && FixedDigits(0, 2) == "00"
  {
    assert Digits(1) == "1" && Digits(4) == "4";
    assert FixedDigits(0, 0) == "";
    assert FixedDigits(9, 1) == "9";
    assert FixedDigits(0, 1) == "0";
  }

  /** The examples of codec_test.go's TestDecimalString. */
  lemma TextExamples()
    ensures Text(1999, 2) == "19.99" && Text(-1999, 2) == "-19.99" && Text(5, 2) == "0.05" && Text(-5, 2) == "-0.05"
    ensures Text(0, 2) == "0.00" && Text(42, 0) == "42"
  {
    DigitExamples();
    assert Pow10(2) == 100 && Pow10(0) == 1;
    hide Digits, FixedDigits, Pow10;
    assert Unsigned(1999, 2) == "19.99";
    assert Unsigned(5, 2) == "0.05";
    assert Unsigned(0, 2) == "0.00";
    assert Unsigned(42, 0) == "42";
  }
}
