/**
 Decimal texts and their exact integer meaning: parsing with a fixed number of
 places in 256 bits, and the two printers the server uses.

 A text is the sequence of its bytes, each written as a character.
 */
module Decimal {
  import opened Wrappers

  datatype Error = InvalidRequest | Unavailable

  const U64_SPACE: nat := 0x1_0000_0000_0000_0000
  const U256_SPACE: nat :=
    0x1_0000000000000000_0000000000000000_0000000000000000_0000000000000000

  type U64 = n: nat | n < U64_SPACE
  type U256 = n: nat | n < U256_SPACE

  const RATE_SCALE: nat := 1_000_000_000_000_000_000

  // ------------------------------------------------------------------ powers of ten

  function Pow10(n: nat): (p: nat)
    ensures p > 0
  {
    if n == 0 then 1 else 10 * Pow10(n - 1)
  }

  lemma Commute(a: nat, b: nat, c: nat)
    ensures a * (b * c) == (a * b) * c == b * (a * c)
  {
  }

  lemma Spread(a: nat, b: nat, c: nat)
    ensures (a + b) * c == a * c + b * c
  {
  }

  lemma MulMonotone(a: nat, b: nat, c: nat)
    requires a <= b
    ensures a * c <= b * c
  {
  }

  lemma {:induction false} PowAdds(a: nat, b: nat)
    ensures Pow10(a + b) == Pow10(a) * Pow10(b)
  {
    if b == 0 {
    } else {
      PowAdds(a, b - 1);
      assert Pow10(a + b) == 10 * Pow10(a + (b - 1));
      Commute(10, Pow10(a), Pow10(b - 1));
    }
  }

  lemma {:induction false} PowGrows(a: nat, b: nat)
    requires a <= b
    ensures Pow10(a) <= Pow10(b)
  {
    if a == b {
    } else {
      PowGrows(a, b - 1);
    }
  }

  lemma PowValues()
    ensures Pow10(2) == 100 && Pow10(6) == 1_000_000 && Pow10(8) == 100_000_000
    ensures Pow10(18) == RATE_SCALE && Pow10(20) == 100_000_000_000_000_000_000
  {
    assert Pow10(2) == 100;
    assert Pow10(6) == 1_000_000;
    assert Pow10(8) == 100_000_000;
    assert Pow10(10) == 10_000_000_000;
    PowAdds(10, 8);
    PowAdds(10, 10);
  }

  lemma PowSixty()
    ensures Pow10(60) == 1_00000000000000000000_00000000000000000000_00000000000000000000
    ensures Pow10(60) == 10 * Pow10(59)
  {
    PowValues();
    PowAdds(20, 20);
    PowAdds(40, 20);
  }

  // ------------------------------------------------------------------------- digits

  predicate IsDigit(c: char) { '0' <= c <= '9' }

  predicate AllDigits(s: string) { forall c <- s :: IsDigit(c) }

  function DigitValue(c: char): (d: nat)
    requires IsDigit(c)
    ensures d <= 9
  {
    c as int - '0' as int
  }

  function DigitChar(d: nat): (c: char)
    requires d <= 9
    ensures IsDigit(c) && DigitValue(c) == d
  {
    '0' + d as char
  }

  /** The number a digit sequence denotes. */
  function Value(s: string): nat
    requires AllDigits(s)
  {
    if s == [] then 0 else 10 * Value(s[..|s| - 1]) + DigitValue(s[|s| - 1])
  }

  lemma {:induction false} ValueConcat(a: string, b: string)
    requires AllDigits(a) && AllDigits(b)
    ensures AllDigits(a + b) && Value(a + b) == Value(a) * Pow10(|b|) + Value(b)
  {
    if b == [] {
      assert a + b == a;
    } else {
      var front, d := b[..|b| - 1], b[|b| - 1];
      ValueConcat(a, front);
      assert (a + b)[..|a + b| - 1] == a + front;
      Spread(Value(a) * Pow10(|front|), Value(front), 10);
      Commute(10, Value(a), Pow10(|front|));
      assert Value(a + b) == 10 * Value(a + front) + DigitValue(d);
    }
  }

  lemma {:induction false} ValueBound(s: string)
    requires AllDigits(s)
    ensures Value(s) < Pow10(|s|)
  {
    if s == [] {
    } else {
      ValueBound(s[..|s| - 1]);
    }
  }

  function Zeros(n: nat): (z: string)
    ensures |z| == n && AllDigits(z)
  {
    seq(n, i => '0')
  }

  lemma {:induction false} ZerosAreZero(n: nat)
    ensures Value(Zeros(n)) == 0
  {
    if n == 0 {
    } else {
      ZerosAreZero(n - 1);
      assert Zeros(n)[..n - 1] == Zeros(n - 1);
    }
  }

  // ------------------------------------------------------------------------ printing

  function ToText(n: nat): (s: string)
    ensures s != [] && AllDigits(s)
  {
    if n < 10 then [DigitChar(n)] else ToText(n / 10) + [DigitChar(n % 10)]
  }

  lemma {:induction false} ToTextValue(n: nat)
    ensures Value(ToText(n)) == n
  {
    if n < 10 {
      assert ToText(n)[..0] == [];
    } else {
      ToTextValue(n / 10);
      assert ToText(n)[..|ToText(n)| - 1] == ToText(n / 10);
    }
  }

  lemma {:induction false} ToTextLength(n: nat, k: nat)
    requires 0 < k && n < Pow10(k)
    ensures |ToText(n)| <= k
  {
    if n < 10 {
    } else {
      ToTextLength(n / 10, k - 1);
    }
  }

  lemma {:induction false} ToTextLengthLeast(n: nat, k: nat)
    requires Pow10(k) <= n
    ensures |ToText(n)| > k
  {
    if n >= 10 && k > 0 { ToTextLengthLeast(n / 10, k - 1); }
  }

  /** The number printed with leading zeros up to a width. */
  function Padded(n: nat, width: nat): (s: string)
    ensures AllDigits(s) && |s| >= width
  {
    var t := ToText(n);
    if |t| < width then Zeros(width - |t|) + t else t
  }

  lemma PaddedValue(n: nat, width: nat)
    requires 0 < width && n < Pow10(width)
    ensures |Padded(n, width)| == width && Value(Padded(n, width)) == n
  {
    hide Pow10, Value, ToText, Zeros;
    ToTextLength(n, width);
    ToTextValue(n);
    if |ToText(n)| < width {
      ZerosAreZero(width - |ToText(n)|);
      ValueConcat(Zeros(width - |ToText(n)|), ToText(n));
      assert 0 * Pow10(|ToText(n)|) == 0;
    }
  }

  /** The text without its trailing zeros. */
  function Trimmed(s: string): (t: string)
    ensures |t| <= |s| && t == s[..|t|]
    ensures t != [] ==> t[|t| - 1] != '0'
  {
    if s != [] && s[|s| - 1] == '0' then Trimmed(s[..|s| - 1]) else s
  }

  lemma {:induction false} TrimmedOnlyZeros(s: string)
    ensures s == Trimmed(s) + Zeros(|s| - |Trimmed(s)|)
  {
    if s != [] && s[|s| - 1] == '0' {
      TrimmedOnlyZeros(s[..|s| - 1]);
      assert s == s[..|s| - 1] + "0";
    }
  }

  /** A rate with eighteen places, without trailing zeros. */
  function FormatRate(v: U256): string {
    var fraction := Trimmed(Padded(v % RATE_SCALE, 18));
    if fraction == "" then ToText(v / RATE_SCALE) else ToText(v / RATE_SCALE) + "." + fraction
  }

  // ------------------------------------------------------------------------- parsing

  function DotAt(s: string): (i: nat)
    ensures i <= |s| && '.' !in s[..i] && (i < |s| ==> s[i] == '.')
  {
    if s == [] || s[0] == '.' then 0
    else
      var i := 1 + DotAt(s[1..]);
      assert s[..i] == [s[0]] + s[1..][..i - 1];
      i
  }

  function Whole(s: string): string { s[..DotAt(s)] }

  function Fraction(s: string): string { if DotAt(s) == |s| then "" else s[DotAt(s) + 1..] }

  /** The texts a parser with this many places reads at all. */
  predicate Readable(s: string, decimals: nat) {
    && |s| <= 80
    && Whole(s) != [] && AllDigits(Whole(s)) && AllDigits(Fraction(s))
    && |Fraction(s)| <= decimals
  }

  /** Reads digits in 256 bits. */
  function FromText(s: string): Option<U256>
    requires AllDigits(s)
  {
    if Value(s) < U256_SPACE then Some(Value(s)) else None
  }

  function Wrap(n: nat): U256 { n % U256_SPACE }

  function CheckedMul(a: U256, b: U256): Option<U256> { if a * b < U256_SPACE then Some(a * b) else None }

  function CheckedAdd(a: U256, b: U256): Option<U256> { if a + b < U256_SPACE then Some(a + b) else None }

  /** Puts the two parts together in 256 bits; `scale` and `shift` are powers of ten. */
  function Combine(whole: U256, fraction: U256, scale: U256, shift: U256): (r: Result<U256, Error>)
    ensures r.Ok? ==> r.value > 0
  {
    var scaled := CheckedMul(whole, scale);
    if scaled.None? then Err(InvalidRequest)
    else
      var units := CheckedAdd(scaled.value, Wrap(fraction * shift));
      if units.None? || units.value == 0 then Err(InvalidRequest) else Ok(units.value)
  }

  function DecimalUnits(s: string, decimals: nat): (r: Result<U256, Error>)
    ensures r.Ok? ==> r.value > 0
  {
    if !Readable(s, decimals) then Err(InvalidRequest)
    else
      var whole := FromText(Whole(s));
      var fraction := if Fraction(s) == "" then Some(0) else FromText(Fraction(s));
      if whole.None? || fraction.None? then Err(InvalidRequest)
      else
        Combine(whole.value, fraction.value, Wrap(Pow10(decimals)), Wrap(Pow10(decimals - |Fraction(s)|)))
  }

  /** What the text denotes: its digits, read with the point moved to the right by
      `decimals` places. */
  ghost function Exact(s: string, decimals: nat): nat
    requires Readable(s, decimals)
  {
    Value(Whole(s) + Fraction(s) + Zeros(decimals - |Fraction(s)|))
  }

  lemma ExactSum(s: string, decimals: nat)
    requires Readable(s, decimals)
    ensures Exact(s, decimals)
         == Value(Whole(s)) * Pow10(decimals) + Value(Fraction(s)) * Pow10(decimals - |Fraction(s)|)
  {
    var w, f, n := Whole(s), Fraction(s), decimals - |Fraction(s)|;
    hide Pow10, Value, Zeros, Whole, Fraction;
    ValueConcat(w, f);
    ValueConcat(w + f, Zeros(n));
    ZerosAreZero(n);
    PowAdds(|f|, n);
    Spread(Value(w) * Pow10(|f|), Value(f), Pow10(n));
    Commute(Value(w), Pow10(|f|), Pow10(n));
  }

  lemma PowFits(n: nat)
    requires n <= 18
    ensures Pow10(n) <= RATE_SCALE < U256_SPACE && Wrap(Pow10(n)) == Pow10(n)
  {
    PowValues();
    PowGrows(n, 18);
  }

  lemma FractionFits(s: string, decimals: nat)
    requires Readable(s, decimals) && decimals <= 18
    ensures Value(Fraction(s)) * Pow10(decimals - |Fraction(s)|) < Pow10(decimals) <= RATE_SCALE
    ensures Value(Fraction(s)) < RATE_SCALE
  {
    var f, n := Fraction(s), decimals - |Fraction(s)|;
    hide Pow10, Value, Fraction, Wrap;
    ValueBound(f);
    PowAdds(|f|, n);
    PowFits(decimals);
    PowFits(|f|);
    MulMonotone(Value(f) + 1, Pow10(|f|), Pow10(n));
    Spread(Value(f), 1, Pow10(n));
  }

  /** Parsing is exact: a readable text yields exactly what it denotes, and is
      refused only if that is zero or does not fit in 256 bits. No intermediate
      step overflows first. */
  lemma DecimalUnitsExact(s: string, decimals: nat)
    requires decimals <= 18
    ensures DecimalUnits(s, decimals)
         == if Readable(s, decimals) && 0 < Exact(s, decimals) < U256_SPACE
            then Ok(Exact(s, decimals)) else Err(InvalidRequest)
  {
    hide Pow10, Value, Whole, Fraction, Exact, Combine, Wrap;
    if Readable(s, decimals) {
      ExactSum(s, decimals);
      FractionFits(s, decimals);
      PowFits(decimals);
      PowFits(decimals - |Fraction(s)|);
      EmptyIsZero(Fraction(s));
      CombineIsExact(Value(Whole(s)), Value(Fraction(s)), Pow10(decimals), Pow10(decimals - |Fraction(s)|));
    }
  }

  lemma CombineIsExact(w: nat, f: nat, scale: nat, shift: nat)
    requires 1 <= scale < U256_SPACE && shift < U256_SPACE && f < U256_SPACE && f * shift < U256_SPACE
    ensures w >= U256_SPACE ==> w * scale + f * shift >= U256_SPACE
    ensures w < U256_SPACE ==>
              Combine(w, f, scale, shift) == if 0 < w * scale + f * shift < U256_SPACE
                                             then Ok(w * scale + f * shift) else Err(InvalidRequest)
  {
    MulMonotone(1, scale, w);
    assert Wrap(f * shift) == f * shift;
  }

  lemma EmptyIsZero(s: string)
    requires AllDigits(s)
    ensures s == "" ==> Value(s) == 0
  {
  }

  // --------------------------------------------------------------------- round trips

  lemma DotIsNoDigit(w: string)
    requires AllDigits(w)
    ensures '.' !in w
  {
  }

  lemma SplitWhole(w: string)
    requires AllDigits(w)
    ensures Whole(w) == w && Fraction(w) == ""
  {
    DotIsNoDigit(w);
  }

  lemma {:induction false} DotAfterDigits(w: string, f: string)
    requires AllDigits(w)
    ensures DotAt(w + "." + f) == |w|
  {
    if w == [] {
    } else {
      DotAfterDigits(w[1..], f);
      assert (w + "." + f)[1..] == w[1..] + "." + f;
      assert IsDigit(w[0]);
    }
  }

  lemma SplitPoint(w: string, f: string)
    requires AllDigits(w)
    ensures Whole(w + "." + f) == w && Fraction(w + "." + f) == f
  {
    DotAfterDigits(w, f);
  }

  ghost predicate PlainDigits(s: string) { s != "" && AllDigits(s) }

  ghost predicate PointedDigits(s: string, w: string, f: string) { s == w + "." + f && PlainDigits(w) && AllDigits(f) }

  lemma PlainText(s: string, decimals: nat)
    requires |s| <= 80 && PlainDigits(s)
    ensures Readable(s, decimals) && Exact(s, decimals) == Value(s) * Pow10(decimals)
  {
    SplitWhole(s);
    EmptyIsZero("");
    assert Readable(s, decimals);
    hide Pow10, Value, Exact, Whole, Fraction, Readable, AllDigits;
    ExactSum(s, decimals);
    AddsNothing(Value(s) * Pow10(decimals), Value(""), Pow10(decimals));
  }

  lemma AddsNothing(a: nat, b: nat, c: nat)
    requires b == 0
    ensures a + b * c == a
  {
  }

  lemma PointedText(w: string, f: string, decimals: nat)
    requires |w + "." + f| <= 80 && PlainDigits(w) && AllDigits(f) && |f| <= decimals
    ensures Readable(w + "." + f, decimals)
    ensures Exact(w + "." + f, decimals) == Value(w) * Pow10(decimals) + Value(f) * Pow10(decimals - |f|)
  {
    SplitPoint(w, f);
    hide Pow10, Value, Exact, Whole, Fraction;
    ExactSum(w + "." + f, decimals);
  }

  /** A text is readable exactly if it has at most 80 bytes and is a row of digits, or one
      followed by a point and at most `decimals` more. */
  lemma ReadableExactly(s: string, decimals: nat)
    ensures Readable(s, decimals) <==>
              |s| <= 80 && (PlainDigits(s) || exists w, f :: PointedDigits(s, w, f) && |f| <= decimals)
  {
    if Readable(s, decimals) {
      if DotAt(s) == |s| {
        assert s == Whole(s);
      } else {
        assert PointedDigits(s, Whole(s), Fraction(s));
      }
    } else if |s| <= 80 && PlainDigits(s) {
      PlainText(s, decimals);
    } else if w, f :| |s| <= 80 && PointedDigits(s, w, f) && |f| <= decimals {
      PointedText(w, f, decimals);
    }
  }

  lemma RateTextLength(v: U256)
    ensures |ToText(v / RATE_SCALE)| <= 60
  {
    PowSixty();
    ToTextLength(v / RATE_SCALE, 60);
  }

  /** Digits `w` before the point and the places `p`, printed up to trailing zeros. */
  lemma TextDenotes(w: string, p: string, f: string)
    requires AllDigits(w) && w != [] && AllDigits(p)
    requires |f| <= |p| && p == f + Zeros(|p| - |f|)
    requires |w| + 1 + |f| <= 80
    ensures Readable(w + "." + f, |p|) && Exact(w + "." + f, |p|) == Value(w + p)
    ensures f == "" ==> Readable(w, |p|) && Exact(w, |p|) == Value(w + p)
  {
    assert AllDigits(f) by { forall c <- f ensures IsDigit(c) { assert c in p; } }
    SplitWhole(w);
    SplitPoint(w, f);
    hide Value, Zeros, Whole, Fraction;
    assert w + f + Zeros(|p| - |f|) == w + p;
  }

  lemma QuotientText(q: nat, r: nat, width: nat)
    requires 0 < width && r < Pow10(width)
    ensures |Padded(r, width)| == width
    ensures AllDigits(ToText(q) + Padded(r, width)) && Value(ToText(q) + Padded(r, width)) == q * Pow10(width) + r
  {
    hide Pow10, Value, ToText, Padded;
    PaddedValue(r, width);
    ToTextValue(q);
    ValueConcat(ToText(q), Padded(r, width));
  }

  lemma RateTextDenotes(v: U256)
    ensures |FormatRate(v)| <= 79
    ensures Readable(FormatRate(v), 18) && Exact(FormatRate(v), 18) == v
  {
    var w, p := ToText(v / RATE_SCALE), Padded(v % RATE_SCALE, 18);
    PowValues();
    RateTextLength(v);
    QuotientText(v / RATE_SCALE, v % RATE_SCALE, 18);
    TrimmedOnlyZeros(p);
    hide Pow10, Value, Zeros, ToText, Padded, Trimmed, Exact, Readable;
    TextDenotes(w, p, Trimmed(p));
  }

  /** Printing a rate and parsing it gives the rate back, for every nonzero 256-bit
      rate; the text is at most 79 bytes long, within the parser's limit. */
  lemma RateRoundTrip(v: U256)
    ensures |FormatRate(v)| <= 79
    ensures DecimalUnits(FormatRate(v), 18) == if v == 0 then Err(InvalidRequest) else Ok(v)
  {
    hide Exact, Readable, DecimalUnits, FormatRate;
    RateTextDenotes(v);
    DecimalUnitsExact(FormatRate(v), 18);
  }

  /** The bound of 79 bytes is met by the largest rate. */
  lemma LongestRate()
    ensures |FormatRate(U256_SPACE - 1)| == 79
  {
    LongestWhole();
    PlacesStay((U256_SPACE - 1) % RATE_SCALE);
    hide ToText, Padded, Trimmed;
  }

  lemma LongestWhole()
    ensures |ToText((U256_SPACE - 1) / RATE_SCALE)| == 60
  {
    var v: U256 := U256_SPACE - 1;
    RateTextLength(v);
    PowSixty();
    hide Pow10, ToText;
    ToTextLengthLeast(v / RATE_SCALE, 59);
  }

  /** Eighteen places that do not end in zero are printed as they are. */
  lemma PlacesStay(n: nat)
    requires n < RATE_SCALE && n % 10 != 0
    ensures Trimmed(Padded(n, 18)) == Padded(n, 18) && |Padded(n, 18)| == 18
  {
    PowValues();
    hide Pow10, ToText, Padded, Value;
    PaddedValue(n, 18);
    LastDigit(Padded(n, 18));
  }

  lemma LastDigit(s: string)
    requires AllDigits(s) && s != []
    ensures DigitValue(s[|s| - 1]) == Value(s) % 10
  {
  }

  datatype Asset = Btc | Usd | Usdt

  function Decimals(a: Asset): (d: nat)
    ensures 2 <= d <= 8
  {
    match a case Btc => 8 case Usd => 2 case Usdt => 6
  }

  function DecimalAmount(a: Asset, units: U64): string {
    match a
    case Usd => ToText(units / 100) + "." + Padded(units % 100, 2)
    case Btc => ToText(units / 100_000_000) + "." + Padded(units % 100_000_000, 8)
    case Usdt => ToText(units / 1_000_000) + "." + Padded(units % 1_000_000, 6)
  }

  lemma AmountTextDenotes(q: nat, r: nat, d: nat)
    requires 2 <= d <= 8 && q < U64_SPACE && r < Pow10(d)
    ensures Readable(ToText(q) + "." + Padded(r, d), d)
    ensures Exact(ToText(q) + "." + Padded(r, d), d) == q * Pow10(d) + r
  {
    var w, f := ToText(q), Padded(r, d);
    PowValues();
    ToTextLength(q, 20);
    QuotientText(q, r, d);
    hide Pow10, Value, ToText, Padded, Exact, Readable;
    assert f == f + Zeros(0);
    TextDenotes(w, f, f);
  }

  /** Printing an amount and parsing it gives the amount back, for every nonzero
      64-bit amount of every asset. */
  lemma AmountRoundTrip(a: Asset, units: U64)
    ensures Readable(DecimalAmount(a, units), Decimals(a)) && Exact(DecimalAmount(a, units), Decimals(a)) == units
    ensures DecimalUnits(DecimalAmount(a, units), Decimals(a)) == if units == 0 then Err(InvalidRequest) else Ok(units)
  {
    PowValues();
    hide Exact, Readable, DecimalUnits, ToText, Padded, Pow10;
    match a {
      case Usd => AmountTextDenotes(units / 100, units % 100, 2);
      case Btc => AmountTextDenotes(units / 100_000_000, units % 100_000_000, 8);
      case Usdt => AmountTextDenotes(units / 1_000_000, units % 1_000_000, 6);
    }
    DecimalUnitsExact(DecimalAmount(a, units), Decimals(a));
  }
}
