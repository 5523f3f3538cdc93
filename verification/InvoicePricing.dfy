/**
 Fixed invoice rates and exact payment amounts: which feed price is accepted, the
 rates published from it, and what a payer has to send.
 */
module InvoicePricing {
  import opened Wrappers
  import opened Decimal

  const MAX_RATE_AGE_MILLIS: nat := 600_000
  const SCALE_SQUARED: nat := 1_000_000_000_000_000_000_000_000_000_000_000_000

  // ------------------------------------------------------------------------ the feed

  datatype Ticker = Ticker(base: string, quote: string, lastPrice: string, lastUpdatedAt: int)

  predicate QuotesDollars(t: Ticker) { t.base == "BTC" && t.quote == "USD" }

  function DollarTickers(tickers: seq<Ticker>): seq<Ticker> {
    if tickers == [] then []
    else (if QuotesDollars(tickers[0]) then [tickers[0]] else []) + DollarTickers(tickers[1..])
  }

  function NonDots(s: string): (n: nat)
    ensures n <= |s|
  {
    if s == [] then 0 else (if s[0] == '.' then 0 else 1) + NonDots(s[1..])
  }

  /** Division of signed integers, toward zero. */
  function TruncDiv(a: int, b: nat): int
    requires b > 0
  {
    if a >= 0 then a / b else -((-a) / b)
  }

  function FeedPrice(tickers: seq<Ticker>, nowNanos: int): Result<string, Error> {
    var rates := DollarTickers(tickers);
    if rates == [] then Err(Unavailable)
    else
      var rate := rates[0];
      var age := TruncDiv(nowNanos, 1_000_000) - rate.lastUpdatedAt;
      if || |rates| > 1 || age < 0 || age > MAX_RATE_AGE_MILLIS
         || NonDots(rate.lastPrice) > 18 || DecimalUnits(rate.lastPrice, 18).Err?
      then Err(Unavailable)
      else Ok(rate.lastPrice)
  }

  // ----------------------------------------------------------------------- the rates

  datatype Rate = Rate(asset: string, value: string)

  function Name(a: Asset): string { match a case Btc => "btc" case Usd => "usd" case Usdt => "usdt" }

  /** 10^36 / price, rounded half to even. */
  function Reciprocal(price: U256): U256
    requires price > 0
  {
    var quotient := SCALE_SQUARED / price;
    var remainder := SCALE_SQUARED % price;
    Wrap(quotient + if || Wrap(remainder * 2) > price
                       || (Wrap(remainder * 2) == price && quotient % 2 != 0) then 1 else 0)
  }

  predicate CrossesBitcoin(requested: Asset, asset: Asset) { (requested == Btc) != (asset == Btc) }

  function RateValue(requested: Asset, asset: Asset, usdPerBtc: Option<string>): Result<string, Error> {
    if !CrossesBitcoin(requested, asset) then Ok("1")
    else if usdPerBtc.None? then Err(Unavailable)
    else
      var price := DecimalUnits(usdPerBtc.value, 18);
      if price.Err? then Err(price.error)
      else
        var multiplier := if requested == Btc then price.value else Reciprocal(price.value);
        if multiplier == 0 then Err(Unavailable) else Ok(FormatRate(multiplier))
  }

  function Offered(requested: Asset, bitcoin: bool, usdt: bool): seq<Asset> {
    (if bitcoin && requested != Btc then [Btc] else []) + (if usdt && requested != Usdt then [Usdt] else [])
  }

  function RatesFor(requested: Asset, assets: seq<Asset>, usdPerBtc: Option<string>): Result<seq<Rate>, Error> {
    if assets == [] then Ok([])
    else
      var front := RatesFor(requested, assets[..|assets| - 1], usdPerBtc);
      var asset := assets[|assets| - 1];
      var value := RateValue(requested, asset, usdPerBtc);
      if front.Err? then front
      else if value.Err? then Err(value.error)
      else Ok(front.value + [Rate(Name(asset), value.value)])
  }

  /** One more asset appends its rate, or gives its error. */
  lemma RatesForPush(requested: Asset, done: seq<Asset>, asset: Asset, usd: Option<string>)
    requires RatesFor(requested, done, usd).Ok?
    ensures (var value := RateValue(requested, asset, usd);
             RatesFor(requested, done + [asset], usd)
             == if value.Err? then Err(value.error)
                else Ok(RatesFor(requested, done, usd).value + [Rate(Name(asset), value.value)]))
  {
    hide RateValue, Name;
    assert (done + [asset])[..|done|] == done;
  }

  /** The first error stands, whatever assets follow. */
  lemma {:induction false} FirstErrorStands(requested: Asset, done: seq<Asset>, all: seq<Asset>, usd: Option<string>)
    requires done <= all && RatesFor(requested, done, usd).Err?
    ensures RatesFor(requested, all, usd) == RatesFor(requested, done, usd)
    decreases |all|
  {
    hide RateValue, Name;
    if |all| == |done| {
      assert all == done;
    } else {
      FirstErrorStands(requested, done, all[..|all| - 1], usd);
    }
  }

  /** The loop over the payable assets publishes one rate for each enabled asset other
      than the requested one, in order, or the first error. */
  method ConversionRates(requested: Asset, bitcoin: bool, usdt: bool, usdPerBtc: Option<string>)
    returns (r: Result<seq<Rate>, Error>)
    ensures r == RatesFor(requested, Offered(requested, bitcoin, usdt), usdPerBtc)
  {
    assert RatesFor(requested, [], usdPerBtc) == Ok([]);
    hide RateValue, RatesFor, Name;
    var payable := [(Btc, bitcoin), (Usdt, usdt)];
    ghost var all := Offered(requested, bitcoin, usdt);
    ghost var done: seq<Asset> := [];
    var rates: seq<Rate> := [];
    for i := 0 to 2
      invariant RatesFor(requested, done, usdPerBtc) == Ok(rates)
      invariant i == 0 ==> done == []
      invariant i == 1 ==> done == if bitcoin && requested != Btc then [Btc] else []
      invariant i == 2 ==> done == all
    {
      var (asset, enabled) := payable[i];
      if enabled && asset != requested {
        RatesForPush(requested, done, asset, usdPerBtc);
        var value := RateValue(requested, asset, usdPerBtc);
        if value.Err? {
          FirstErrorStands(requested, done + [asset], all, usdPerBtc);
          return Err(value.error);
        }
        rates := rates + [Rate(Name(asset), value.value)];
        done := done + [asset];
      }
    }
    r := Ok(rates);
  }

  // -------------------------------------------------------------- rounding the price

  predicate RoundsUp(quotient: nat, remainder: nat, divisor: nat) {
    2 * remainder > divisor || (2 * remainder == divisor && quotient % 2 == 1)
  }

  /** No step of the 256-bit rounding wraps around. */
  lemma ReciprocalUnwrapped(price: U256)
    requires price > 0
    ensures (var q, rem := SCALE_SQUARED / price, SCALE_SQUARED % price;
             Reciprocal(price) == q + if RoundsUp(q, rem, price) then 1 else 0)
  {
    DivMod(SCALE_SQUARED, price);
    var q, rem := SCALE_SQUARED / price, SCALE_SQUARED % price;
    assert Wrap(rem * 2) == rem * 2;
    assert Wrap(q) == q && Wrap(q + 1) == q + 1;
  }

  ghost predicate Nearest(m: nat, n: nat, d: nat) {
    && 2 * n <= 2 * (m * d) + d && 2 * (m * d) <= 2 * n + d
    && (2 * n == 2 * (m * d) + d || 2 * (m * d) == 2 * n + d ==> m % 2 == 0)
  }

  lemma RoundingIsNearest(n: nat, d: nat, q: nat, rem: nat)
    requires n == q * d + rem && rem < d
    ensures Nearest(q + if RoundsUp(q, rem, d) then 1 else 0, n, d)
  {
    Spread(q, 1, d);
  }

  /** The reciprocal is the nearest integer to 10^36 / price, the even one on a tie. */
  lemma ReciprocalIsNearest(price: U256)
    requires price > 0
    ensures Nearest(Reciprocal(price), SCALE_SQUARED, price)
  {
    hide Nearest, Reciprocal;
    ReciprocalUnwrapped(price);
    DivMod(SCALE_SQUARED, price);
    RoundingIsNearest(SCALE_SQUARED, price, SCALE_SQUARED / price, SCALE_SQUARED % price);
  }

  lemma DivMod(n: nat, d: nat)
    requires d > 0
    ensures n == n / d * d + n % d && 0 <= n % d < d && n / d <= n && n % d <= n
  {
    MulMonotone(1, d, n / d);
  }

  /** The rate rounds to zero exactly for prices of 2 * 10^36 units or more, which is
      beyond what the feed accepts. */
  lemma ReciprocalIsZero(price: U256)
    requires price > 0
    ensures Reciprocal(price) == 0 <==> price >= 2 * SCALE_SQUARED
  {
    ReciprocalIsNearest(price);
    hide Reciprocal;
    ZeroIsNearest(Reciprocal(price), SCALE_SQUARED, price);
  }

  lemma ZeroIsNearest(m: nat, n: nat, d: nat)
    requires Nearest(m, n, d) && n > 0
    ensures m == 0 <==> d >= 2 * n
  {
    if m > 0 { MulMonotone(1, m, d); }
    if m > 1 { MulMonotone(2, m, d); }
  }

  /** Few digits mean a small price. */
  lemma {:induction false} NonDotsConcat(a: string, b: string)
    ensures NonDots(a + b) == NonDots(a) + NonDots(b)
  {
    if a == [] {
      assert a + b == b;
    } else {
      NonDotsConcat(a[1..], b);
      assert (a + b)[1..] == a[1..] + b;
    }
  }

  lemma {:induction false} DigitsAreNonDots(s: string)
    requires AllDigits(s)
    ensures NonDots(s) == |s|
  {
    if s == [] {
    } else {
      assert s[0] in s; DigitsAreNonDots(s[1..]);
    }
  }

  lemma NonDotsOfPrice(s: string)
    requires Readable(s, 18)
    ensures NonDots(s) == |Whole(s)| + |Fraction(s)|
  {
    DigitsAreNonDots(Whole(s));
    DigitsAreNonDots(Fraction(s));
    if DotAt(s) == |s| {
      assert s == Whole(s);
    } else {
      assert s == Whole(s) + "." + Fraction(s);
      NonDotsConcat(Whole(s) + ".", Fraction(s));
      NonDotsConcat(Whole(s), ".");
    }
  }

  lemma FewDigitsBound(s: string)
    requires Readable(s, 18) && NonDots(s) <= 18
    ensures Exact(s, 18) < SCALE_SQUARED
  {
    var t := Whole(s) + Fraction(s) + Zeros(18 - |Fraction(s)|);
    NonDotsOfPrice(s);
    assert AllDigits(t);
    ValueBound(t);
    PowGrows(|t|, 36);
    PowValues();
    PowAdds(18, 18);
  }

  // ------------------------------------------------------------- what the feed answers

  /** Ticker `i` is the only one of the feed for bitcoin in dollars. */
  ghost predicate OnlyQuote(tickers: seq<Ticker>, i: nat) {
    && i < |tickers| && tickers[i].base == "BTC" && tickers[i].quote == "USD"
    && forall j | 0 <= j < |tickers| && tickers[j].base == "BTC" && tickers[j].quote == "USD" :: j == i
  }

  /** That ticker is at most ten minutes old and not from the future, and its price is
      positive and has at most eighteen digits. */
  ghost predicate Accepted(tickers: seq<Ticker>, nowNanos: int, i: nat) {
    && OnlyQuote(tickers, i)
    && (var t := tickers[i];
        var millis := if nowNanos >= 0 then nowNanos / 1_000_000 else -((-nowNanos) / 1_000_000);
        && t.lastUpdatedAt <= millis <= t.lastUpdatedAt + 600_000
        && Readable(t.lastPrice, 18) && Exact(t.lastPrice, 18) > 0
        && |t.lastPrice| <= if '.' in t.lastPrice then 19 else 18)
  }

  lemma {:induction false} NoDollarTickers(tickers: seq<Ticker>)
    ensures DollarTickers(tickers) == [] <==>
              forall j | 0 <= j < |tickers| :: !(tickers[j].base == "BTC" && tickers[j].quote == "USD")
  {
    if tickers == [] {
    } else {
      NoDollarTickers(tickers[1..]);
      if DollarTickers(tickers) == [] {
        forall j | 0 <= j < |tickers| ensures !(tickers[j].base == "BTC" && tickers[j].quote == "USD") {
          if j > 0 { assert tickers[1..][j - 1] == tickers[j]; }
        }
      }
    }
  }

  /** The first of them, and how many follow. */
  lemma {:induction false} FirstQuote(tickers: seq<Ticker>) returns (i: nat)
    requires DollarTickers(tickers) != []
    ensures i < |tickers| && QuotesDollars(tickers[i]) && DollarTickers(tickers)[0] == tickers[i]
    ensures forall j | 0 <= j < i :: !QuotesDollars(tickers[j])
    ensures |DollarTickers(tickers)| == 1 + |DollarTickers(tickers[i + 1..])|
  {
    if QuotesDollars(tickers[0]) {
      i := 0;
    } else {
      var k := FirstQuote(tickers[1..]);
      i := k + 1;
      assert tickers[1..][k + 1..] == tickers[i + 1..];
      assert forall j | 0 < j <= i :: tickers[1..][j - 1] == tickers[j];
    }
  }

  lemma OnlyFirst(tickers: seq<Ticker>, i: nat)
    requires i < |tickers| && QuotesDollars(tickers[i]) && forall j | 0 <= j < i :: !QuotesDollars(tickers[j])
    ensures OnlyQuote(tickers, i) <==> DollarTickers(tickers[i + 1..]) == []
  {
    var rest := tickers[i + 1..];
    NoDollarTickers(rest);
    assert forall j | 0 <= j < |rest| :: rest[j] == tickers[i + 1 + j];
    assert forall j | i < j < |tickers| :: rest[j - i - 1] == tickers[j];
  }

  lemma DotOrNot(s: string)
    ensures |s| == |Whole(s)| + |Fraction(s)| + if '.' in s then 1 else 0
  {
  }

  lemma DigitsOfPrice(s: string)
    requires Readable(s, 18)
    ensures NonDots(s) <= 18 <==> |s| <= if '.' in s then 19 else 18
  {
    hide NonDots, Whole, Fraction;
    NonDotsOfPrice(s);
    DotOrNot(s);
  }

  /** The feed answers with the price of its only bitcoin ticker in dollars, exactly when
      that ticker is acceptable, and is unavailable otherwise. */
  lemma FeedPriceExact(tickers: seq<Ticker>, nowNanos: int)
    ensures forall i: nat | Accepted(tickers, nowNanos, i) :: FeedPrice(tickers, nowNanos) == Ok(tickers[i].lastPrice)
    ensures (forall i: nat :: !Accepted(tickers, nowNanos, i)) ==> FeedPrice(tickers, nowNanos) == Err(Unavailable)
  {
    hide Readable, Exact, DecimalUnits, NonDots;
    if DollarTickers(tickers) == [] {
      NoDollarTickers(tickers);
    } else {
      var i := FirstQuote(tickers);
      OnlyFirst(tickers, i);
      hide DollarTickers;
      var price := tickers[i].lastPrice;
      DecimalUnitsExact(price, 18);
      if Readable(price, 18) {
        DigitsOfPrice(price);
        if NonDots(price) <= 18 { FewDigitsBound(price); }
      }
      assert FeedPrice(tickers, nowNanos) == if Accepted(tickers, nowNanos, i) then Ok(price) else Err(Unavailable);
      assert forall j: nat | Accepted(tickers, nowNanos, j) :: j == i;
    }
  }

  /** An accepted price is below 10^18 dollars, and every rate computed from it exists. */
  lemma AcceptedPriceHasRates(tickers: seq<Ticker>, nowNanos: int, i: nat, requested: Asset, asset: Asset)
    requires Accepted(tickers, nowNanos, i)
    ensures 0 < Exact(tickers[i].lastPrice, 18) < SCALE_SQUARED
    ensures RateValue(requested, asset, Some(tickers[i].lastPrice)).Ok?
  {
    hide Readable, Exact, DecimalUnits, NonDots, FormatRate, Reciprocal;
    var price := tickers[i].lastPrice;
    DigitsOfPrice(price);
    FewDigitsBound(price);
    DecimalUnitsExact(price, 18);
    ReciprocalIsZero(Exact(price, 18));
  }

  // ------------------------------------------------------------ what is published

  /** A text that reads as the reciprocal of the price, rounded half to even. */
  ghost predicate IsReciprocal(text: string, price: string)
    requires Readable(price, 18) && Exact(price, 18) > 0
  {
    Readable(text, 18) && Nearest(Exact(text, 18), SCALE_SQUARED, Exact(price, 18))
  }

  ghost predicate GoodPrice(price: string) { Readable(price, 18) && 0 < Exact(price, 18) < U256_SPACE }

  lemma CrossRate(asset: Asset, price: string, requested: Asset)
    requires CrossesBitcoin(requested, asset)
    ensures !GoodPrice(price) ==> RateValue(requested, asset, Some(price)) == Err(InvalidRequest)
    ensures GoodPrice(price) && requested == Btc ==>
              (var r := RateValue(requested, asset, Some(price));
               r.Ok? && Readable(r.value, 18) && Exact(r.value, 18) == Exact(price, 18))
    ensures GoodPrice(price) && requested != Btc ==>
              (var r := RateValue(requested, asset, Some(price));
               if Exact(price, 18) >= 2 * SCALE_SQUARED then r == Err(Unavailable)
               else r.Ok? && IsReciprocal(r.value, price))
  {
    hide Readable, Exact, DecimalUnits, FormatRate, Reciprocal, Nearest;
    DecimalUnitsExact(price, 18);
    if GoodPrice(price) {
      var v := Exact(price, 18);
      RateTextDenotes(v);
      ReciprocalIsZero(v);
      ReciprocalIsNearest(v);
      RateTextDenotes(Reciprocal(v));
    }
  }

  /** What is published for a bitcoin request: the price itself for USDT, if that is
      enabled. A missing price makes it unavailable, an unreadable one invalid. */
  lemma BitcoinRates(bitcoin: bool, usdt: bool, usd: Option<string>)
    ensures (var r := RatesFor(Btc, Offered(Btc, bitcoin, usdt), usd);
             if !usdt then r == Ok([])
             else if usd.None? then r == Err(Unavailable)
             else if !GoodPrice(usd.value) then r == Err(InvalidRequest)
             else r.Ok? && |r.value| == 1 && r.value[0].asset == "usdt"
                  && Readable(r.value[0].value, 18) && Exact(r.value[0].value, 18) == Exact(usd.value, 18))
  {
    assert RatesFor(Btc, [], usd) == Ok([]);
    hide RateValue, RatesFor, GoodPrice, Readable, Exact;
    if usd.Some? { CrossRate(Usdt, usd.value, Btc); }
    PlainRates(Btc, usd);
    OneRate(Btc, Usdt, usd);
    assert Offered(Btc, bitcoin, usdt) == if usdt then [Usdt] else [];
  }

  /** What is published for a dollar asset: first, if bitcoin is enabled, the reciprocal
      of the price, then, for dollars and if USDT is enabled, one for one. A missing price
      or one that rounds to a zero rate makes bitcoin unavailable, an unreadable one
      invalid; without bitcoin no price is needed. */
  lemma DollarRates(requested: Asset, bitcoin: bool, usdt: bool, usd: Option<string>)
    requires requested != Btc
    ensures (var r := RatesFor(requested, Offered(requested, bitcoin, usdt), usd);
             var even := if usdt && requested == Usd then [Rate("usdt", "1")] else [];
             if !bitcoin then r == Ok(even)
             else if usd.None? then r == Err(Unavailable)
             else if !GoodPrice(usd.value) then r == Err(InvalidRequest)
             else if Exact(usd.value, 18) >= 2 * SCALE_SQUARED then r == Err(Unavailable)
             else r.Ok? && r.value != [] && r.value[0].asset == "btc"
                  && IsReciprocal(r.value[0].value, usd.value) && r.value[1..] == even)
  {
    assert RatesFor(requested, [], usd) == Ok([]);
    hide RateValue, RatesFor, GoodPrice, IsReciprocal, Readable, Exact;
    if usd.Some? { CrossRate(Btc, usd.value, requested); }
    PlainRates(requested, usd);
    OneRate(requested, Btc, usd);
    OneRate(requested, Usdt, usd);
    TwoRates(requested, usd);
    assert Offered(requested, bitcoin, usdt)
        == if bitcoin then (if usdt && requested == Usd then [Btc, Usdt] else [Btc])
           else if usdt && requested == Usd then [Usdt] else [];
  }

  lemma OneRate(requested: Asset, asset: Asset, usd: Option<string>)
    ensures (var value := RateValue(requested, asset, usd);
             RatesFor(requested, [asset], usd)
             == if value.Err? then Err(value.error) else Ok([Rate(Name(asset), value.value)]))
  {
    hide RateValue;
    assert [asset] == [] + [asset];
    RatesForPush(requested, [], asset, usd);
    var value := RateValue(requested, asset, usd);
    if value.Ok? { assert [] + [Rate(Name(asset), value.value)] == [Rate(Name(asset), value.value)]; }
  }

  lemma TwoRates(requested: Asset, usd: Option<string>)
    ensures (var b, u := RateValue(requested, Btc, usd), RateValue(requested, Usdt, usd);
             RatesFor(requested, [Btc, Usdt], usd)
             == if b.Err? then Err(b.error) else if u.Err? then Err(u.error)
                else Ok([Rate("btc", b.value), Rate("usdt", u.value)]))
  {
    hide RateValue, RatesFor;
    OneRate(requested, Btc, usd);
    assert [Btc, Usdt] == [Btc] + [Usdt];
    if RatesFor(requested, [Btc], usd).Ok? {
      RatesForPush(requested, [Btc], Usdt, usd);
      var b, u := RateValue(requested, Btc, usd), RateValue(requested, Usdt, usd);
      if u.Ok? {
        assert [Rate("btc", b.value)] + [Rate("usdt", u.value)] == [Rate("btc", b.value), Rate("usdt", u.value)];
      }
    } else {
      FirstErrorStands(requested, [Btc], [Btc, Usdt], usd);
    }
  }

  lemma PlainRates(requested: Asset, usd: Option<string>)
    ensures forall asset :: !CrossesBitcoin(requested, asset) ==> RateValue(requested, asset, usd) == Ok("1")
    ensures forall asset :: CrossesBitcoin(requested, asset) && usd.None? ==>
              RateValue(requested, asset, usd) == Err(Unavailable)
  {
  }

  // --------------------------------------------------------------------- the payment

  function FindRate(rates: seq<Rate>, name: string): Option<Rate> {
    if rates == [] then None else if rates[0].asset == name then Some(rates[0]) else FindRate(rates[1..], name)
  }

  /** The rate used is the first one with the asset's name. */
  lemma {:induction false} FirstRateIsFound(rates: seq<Rate>, name: string)
    ensures FindRate(rates, name).None? <==> forall i | 0 <= i < |rates| :: rates[i].asset != name
    ensures forall i | 0 <= i < |rates| && rates[i].asset == name
                       && (forall j | 0 <= j < i :: rates[j].asset != name) ::
              FindRate(rates, name) == Some(rates[i])
  {
    if rates == [] {
    } else {
      var rest := rates[1..];
      FirstRateIsFound(rest, name);
      assert forall i | 0 < i < |rates| :: rest[i - 1] == rates[i];
      if rates[0].asset != name {
        forall i | 0 <= i < |rates| && rates[i].asset == name && (forall j | 0 <= j < i :: rates[j].asset != name)
          ensures FindRate(rates, name) == Some(rates[i])
        {
          assert forall j | 0 <= j < i - 1 :: rest[j] == rates[j + 1];
          assert rest[i - 1] == rates[i];
        }
      }
    }
  }

  function PaymentUnits(amount: string, requested: Asset, payment: Asset, rates: seq<Rate>): Result<U64, Error> {
    var units := DecimalUnits(amount, Decimals(requested));
    if units.Err? then Err(units.error)
    else
      var rate := FindRate(rates, Name(payment));
      if requested != payment && rate.None? then Err(InvalidRequest)
      else
        var multiplier := if requested == payment then Ok(RATE_SCALE) else DecimalUnits(rate.value.value, 18);
        if multiplier.Err? then Err(multiplier.error)
        else Converted(units.value, multiplier.value, PlaceValue(payment), PlaceValue(requested))
  }

  function PlaceValue(a: Asset): (p: nat)
    ensures 100 <= p <= 100_000_000 && p == Pow10(Decimals(a))
  {
    PowValues();
    match a case Btc => 100_000_000 case Usd => 100 case Usdt => 1_000_000
  }

  function Converted(units: U256, multiplier: U256, to: nat, from: nat): Result<U64, Error>
    requires 0 < to <= 100_000_000 && 0 < from <= 100_000_000
  {
    var product := CheckedMul(units, multiplier);
    if product.None? then Err(InvalidRequest)
    else
      var numerator := CheckedMul(product.value, to);
      if numerator.None? then Err(InvalidRequest)
      else
        var denominator := RATE_SCALE * from;
        var result := numerator.value / denominator + if numerator.value % denominator != 0 then 1 else 0;
        if result < U64_SPACE then Ok(result) else Err(InvalidRequest)
  }

  /** The least integer that is at least a / b. */
  function CeilDiv(a: nat, b: nat): (n: nat)
    requires b > 0
  {
    (a + b - 1) / b
  }

  lemma CeilDivIsLeast(a: nat, b: nat, n: nat)
    requires b > 0
    ensures CeilDiv(a, b) <= n <==> a <= n * b
  {
    var c := CeilDiv(a, b);
    DivMod(a + b - 1, b);
    assert a <= c * b < a + b;
    if c <= n { MulMonotone(c, n, b); }
    if n < c {
      MulMonotone(n + 1, c, b);
      Spread(n, 1, b);
    }
  }

  lemma CeilDivIsQuotient(a: nat, b: nat)
    requires b > 0
    ensures CeilDiv(a, b) == a / b + if a % b != 0 then 1 else 0
  {
    DivMod(a, b);
    var q := a / b + if a % b != 0 then 1 else 0;
    Spread(a / b, 1, b);
    CeilDivIsLeast(a, b, q);
    if q > 0 {
      CeilDivIsLeast(a, b, q - 1);
      Spread(q - 1, 1, b);
    }
  }

  lemma HugeQuote(n: nat, from: nat)
    requires n >= U256_SPACE && 0 < from <= 100_000_000
    ensures CeilDiv(n, RATE_SCALE * from) >= U64_SPACE
  {
    MulMonotone(RATE_SCALE * from, RATE_SCALE * 100_000_000, U64_SPACE - 1);
    CeilDivIsLeast(n, RATE_SCALE * from, U64_SPACE - 1);
  }

  ghost function Ceiling(units: nat, multiplier: nat, to: nat, from: nat): nat
    requires from > 0
  {
    CeilDiv(units * multiplier * to, RATE_SCALE * from)
  }

  lemma ConvertedIsExact(units: U256, multiplier: U256, to: nat, from: nat)
    requires 0 < to <= 100_000_000 && 0 < from <= 100_000_000
    ensures (var n := Ceiling(units, multiplier, to, from);
             Converted(units, multiplier, to, from) == if n < U64_SPACE then Ok(n) else Err(InvalidRequest))
  {
    var p := units * multiplier;
    MulMonotone(1, to, p);
    CeilDivIsQuotient(p * to, RATE_SCALE * from);
    if p * to >= U256_SPACE { HugeQuote(p * to, from); }
  }

  lemma HugeFactor(units: nat, multiplier: nat, to: nat, from: nat)
    requires 0 < units && 0 < multiplier && 0 < to && 0 < from <= 100_000_000
    requires units >= U256_SPACE || multiplier >= U256_SPACE
    ensures Ceiling(units, multiplier, to, from) >= U64_SPACE
  {
    MulMonotone(1, multiplier, units);
    MulMonotone(1, units, multiplier);
    MulMonotone(1, to, units * multiplier);
    HugeQuote(units * multiplier * to, from);
  }

  ghost predicate Positive(s: string, decimals: nat) { Readable(s, decimals) && Exact(s, decimals) > 0 }

  /** What is owed by rational arithmetic alone: the ceiling of amount times rate, if
      both are readable and positive. */
  ghost function Owed(amount: string, requested: Asset, payment: Asset, rates: seq<Rate>): Option<nat> {
    var rate := FindRate(rates, Name(payment));
    if !Positive(amount, Decimals(requested)) then None
    else if requested == payment then
      Some(Ceiling(Exact(amount, Decimals(requested)), RATE_SCALE, PlaceValue(payment), PlaceValue(requested)))
    else if rate.None? || !Positive(rate.value.value, 18) then None
    else
      Some(Ceiling(Exact(amount, Decimals(requested)), Exact(rate.value.value, 18),
                   PlaceValue(payment), PlaceValue(requested)))
  }

  /** The payment is computed exactly: for every amount and rate list it is the exact
      rational ceiling if that exists and fits in 64 bits, and refused otherwise. No
      256-bit step refuses early or changes the value. */
  lemma PaymentUnitsExact(amount: string, requested: Asset, payment: Asset, rates: seq<Rate>)
    ensures (var owed := Owed(amount, requested, payment, rates);
             PaymentUnits(amount, requested, payment, rates)
             == if owed.Some? && owed.value < U64_SPACE then Ok(owed.value) else Err(InvalidRequest))
  {
    hide Readable, Exact, DecimalUnits, Converted, Ceiling, PlaceValue;
    var to, from, d := PlaceValue(payment), PlaceValue(requested), Decimals(requested);
    DecimalUnitsExact(amount, d);
    var rate := FindRate(rates, Name(payment));
    if Positive(amount, d) {
      var u := Exact(amount, d);
      if requested == payment {
        if u < U256_SPACE { ConvertedIsExact(u, RATE_SCALE, to, from); }
        else { HugeFactor(u, RATE_SCALE, to, from); }
      } else if rate.Some? {
        DecimalUnitsExact(rate.value.value, 18);
        if Positive(rate.value.value, 18) {
          var m := Exact(rate.value.value, 18);
          if u < U256_SPACE && m < U256_SPACE { ConvertedIsExact(u, m, to, from); }
          else { HugeFactor(u, m, to, from); }
        }
      }
    }
  }

  // ---------------------------------------------------------------------- end to end

  /** The price in satoshi of `units` of a dollar asset at `price`, in real arithmetic. */
  ghost function IdealSats(units: nat, dollar: Asset, price: nat): nat
    requires price > 0
  {
    CeilDiv(units * 100_000_000 * RATE_SCALE, PlaceValue(dollar) * price)
  }

  /** Rounding the reciprocal rate moves the price by at most this much. */
  ghost function Slack(units: nat, dollar: Asset): nat { CeilDiv(units, 20_000_000_000 * PlaceValue(dollar)) }

  lemma CancelFactor(c: nat, a: nat, b: nat)
    requires c > 0 && c * a <= c * b
    ensures a <= b
  {
    if a > b { MulMonotone(b + 1, a, c); }
  }

  /** The rounded rate, multiplied by an amount of `e` and by the price `p`. */
  lemma ScaledRate(e: nat, m: nat, p: nat)
    requires Nearest(m, SCALE_SQUARED, p)
    ensures 2 * (p * (m * e)) <= 2 * (SCALE_SQUARED * e) + p * e
    ensures 2 * (SCALE_SQUARED * e) <= 2 * (p * (m * e)) + p * e
  {
    var t := m * p;
    MulMonotone(2 * t, 2 * SCALE_SQUARED + p, e);
    MulMonotone(2 * SCALE_SQUARED, 2 * t + p, e);
    Spread(2 * SCALE_SQUARED, p, e);
    Spread(2 * t, p, e);
    Spread(t, t, e);
    Commute(p, m, e);
  }

  lemma ScaledSlack(e: nat, k: nat, g: nat, p: nat)
    requires e <= k * (2 * RATE_SCALE * g)
    ensures p * e <= 2 * RATE_SCALE * (k * (g * p))
  {
    MulMonotone(e, k * (2 * RATE_SCALE * g), p);
    Gather(k, 2 * RATE_SCALE, g, p);
  }

  lemma Gather(k: nat, c: nat, g: nat, p: nat)
    ensures p * (k * (c * g)) == c * (k * (g * p))
  {
    Commute(k, c, g);
    Commute(p, c, k * g);
    Commute(k, g, p);
  }

  /** The error bound for integers: with the rate rounded to the nearest, the ceiling
      `n` at the rounded rate and the ceiling `ideal` at the exact one differ by at
      most `k`. */
  lemma RoundedAtMost(e: nat, m: nat, p: nat, g: nat, ideal: nat, k: nat)
    requires p > 0 && Nearest(m, SCALE_SQUARED, p)
    requires e * RATE_SCALE <= ideal * (g * p) && e <= k * (2 * RATE_SCALE * g)
    ensures m * e <= (ideal + k) * (RATE_SCALE * g)
  {
    hide Nearest;
    ScaledRate(e, m, p);
    ScaledSlack(e, k, g, p);
    Gather(ideal + k, RATE_SCALE, g, p);
    Spread(ideal, k, g * p);
    var x, q, r := p * (m * e), ideal * (g * p), k * (g * p);
    assert SCALE_SQUARED * e == RATE_SCALE * (e * RATE_SCALE);
    assert x <= RATE_SCALE * (q + r);
    CancelFactor(p, m * e, (ideal + k) * (RATE_SCALE * g));
  }

  lemma RoundedAtLeast(e: nat, m: nat, p: nat, g: nat, n: nat, k: nat)
    requires Nearest(m, SCALE_SQUARED, p)
    requires m * e <= n * (RATE_SCALE * g) && e <= k * (2 * RATE_SCALE * g)
    ensures e * RATE_SCALE <= (n + k) * (g * p)
  {
    hide Nearest;
    ScaledRate(e, m, p);
    ScaledSlack(e, k, g, p);
    MulMonotone(m * e, n * (RATE_SCALE * g), p);
    Gather(n, RATE_SCALE, g, p);
    Spread(n, k, g * p);
    var x, q, r := p * (m * e), n * (g * p), k * (g * p);
    assert x <= RATE_SCALE * q;
    assert SCALE_SQUARED * e == RATE_SCALE * (e * RATE_SCALE);
    assert RATE_SCALE * (e * RATE_SCALE) <= RATE_SCALE * (q + r);
  }

  lemma SlackCovers(units: nat, dollar: Asset)
    ensures 100_000_000 * units <= Slack(units, dollar) * (2 * RATE_SCALE * PlaceValue(dollar))
  {
    CeilDivIsLeast(units, 20_000_000_000 * PlaceValue(dollar), Slack(units, dollar));
  }

  /** Ceilings of the two prices, for any amount. */
  lemma CeilingsAreClose(units: nat, m: nat, dollar: Asset, price: nat)
    requires price > 0 && Nearest(m, SCALE_SQUARED, price)
    ensures (var n, ideal := Ceiling(units, m, 100_000_000, PlaceValue(dollar)), IdealSats(units, dollar, price);
             n <= ideal + Slack(units, dollar) && ideal <= n + Slack(units, dollar))
  {
    hide Nearest, PlaceValue, Slack, CeilDiv;
    var g, k, e := PlaceValue(dollar), Slack(units, dollar), 100_000_000 * units;
    var n, ideal := Ceiling(units, m, 100_000_000, g), IdealSats(units, dollar, price);
    assert units * m * 100_000_000 == m * e by { Commute(m, 100_000_000, units); }
    assert units * 100_000_000 * RATE_SCALE == e * RATE_SCALE;
    assert g * price > 0;
    SlackCovers(units, dollar);
    CeilDivIsLeast(m * e, RATE_SCALE * g, n);
    CeilDivIsLeast(e * RATE_SCALE, g * price, ideal);
    RoundedAtMost(e, m, price, g, ideal, k);
    RoundedAtLeast(e, m, price, g, n, k);
    CeilDivIsLeast(m * e, RATE_SCALE * g, ideal + k);
    CeilDivIsLeast(e * RATE_SCALE, g * price, n + k);
  }

  ghost function SatsFor(units: U64, dollar: Asset, usdt: bool, price: string): Result<U64, Error> {
    var rates := RatesFor(dollar, Offered(dollar, true, usdt), Some(price));
    if rates.Err? then Err(rates.error) else PaymentUnits(DecimalAmount(dollar, units), dollar, Btc, rates.value)
  }

  /** The published bitcoin rate of a dollar asset reads back as the rounded reciprocal. */
  lemma PublishedRate(dollar: Asset, usdt: bool, price: string)
    requires dollar != Btc && Readable(price, 18) && 0 < Exact(price, 18) < SCALE_SQUARED
    ensures (var rates := RatesFor(dollar, Offered(dollar, true, usdt), Some(price));
             && rates.Ok? && FindRate(rates.value, "btc").Some?
             && (var text := FindRate(rates.value, "btc").value.value;
                 Readable(text, 18) && Exact(text, 18) == Reciprocal(Exact(price, 18)) > 0))
  {
    hide Readable, Exact, DecimalUnits, Reciprocal, FormatRate;
    var assets := Offered(dollar, true, usdt);
    DecimalUnitsExact(price, 18);
    ReciprocalIsZero(Exact(price, 18));
    RateTextDenotes(Reciprocal(Exact(price, 18)));
    assert assets[0] == Btc && |assets| <= 2;
    var first := Rate("btc", FormatRate(Reciprocal(Exact(price, 18))));
    assert RateValue(dollar, Btc, Some(price)) == Ok(first.value);
    var one, none: seq<Asset> := [Btc], [];
    assert one[..|one| - 1] == none;
    assert RatesFor(dollar, none, Some(price)) == Ok([]);
    assert [] + [first] == [first];
    assert RatesFor(dollar, [Btc], Some(price)) == Ok([first]);
    if |assets| == 2 {
      assert assets[..1] == [Btc] && assets[1] == Usdt;
      assert RatesFor(dollar, assets, Some(price)) == Ok([first] + [Rate("usdt", "1")]);
    } else {
      assert assets == [Btc];
    }
  }

  /** End to end - rounding the rate, printing it, reading it back, converting and
      rounding up - the satoshi price of any nonzero amount of a dollar asset is
      within the slack of the ideal price at the price of the feed's only bitcoin ticker
      in dollars; it is refused only if it would not fit in 64 bits. */
  lemma EndToEnd(tickers: seq<Ticker>, nowNanos: int, i: nat, units: U64, dollar: Asset, usdt: bool)
    requires dollar != Btc && units > 0 && Accepted(tickers, nowNanos, i)
    ensures FeedPrice(tickers, nowNanos) == Ok(tickers[i].lastPrice)
    ensures (var price := tickers[i].lastPrice;
             var sats, ideal := SatsFor(units, dollar, usdt, price), IdealSats(units, dollar, Exact(price, 18));
             && (sats.Ok? ==>
                   sats.value <= ideal + Slack(units, dollar) && ideal <= sats.value + Slack(units, dollar))
             && (ideal + Slack(units, dollar) < U64_SPACE ==> sats.Ok?))
  {
    hide FeedPrice, SatsFor, Readable, Exact, Slack, IdealSats;
    FeedPriceExact(tickers, nowNanos);
    AcceptedPriceHasRates(tickers, nowNanos, i, dollar, Btc);
    PricedAt(tickers[i].lastPrice, units, dollar, usdt);
  }

  lemma PricedAt(price: string, units: U64, dollar: Asset, usdt: bool)
    requires dollar != Btc && units > 0 && Readable(price, 18) && 0 < Exact(price, 18) < SCALE_SQUARED
    ensures (var sats, ideal := SatsFor(units, dollar, usdt, price), IdealSats(units, dollar, Exact(price, 18));
             && (sats.Ok? ==>
                   sats.value <= ideal + Slack(units, dollar) && ideal <= sats.value + Slack(units, dollar))
             && (ideal + Slack(units, dollar) < U64_SPACE ==> sats.Ok?))
  {
    hide Readable, Exact, DecimalUnits, Reciprocal, Slack, IdealSats, Ceiling, PlaceValue, Nearest, RatesFor;
    hide PaymentUnits, DecimalAmount, FindRate;
    var m := Reciprocal(Exact(price, 18));
    PublishedRate(dollar, usdt, price);
    AmountRoundTrip(dollar, units);
    ReciprocalIsNearest(Exact(price, 18));
    CeilingsAreClose(units, m, dollar, Exact(price, 18));
    var rates := RatesFor(dollar, Offered(dollar, true, usdt), Some(price));
    PaymentUnitsExact(DecimalAmount(dollar, units), dollar, Btc, rates.value);
    assert PlaceValue(Btc) == 100_000_000 by { BitcoinPlaces(); }
  }

  lemma BitcoinPlaces()
    ensures PlaceValue(Btc) == 100_000_000
  {
  }

  /** Up to 2 * 10^10 whole dollars the slack is a single satoshi. */
  lemma SlackIsOne(units: nat, dollar: Asset)
    ensures Slack(units, dollar) <= 1 <==> units <= 20_000_000_000 * PlaceValue(dollar)
  {
    CeilDivIsLeast(units, 20_000_000_000 * PlaceValue(dollar), 1);
  }

  // ------------------------------------------------------- rates that need no rounding

  lemma OnlyRate(requested: Asset, asset: Asset, price: Option<string>)
    requires RateValue(requested, asset, price).Ok?
    ensures RatesFor(requested, [asset], price)
         == Ok([Rate(Name(asset), RateValue(requested, asset, price).value)])
  {
    var one, none: seq<Asset> := [asset], [];
    assert one[..|one| - 1] == none;
    assert RatesFor(requested, none, price) == Ok([]);
    var rate := Rate(Name(asset), RateValue(requested, asset, price).value);
    assert [] + [rate] == [rate];
  }

  ghost function UsdtFor(units: U64, price: string): Result<U64, Error> {
    var rates := RatesFor(Btc, [Usdt], Some(price));
    if rates.Err? then Err(rates.error) else PaymentUnits(DecimalAmount(Btc, units), Btc, Usdt, rates.value)
  }

  /** A bitcoin amount is priced in USDT at the quoted price itself, with no slack. */
  lemma BitcoinInUsdt(price: string, units: U64)
    requires units > 0 && Readable(price, 18) && 0 < Exact(price, 18) < U256_SPACE
    ensures (var owed := CeilDiv(units * Exact(price, 18) * 1_000_000, RATE_SCALE * 100_000_000);
             UsdtFor(units, price) == if owed < U64_SPACE then Ok(owed) else Err(InvalidRequest))
  {
    hide Readable, Exact, DecimalUnits, FormatRate, DecimalAmount, PaymentUnits, CeilDiv, RatesFor;
    DecimalUnitsExact(price, 18);
    OnlyRate(Btc, Usdt, Some(price));
    var text := FormatRate(Exact(price, 18));
    assert RateValue(Btc, Usdt, Some(price)) == Ok(text);
    RateTextDenotes(Exact(price, 18));
    AmountRoundTrip(Btc, units);
    PaymentUnitsExact(DecimalAmount(Btc, units), Btc, Usdt, [Rate("usdt", text)]);
  }

  lemma OneReadsAsOne()
    ensures Readable("1", 18) && Exact("1", 18) == RATE_SCALE
  {
    SplitWhole("1");
    ExactSum("1", 18);
    EmptyIsZero("");
    PowValues();
    assert "1"[..0] == "";
    assert Value("1") == 1;
  }

  /** One cent is ten thousand USDT units, with no feed and no rounding. */
  lemma DollarsInUsdt(units: U64)
    requires units > 0
    ensures RatesFor(Usd, [Usdt], None).Ok?
    ensures PaymentUnits(DecimalAmount(Usd, units), Usd, Usdt, RatesFor(Usd, [Usdt], None).value)
         == if units * 10_000 < U64_SPACE then Ok(units * 10_000) else Err(InvalidRequest)
  {
    hide Readable, Exact, DecimalUnits, DecimalAmount, PaymentUnits, RatesFor;
    OnlyRate(Usd, Usdt, None);
    OneReadsAsOne();
    AmountRoundTrip(Usd, units);
    PaymentUnitsExact(DecimalAmount(Usd, units), Usd, Usdt, [Rate("usdt", "1")]);
    assert Ceiling(units, RATE_SCALE, 1_000_000, 100) == units * 10_000;
  }
}
