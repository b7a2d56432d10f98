/** `CurrencyService` of `valutatrade_hub/core/usecases.py`: the exchange-rate
    cache and the lookup that reads it. Quotes are keyed by the ordered pair
    (from, to); the cache's `source` and `last_refresh` entries are fields of
    their own. Times are integer microseconds. */
module Rates {
  import opened Errors

  datatype Quote = Quote(rate: real, updatedAt: int)

  type Pair = (string, string)

  /** A quote is fresh while it is younger than five minutes. */
  const FreshnessWindow: int := 5 * 60 * 1_000_000

  /** The fallback table used when the cache has no fresh quote. */
  const StubRates: map<string, real> :=
    map["USD" := 1.0, "EUR" := 0.85, "GBP" := 0.73, "JPY" := 110.0,
        "RUB" := 80.0, "BTC" := 100000.0, "ETH" := 3000.0]

  predicate IsFresh(q: Quote, now: int) {
    now - q.updatedAt < FreshnessWindow
  }

  predicate FreshIn(rates: map<Pair, Quote>, p: Pair, now: int) {
    p in rates && IsFresh(rates[p], now)
  }

  /** `get_exchange_rate` on a snapshot of the cache: the same code is 1.0;
      otherwise a fresh direct quote; otherwise the reciprocal of a fresh
      reverse quote (a stored 0.0 raises `ZeroDivisionError`); otherwise the
      stub table's `stub[to] / stub[from]`; otherwise the rate is unavailable. */
  function ExchangeRate(rates: map<Pair, Quote>, from: string, to: string, now: int): (r: Result<real>)
    ensures from == to ==> r == Ok(1.0)
    ensures from != to && FreshIn(rates, (from, to), now) ==> r == Ok(rates[(from, to)].rate)
    ensures from != to && !FreshIn(rates, (from, to), now) && FreshIn(rates, (to, from), now) ==>
      r == (if rates[(to, from)].rate == 0.0 then Err(DivisionByZero) else Ok(1.0 / rates[(to, from)].rate))
    ensures from != to && !FreshIn(rates, (from, to), now) && !FreshIn(rates, (to, from), now) ==>
      r == (if from in StubRates && to in StubRates then Ok(StubRates[to] / StubRates[from])
            else Err(RateUnavailable(from, to)))
  {
    if from == to then Ok(1.0)
    else if FreshIn(rates, (from, to), now) then Ok(rates[(from, to)].rate)
    else if FreshIn(rates, (to, from), now) then
      var q := rates[(to, from)].rate;
      if q == 0.0 then Err(DivisionByZero) else Ok(1.0 / q)
    else if from in StubRates && to in StubRates then Ok(StubRates[to] / StubRates[from])
    else Err(RateUnavailable(from, to))
  }

  predicate AllNonzero(rates: map<Pair, Quote>) {
    forall p :: p in rates ==> rates[p].rate != 0.0
  }

  predicate AllPositive(rates: map<Pair, Quote>) {
    forall p :: p in rates ==> rates[p].rate > 0.0
  }

  /** The quotes the service seeds an empty cache with, all dated `now`. */
  function Seeded(now: int): (rates: map<Pair, Quote>)
    ensures AllPositive(rates)
  {
    map[("USD", "USD") := Quote(1.0, now),
        ("EUR", "USD") := Quote(0.85, now),
        ("GBP", "USD") := Quote(0.73, now),
        ("JPY", "USD") := Quote(110.0, now),
        ("RUB", "USD") := Quote(80.0, now),
        ("BTC", "USD") := Quote(100000.0, now),
        ("ETH", "USD") := Quote(3000.0, now)]
  }

  class CurrencyService {
    var rates: map<Pair, Quote>
    var source: string
    var lastRefresh: int

    /** A service whose cache did not exist yet: the seven seeded quotes. */
    constructor (now: int)
      ensures rates == Seeded(now) && source == "stub" && lastRefresh == now
    {
      rates := Seeded(now);
      source := "stub";
      lastRefresh := now;
    }

    /** `get_exchange_rate`, reading the cache at time `now`. */
    function GetExchangeRate(from: string, to: string, now: int): (r: Result<real>)
      reads this
      ensures r == ExchangeRate(rates, from, to, now)
      ensures r.Err? && r.error != DivisionByZero ==> r.error == RateUnavailable(from, to)
    {
      ExchangeRate(rates, from, to, now)
    }

    /** `update_exchange_rate`: overwrites the one quote for (from, to),
        dated `now`, and marks the cache refreshed. The reverse quote and all
        others are kept; the rate is stored without any check. */
    method UpdateExchangeRate(from: string, to: string, rate: real, now: int)
      modifies this
      ensures rates == old(rates)[(from, to) := Quote(rate, now)]
      ensures lastRefresh == now && source == "stub"
    {
      rates := rates[(from, to) := Quote(rate, now)];
      lastRefresh := now;
      source := "stub";
    }
  }

  // ---------------------------------------------------------------- lemmas

  /** Only a stored rate of 0.0 can make a lookup divide by zero; since
      nothing checks the rate an update stores, the cache does not rule it out. */
  lemma NonzeroRatesNeverDivideByZero(rates: map<Pair, Quote>, from: string, to: string, now: int)
    requires AllNonzero(rates)
    ensures ExchangeRate(rates, from, to, now) != Err(DivisionByZero)
    ensures ExchangeRate(rates, from, to, now).Err? ==> ExchangeRate(rates, from, to, now).error.IsValueError()
  {
  }

  /** With positive quotes every rate found is positive. */
  lemma {:induction false} PositiveRatesGivePositiveRates(rates: map<Pair, Quote>, from: string, to: string, now: int)
    requires AllPositive(rates)
    ensures ExchangeRate(rates, from, to, now).Ok? ==> ExchangeRate(rates, from, to, now).value > 0.0
  {
    if from != to && !FreshIn(rates, (from, to), now) && !FreshIn(rates, (to, from), now)
       && from in StubRates && to in StubRates {
      assert StubRates[from] > 0.0 && StubRates[to] > 0.0;
    }
  }

  /** A storable quote of 0.0 does make the reverse lookup divide by zero. */
  lemma ZeroQuoteDividesByZero(rates: map<Pair, Quote>, from: string, to: string, now: int)
    requires from != to && !FreshIn(rates, (from, to), now)
    requires (to, from) in rates && rates[(to, from)] == Quote(0.0, now)
    ensures ExchangeRate(rates, from, to, now) == Err(DivisionByZero)
  {
  }

  /** After an update of (from, to), a lookup of the same pair within five
      minutes gives exactly the stored rate. */
  lemma UpdateThenLookup(rates: map<Pair, Quote>, from: string, to: string, rate: real, now: int, later: int)
    requires from != to && later - now < FreshnessWindow
    ensures ExchangeRate(rates[(from, to) := Quote(rate, now)], from, to, later) == Ok(rate)
  {
  }

  /** An update of (from, to) changes no lookup of a pair that involves
      neither (from, to) nor its reverse. */
  lemma UpdateLeavesOtherLookups(rates: map<Pair, Quote>, from: string, to: string, rate: real, now: int,
                                 a: string, b: string, later: int)
    requires (a, b) != (from, to) && (b, a) != (from, to)
    ensures ExchangeRate(rates[(from, to) := Quote(rate, now)], a, b, later) == ExchangeRate(rates, a, b, later)
  {
    var updated := rates[(from, to) := Quote(rate, now)];
    assert FreshIn(updated, (a, b), later) == FreshIn(rates, (a, b), later);
    assert FreshIn(updated, (b, a), later) == FreshIn(rates, (b, a), later);
  }

  predicate Reciprocal(x: real, y: real) {
    x * y == 1.0
  }

  /** With only one direction cached, the two lookups of a pair are
      reciprocal. */
  lemma {:induction false} OneQuoteLookupsReciprocal(rates: map<Pair, Quote>, from: string, to: string, now: int)
    requires from != to && FreshIn(rates, (from, to), now) && !FreshIn(rates, (to, from), now)
    requires rates[(from, to)].rate != 0.0
    ensures ExchangeRate(rates, from, to, now).Ok? && ExchangeRate(rates, to, from, now).Ok?
    ensures Reciprocal(ExchangeRate(rates, from, to, now).value, ExchangeRate(rates, to, from, now).value)
  {
    var q := rates[(from, to)].rate;
    assert ExchangeRate(rates, to, from, now) == Ok(1.0 / q);
    assert q * (1.0 / q) == 1.0;
  }

  /** With both directions cached, each lookup reads its own quote, so the
      two need not be reciprocal: nothing keeps them consistent. */
  lemma BothQuotesMayDisagree(rates: map<Pair, Quote>, from: string, to: string, now: int)
    requires from != to && FreshIn(rates, (from, to), now) && FreshIn(rates, (to, from), now)
    requires !Reciprocal(rates[(from, to)].rate, rates[(to, from)].rate)
    ensures !Reciprocal(ExchangeRate(rates, from, to, now).value, ExchangeRate(rates, to, from, now).value)
  {
    assert ExchangeRate(rates, from, to, now).value == rates[(from, to)].rate;
    assert ExchangeRate(rates, to, from, now).value == rates[(to, from)].rate;
  }

  /** Once the seeded BTC quote is stale, BTC to USD falls back to the stub
      table as written, `stub["USD"] / stub["BTC"]`: the inverse of the
      seeded 100000.0. */
  lemma StaleSeedFallsBackInverted(seededAt: int, now: int)
    requires now - seededAt >= FreshnessWindow
    ensures Seeded(seededAt)[("BTC", "USD")].rate == 100000.0
    ensures ExchangeRate(Seeded(seededAt), "BTC", "USD", now) == Ok(1.0 / 100000.0)
  {
    var rates := Seeded(seededAt);
    assert ("USD", "BTC") !in rates;
    assert !FreshIn(rates, ("BTC", "USD"), now);
    assert StubRates["USD"] == 1.0 && StubRates["BTC"] == 100000.0;
  }

  /** While it is fresh, the seeded BTC quote is returned as stored. */
  lemma FreshSeedAsStored(seededAt: int, now: int)
    requires now - seededAt < FreshnessWindow
    ensures ExchangeRate(Seeded(seededAt), "BTC", "USD", now) == Ok(100000.0)
  {
    assert FreshIn(Seeded(seededAt), ("BTC", "USD"), now);
  }
}
