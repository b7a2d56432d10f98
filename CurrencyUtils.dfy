/** The helpers of `valutatrade_hub/core/utils.py`, built on the currency
    registry of `Currencies`. */
module CurrencyUtils {
  import opened Text
  import opened Errors
  import opened Currencies

  /** `validate_currency_code`: whether the (upper-cased) code is registered,
      after the registry's lazy initialisation; an unknown code gives `false`,
      never an error. */
  method ValidateCurrencyCode(registry: Registry, code: string) returns (ok: bool)
    requires registry.Valid()
    modifies registry
    ensures registry.Valid()
    ensures registry.entries.Keys == KeysAfterInit(old(registry.entries).Keys)
    ensures old(registry.entries) != map[] ==> registry.entries == old(registry.entries)
    ensures old(registry.entries) == map[] ==> forall k :: k in registry.entries ==>
      fresh(registry.entries[k]) && exists j :: 0 <= j < |Predefined| && registry.entries[k].Built(Predefined[j])
    ensures ok <==> Upper(code) in registry.entries
  {
    var r := registry.GetCurrency(code);
    ok := r.Ok?;
  }

  /** `normalize_currency_code`: refuses a blank code, otherwise upper-cases
      and strips it. */
  function NormalizeCurrencyCode(code: string): (r: Result<string>)
    ensures r.Err? <==> IsBlank(code)
    ensures r.Err? ==> r.error == InvalidCurrency
    ensures r.Ok? ==> r.value == Upper(Strip(code)) && r.value != []
  {
    StripEmptyIffBlank(code);
    StripUpperCommute(code);
    if IsBlank(code) then Err(InvalidCurrency) else Ok(Strip(Upper(code)))
  }

  /** The string fact behind idempotence: upper-casing and stripping an
      upper-cased, stripped string gives it back. */
  lemma {:induction false} UpperStripFixed(code: string)
    ensures Strip(Upper(Strip(Upper(code)))) == Strip(Upper(code))
  {
    var n := Strip(Upper(code));
    StripUpperCommute(code);
    UpperIdempotent(Strip(code));
    assert Upper(n) == n;
    StripIdempotent(Upper(code));
  }

  /** Normalising a normalised code changes nothing. */
  lemma NormalizeIdempotent(code: string)
    requires NormalizeCurrencyCode(code).Ok?
    ensures NormalizeCurrencyCode(NormalizeCurrencyCode(code).value) == NormalizeCurrencyCode(code)
  {
    var n := NormalizeCurrencyCode(code).value;
    assert !IsSpace(n[0]);
    assert !IsBlank(n);
    UpperStripFixed(code);
  }

  /** `get_display_info` of the two currency kinds; `sci` stands for Python's
      `f"{x:.2e}"`, used only for a positive market capitalisation. */
  function DisplayInfo(c: Currency, sci: real -> string): (s: string)
    reads c
  {
    match c.kind
    case Fiat(country) =>
      "[FIAT] " + c.code + " \U{2014} " + c.name + " (Issuing: " + country + ")"
    case Crypto(algorithm) =>
      var mcap := if c.marketCap > 0.0 then sci(c.marketCap) else "N/A";
      "[CRYPTO] " + c.code + " \U{2014} " + c.name + " (Algo: " + algorithm + ", MCAP: " + mcap + ")"
  }

  /** `get_currency_display_info`: `None` for an unknown code, the currency's
      display line otherwise. */
  method GetCurrencyDisplayInfo(registry: Registry, code: string, sci: real -> string) returns (info: Option<string>)
    requires registry.Valid()
    modifies registry
    ensures registry.Valid()
    ensures registry.entries.Keys == KeysAfterInit(old(registry.entries).Keys)
    ensures old(registry.entries) != map[] ==> registry.entries == old(registry.entries)
    ensures old(registry.entries) == map[] ==> forall k :: k in registry.entries ==>
      fresh(registry.entries[k]) && exists j :: 0 <= j < |Predefined| && registry.entries[k].Built(Predefined[j])
    ensures info.None? <==> Upper(code) !in registry.entries
    ensures info.Some? ==> info.value == DisplayInfo(registry.entries[Upper(code)], sci)
  {
    var r := registry.GetCurrency(code);
    if r.Err? {
      return None;
    }
    return Some(DisplayInfo(r.value, sci));
  }

  /** `convert_amount`: a negative amount or a non-positive rate is refused;
      otherwise the amount times the rate. The currency codes play no part. */
  function ConvertAmount(amount: real, fromCurrency: string, toCurrency: string, rate: real): (r: Result<real>)
    ensures amount < 0.0 ==> r == Err(NegativeConvertAmount)
    ensures amount >= 0.0 && rate <= 0.0 ==> r == Err(NonPositiveRate)
    ensures r.Ok? <==> amount >= 0.0 && rate > 0.0
    ensures r.Ok? ==> r.value >= 0.0 && (r.value == 0.0 <==> amount == 0.0)
  {
    if amount < 0.0 then Err(NegativeConvertAmount)
    else if rate <= 0.0 then Err(NonPositiveRate)
    else Ok(amount * rate)
  }

  lemma ConvertAccepted(amount: real, a: string, b: string, rate: real)
    requires amount >= 0.0 && rate > 0.0
    ensures ConvertAmount(amount, a, b, rate) == Ok(amount * rate)
  {
  }

  /** Converting with a rate and back with its reciprocal returns the amount. */
  lemma ConvertRoundTrip(amount: real, a: string, b: string, rate: real)
    requires amount >= 0.0 && rate > 0.0
    ensures ConvertAmount(amount, a, b, rate).Ok?
    ensures ConvertAmount(ConvertAmount(amount, a, b, rate).value, b, a, 1.0 / rate) == Ok(amount)
  {
    ConvertAccepted(amount, a, b, rate);
    var x := amount * rate;
    var inv := 1.0 / rate;
    assert rate * inv == 1.0;
    assert x * inv == amount * (rate * inv) == amount;
    ConvertAccepted(x, b, a, inv);
    var back := ConvertAmount(x, b, a, inv);
    assert back.Ok? && back.value == amount;
  }

  /** Conversion is monotone in the amount. */
  lemma ConvertMonotone(x: real, y: real, a: string, b: string, rate: real)
    requires 0.0 <= x <= y && rate > 0.0
    ensures ConvertAmount(x, a, b, rate).value <= ConvertAmount(y, a, b, rate).value
  {
    assert y * rate - x * rate == (y - x) * rate;
  }
}
