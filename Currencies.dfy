/** Currencies and the currency registry of `valutatrade_hub/core/currencies.py`.
    The two subclasses `FiatCurrency` and `CryptoCurrency` become one class with
    a `Kind`; the module-level registry dictionary becomes a `Registry` object. */
module Currencies {
  import opened Text
  import opened Errors

  datatype Kind = Fiat(issuingCountry: string) | Crypto(algorithm: string)

  /** The plain data a currency is built from. */
  datatype CurrencyInfo = CurrencyInfo(name: string, code: string, kind: Kind, marketCap: real)

  /** `Currency._validate_code`: `None` when the raw code is acceptable. */
  function CodeError(code: string): (e: Option<Error>)
    ensures e.None? <==> !IsBlank(code) && 2 <= |code| <= 5 && IsAlnum(code)
    ensures IsBlank(code) ==> e == Some(EmptyCurrencyCode)
    ensures !IsBlank(code) && !(2 <= |code| <= 5) ==> e == Some(BadCodeLength)
    ensures !IsBlank(code) && 2 <= |code| <= 5 && !IsAlnum(code) ==> e == Some(NonAlnumCode)
  {
    if IsBlank(code) then Some(EmptyCurrencyCode)
    else if !(2 <= |code| <= 5) then Some(BadCodeLength)
    else if !IsAlnum(code) then Some(NonAlnumCode)
    else None
  }

  /** `Currency._validate_name`: a name must not be blank. */
  function NameError(name: string): (e: Option<Error>)
    ensures e.None? <==> Strip(name) != []
  {
    StripEmptyIffBlank(name);
    if IsBlank(name) then Some(EmptyCurrencyName) else None
  }

  /** A valid raw code is never changed by upper-casing in length, and upper-casing
      keeps it valid: the stored code passes the same check as the raw one. */
  lemma {:induction false} UpperKeepsCodeValid(code: string)
    requires CodeError(code).None?
    ensures CodeError(Upper(code)).None?
  {
    var u := Upper(code);
    assert u[0] == UpperChar(code[0]);
    assert IsAsciiAlnum(u[0]);
    assert !IsBlank(u);
    forall i | 0 <= i < |u| ensures IsAsciiAlnum(u[i]) {
      assert u[i] == UpperChar(code[i]);
    }
  }

  class Currency {
    const name: string
    const code: string
    const kind: Kind
    var marketCap: real

    ghost predicate Valid()
      reads this
    {
      CodeError(code).None? && code == Upper(code) && NameError(name).None?
    }

    /** `Currency.__init__`: validates the code, then the name, and stores the
        upper-cased code. The failing cases are handled by `NewCurrency`. */
    constructor (info: CurrencyInfo)
      requires CodeError(info.code).None? && NameError(info.name).None?
      ensures name == info.name && code == Upper(info.code) && kind == info.kind
      ensures marketCap == info.marketCap
      ensures Valid()
    {
      name := info.name;
      code := Upper(info.code);
      kind := info.kind;
      marketCap := info.marketCap;
      UpperKeepsCodeValid(info.code);
      UpperIdempotent(info.code);
    }

    function Info(): (r: CurrencyInfo)
      reads this
      ensures r.name == name && r.code == code && r.kind == kind && r.marketCap == marketCap
    {
      CurrencyInfo(name, code, kind, marketCap)
    }

    /** The currency carries the constant parts of `info`. */
    predicate Built(info: CurrencyInfo) {
      name == info.name && code == info.code && kind == info.kind
    }

    /** `Currency.__eq__`: currencies are equal exactly when their codes are. */
    predicate Equals(other: Currency) {
      code == other.code
    }

    /** `Currency.__hash__`: the hash of the code, `strHash` standing for Python's `hash(str)`. */
    function HashCode(strHash: string -> int): int {
      strHash(code)
    }

    /** The `market_cap` setter of `CryptoCurrency`: a negative value is refused
        and leaves the old one in place. */
    method SetMarketCap(value: real) returns (e: Option<Error>)
      requires kind.Crypto?
      modifies this`marketCap
      ensures value < 0.0 ==> e == Some(NegativeMarketCap) && marketCap == old(marketCap)
      ensures value >= 0.0 ==> e.None? && marketCap == value
    {
      if value < 0.0 {
        return Some(NegativeMarketCap);
      }
      marketCap := value;
      return None;
    }
  }

  /** Construction of a currency with its failure cases: the code is checked
      before the name. */
  method NewCurrency(info: CurrencyInfo) returns (r: Result<Currency>)
    ensures r.Ok? <==> CodeError(info.code).None? && NameError(info.name).None?
    ensures CodeError(info.code).Some? ==> r == Err(CodeError(info.code).value)
    ensures CodeError(info.code).None? && NameError(info.name).Some? ==> r == Err(EmptyCurrencyName)
    ensures r.Ok? ==> fresh(r.value) && r.value.Valid() && r.value.Info() == info.(code := Upper(info.code))
  {
    var ce := CodeError(info.code);
    if ce.Some? {
      return Err(ce.value);
    }
    var ne := NameError(info.name);
    if ne.Some? {
      return Err(ne.value);
    }
    var c := new Currency(info);
    return Ok(c);
  }

  /** Equality of currencies is an equivalence, and equal currencies hash alike. */
  lemma EqualsIsEquivalence(a: Currency, b: Currency, c: Currency, strHash: string -> int)
    ensures a.Equals(a)
    ensures a.Equals(b) ==> b.Equals(a)
    ensures a.Equals(b) && b.Equals(c) ==> a.Equals(c)
    ensures a.Equals(b) ==> a.HashCode(strHash) == b.HashCode(strHash)
  {
  }

  /** The seven fiat and five crypto currencies `_initialize_currency_registry` loads, in its order. */
  const Predefined: seq<CurrencyInfo> := [
    CurrencyInfo("US Dollar", "USD", Fiat("United States"), 0.0),
    CurrencyInfo("Euro", "EUR", Fiat("Eurozone"), 0.0),
    CurrencyInfo("British Pound", "GBP", Fiat("United Kingdom"), 0.0),
    CurrencyInfo("Japanese Yen", "JPY", Fiat("Japan"), 0.0),
    CurrencyInfo("Russian Ruble", "RUB", Fiat("Russia"), 0.0),
    CurrencyInfo("Swiss Franc", "CHF", Fiat("Switzerland"), 0.0),
    CurrencyInfo("Chinese Yuan", "CNY", Fiat("China"), 0.0),
    CurrencyInfo("Bitcoin", "BTC", Crypto("SHA-256"), 1120000000000.0),
    CurrencyInfo("Ethereum", "ETH", Crypto("Ethash"), 420000000000.0),
    CurrencyInfo("Litecoin", "LTC", Crypto("Scrypt"), 6500000000.0),
    CurrencyInfo("Ripple", "XRP", Crypto("XRP Ledger Consensus"), 38000000000.0),
    CurrencyInfo("Cardano", "ADA", Crypto("Ouroboros"), 14000000000.0)
  ]

  /** The codes of `infos`. */
  function CodesOf(infos: seq<CurrencyInfo>): (codes: set<string>)
    ensures forall j :: 0 <= j < |infos| ==> infos[j].code in codes
    decreases |infos|
  {
    if infos == [] then {} else CodesOf(infos[..|infos| - 1]) + {infos[|infos| - 1].code}
  }

  function PredefinedCodes(): set<string> {
    CodesOf(Predefined)
  }

  /** A currency that `Currency.__init__` accepts and whose code is already upper case. */
  ghost predicate Constructible(info: CurrencyInfo) {
    CodeError(info.code).None? && NameError(info.name).None? && Upper(info.code) == info.code
  }

  /** A code of two to five upper-case letters passes `_validate_code` and is
      left alone by upper-casing. */
  lemma UpperCodeValid(code: string)
    requires 2 <= |code| <= 5
    requires forall i :: 0 <= i < |code| ==> 'A' <= code[i] <= 'Z'
    ensures CodeError(code).None? && Upper(code) == code
  {
    assert !IsSpace(code[0]);
  }

  lemma NameValid(name: string)
    requires name != [] && 'A' <= name[0] <= 'Z'
    ensures NameError(name).None?
  {
    assert !IsSpace(name[0]);
  }

  /** The codes of the registry after `get_currency`'s lazy initialisation:
      the predefined set is loaded only into an EMPTY registry. */
  function KeysAfterInit(keys: set<string>): (r: set<string>)
    ensures keys != {} ==> r == keys
    ensures keys == {} ==> r == PredefinedCodes()
  {
    if keys == {} then PredefinedCodes() else keys
  }

  /** Every predefined currency passes the constructor's checks. */
  lemma PredefinedConstructible(i: nat)
    requires i < |Predefined|
    ensures Constructible(Predefined[i])
  {
    var info := Predefined[i];
    if i == 0 {
      UpperCodeValid(info.code); NameValid(info.name);
    } else if i == 1 {
      UpperCodeValid(info.code); NameValid(info.name);
    } else if i == 2 {
      UpperCodeValid(info.code); NameValid(info.name);
    } else if i == 3 {
      UpperCodeValid(info.code); NameValid(info.name);
    } else if i == 4 {
      UpperCodeValid(info.code); NameValid(info.name);
    } else if i == 5 {
      UpperCodeValid(info.code); NameValid(info.name);
    } else if i == 6 {
      UpperCodeValid(info.code); NameValid(info.name);
    } else if i == 7 {
      UpperCodeValid(info.code); NameValid(info.name);
    } else if i == 8 {
      UpperCodeValid(info.code); NameValid(info.name);
    } else if i == 9 {
      UpperCodeValid(info.code); NameValid(info.name);
    } else if i == 10 {
      UpperCodeValid(info.code); NameValid(info.name);
    } else {
      UpperCodeValid(info.code); NameValid(info.name);
    }
  }

  /** The currency objects `_initialize_currency_registry` builds from the
      predefined list, in its order. */
  method BuildPredefined() returns (cs: seq<Currency>)
    ensures |cs| == |Predefined|
    ensures forall j :: 0 <= j < |cs| ==>
      fresh(cs[j]) && cs[j].Built(Predefined[j]) && cs[j].marketCap == Predefined[j].marketCap
  {
    cs := [];
    for i := 0 to |Predefined|
      invariant |cs| == i
      invariant forall j :: 0 <= j < i ==>
        fresh(cs[j]) && cs[j].Built(Predefined[j]) && cs[j].marketCap == Predefined[j].marketCap
    {
      var c := MakePredefined(i);
      cs := cs + [c];
    }
  }

  /** The `i`-th currency of the initialiser's lists. */
  method MakePredefined(i: nat) returns (c: Currency)
    requires i < |Predefined|
    ensures fresh(c) && c.Built(Predefined[i]) && c.marketCap == Predefined[i].marketCap
  {
    PredefinedConstructible(i);
    c := new Currency(Predefined[i]);
  }

  /** The registry after filing each currency of `cs`, in order, under its
      code: a later currency replaces an earlier one with the same code. */
  ghost function Filed(base: map<string, Currency>, cs: seq<Currency>): (r: map<string, Currency>)
    ensures base.Keys <= r.Keys
    decreases |cs|
  {
    if cs == [] then base else Filed(base, cs[..|cs| - 1])[cs[|cs| - 1].code := cs[|cs| - 1]]
  }

  /** Filing currencies built from `infos` adds exactly their codes, keeps
      every other entry, and keeps every entry filed under its own code. */
  lemma FiledFacts(base: map<string, Currency>, cs: seq<Currency>, infos: seq<CurrencyInfo>)
    requires |cs| == |infos| && forall j :: 0 <= j < |cs| ==> cs[j].Built(infos[j])
    ensures Filed(base, cs).Keys == base.Keys + CodesOf(infos)
    ensures forall k :: k in base && k !in CodesOf(infos) ==> Filed(base, cs)[k] == base[k]
    ensures (forall k :: k in base ==> base[k].code == k) ==>
      forall k :: k in Filed(base, cs) ==> Filed(base, cs)[k].code == k
  {
    FiledKeys(base, cs, infos);
    FiledKeeps(base, cs, infos);
    if forall k :: k in base ==> base[k].code == k {
      FiledUnderCode(base, cs);
    }
  }

  lemma {:induction false} FiledKeys(base: map<string, Currency>, cs: seq<Currency>, infos: seq<CurrencyInfo>)
    requires |cs| == |infos| && forall j :: 0 <= j < |cs| ==> cs[j].Built(infos[j])
    ensures Filed(base, cs).Keys == base.Keys + CodesOf(infos)
    decreases |cs|
  {
    if cs != [] {
      var n := |cs| - 1;
      assert forall j :: 0 <= j < n ==> cs[..n][j] == cs[j] && infos[..n][j] == infos[j];
      FiledKeys(base, cs[..n], infos[..n]);
      assert cs[n].code == infos[n].code;
    }
  }

  lemma {:induction false} FiledKeeps(base: map<string, Currency>, cs: seq<Currency>, infos: seq<CurrencyInfo>)
    requires |cs| == |infos| && forall j :: 0 <= j < |cs| ==> cs[j].Built(infos[j])
    ensures forall k :: k in base && k !in CodesOf(infos) ==> Filed(base, cs)[k] == base[k]
    decreases |cs|
  {
    if cs != [] {
      var n := |cs| - 1;
      assert forall j :: 0 <= j < n ==> cs[..n][j] == cs[j] && infos[..n][j] == infos[j];
      FiledKeys(base, cs[..n], infos[..n]);
      FiledKeeps(base, cs[..n], infos[..n]);
      assert cs[n].code == infos[n].code;
    }
  }

  /** The position in `cs` of the currency an added code ends up with. */
  lemma {:induction false} FiledIndex(base: map<string, Currency>, cs: seq<Currency>, infos: seq<CurrencyInfo>,
                                      k: string) returns (j: nat)
    requires |cs| == |infos| && forall i :: 0 <= i < |cs| ==> cs[i].Built(infos[i])
    requires k in CodesOf(infos)
    ensures j < |cs| && k in Filed(base, cs) && Filed(base, cs)[k] == cs[j]
    decreases |cs|
  {
    var n := |cs| - 1;
    assert cs[n].code == infos[n].code;
    if k == cs[n].code {
      j := n;
    } else {
      assert forall i :: 0 <= i < n ==> cs[..n][i] == cs[i] && infos[..n][i] == infos[i];
      j := FiledIndex(base, cs[..n], infos[..n], k);
    }
  }

  lemma {:induction false} FiledUnderCode(base: map<string, Currency>, cs: seq<Currency>)
    requires forall k :: k in base ==> base[k].code == k
    ensures forall k :: k in Filed(base, cs) ==> Filed(base, cs)[k].code == k
    decreases |cs|
  {
    if cs != [] {
      FiledUnderCode(base, cs[..|cs| - 1]);
    }
  }

  /** The module-level `_currency_registry` dictionary. */
  class Registry {
    var entries: map<string, Currency>

    /** Every entry is filed under its currency's own code, as
        `register_currency` and the initialiser file them. */
    ghost predicate Valid()
      reads this
    {
      forall k :: k in entries ==> entries[k].code == k
    }

    constructor ()
      ensures entries == map[] && Valid()
    {
      entries := map[];
    }

    /** The loop of `_initialize_currency_registry`: files each currency of
        `cs`, in order, under its code. */
    method FileAll(cs: seq<Currency>)
      modifies this
      ensures entries == Filed(old(entries), cs)
    {
      var i := 0;
      while i < |cs|
        invariant 0 <= i <= |cs|
        invariant entries == Filed(old(entries), cs[..i])
      {
        assert cs[..i + 1][..i] == cs[..i];
        entries := entries[cs[i].code := cs[i]];
        i := i + 1;
      }
      assert cs[..|cs|] == cs;
    }

    /** `_initialize_currency_registry`: builds the predefined currencies, then
        files each under its code. */
    method Initialize()
      requires Valid()
      modifies this
      ensures Valid()
      ensures entries.Keys == old(entries).Keys + PredefinedCodes()
      ensures forall k :: k in old(entries) && k !in PredefinedCodes() ==> entries[k] == old(entries)[k]
      ensures forall k :: k in PredefinedCodes() ==>
        fresh(entries[k]) && exists j :: 0 <= j < |Predefined| && entries[k].Built(Predefined[j])
                                          && entries[k].marketCap == Predefined[j].marketCap
    {
      var cs := BuildPredefined();
      FileAll(cs);
      FiledFacts(old(entries), cs, Predefined);
      forall k | k in PredefinedCodes()
        ensures fresh(entries[k]) && exists j :: 0 <= j < |Predefined| && entries[k].Built(Predefined[j])
                                                 && entries[k].marketCap == Predefined[j].marketCap
      {
        var j := FiledIndex(old(entries), cs, Predefined, k);
        assert cs[j].Built(Predefined[j]) && cs[j].marketCap == Predefined[j].marketCap;
      }
    }

    /** `get_currency`: loads the predefined set when the registry is empty,
        then looks up the upper-cased code. */
    method GetCurrency(code: string) returns (r: Result<Currency>)
      requires Valid()
      modifies this
      ensures Valid()
      ensures entries.Keys == KeysAfterInit(old(entries).Keys)
      ensures old(entries) != map[] ==> entries == old(entries)
      ensures old(entries) == map[] ==> forall k :: k in entries ==>
        fresh(entries[k]) && exists j :: 0 <= j < |Predefined| && entries[k].Built(Predefined[j])
      ensures r.Ok? <==> Upper(code) in entries
      ensures r.Ok? ==> r.value == entries[Upper(code)] && r.value.code == Upper(code)
      ensures r.Err? ==> r.error == CurrencyNotFound(code)
    {
      if entries == map[] {
        Initialize();
      }
      var key := Upper(code);
      if key !in entries {
        return Err(CurrencyNotFound(code));
      }
      return Ok(entries[key]);
    }

    /** `register_currency`: sets the entry at the currency's code and nothing
        else. It does not initialise the registry. */
    method RegisterCurrency(c: Currency)
      requires Valid()
      modifies this
      ensures Valid()
      ensures entries == old(entries)[c.code := c]
    {
      entries := entries[c.code := c];
    }

    /** `get_all_currencies`: a copy of the (lazily initialised) registry. The
        copy is a map value, so changing it cannot change the registry; the
        currency objects in it are shared with the registry. */
    method GetAllCurrencies() returns (all: map<string, Currency>)
      requires Valid()
      modifies this
      ensures Valid()
      ensures entries.Keys == KeysAfterInit(old(entries).Keys)
      ensures old(entries) != map[] ==> entries == old(entries)
      ensures old(entries) == map[] ==> forall k :: k in entries ==>
        fresh(entries[k]) && exists j :: 0 <= j < |Predefined| && entries[k].Built(Predefined[j])
      ensures all == entries
    {
      if entries == map[] {
        Initialize();
      }
      all := entries;
    }
  }

  /** Registering a currency into a fresh registry before any lookup keeps the
      predefined currencies out for good: every other code, "USD" included, is
      then not found. */
  method RegisterBeforeLookupHidesPredefined(c: Currency, code: string) returns (r: Result<Currency>)
    requires Upper(code) != c.code
    ensures r == Err(CurrencyNotFound(code))
  {
    var registry := new Registry();
    registry.RegisterCurrency(c);
    assert c.code in registry.entries;
    r := registry.GetCurrency(code);
    assert registry.entries.Keys == {c.code};
  }

  /** Without that, the first lookup loads the predefined set: a lower-case
      "usd" finds the US dollar. */
  method FreshRegistryFindsDollar() returns (r: Result<Currency>)
    ensures r.Ok? && r.value.code == "USD"
  {
    var registry := new Registry();
    assert Upper("usd") == "USD" by {
      assert UpperChar('u') == 'U' && UpperChar('s') == 'S' && UpperChar('d') == 'D';
    }
    assert Predefined[0].code in PredefinedCodes();
    r := registry.GetCurrency("usd");
  }
}
