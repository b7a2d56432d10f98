# ValutaTrade Hub in Dafny

A verified model of the domain layer of ValutaTrade Hub, a command-line currency wallet. Users
register and log in, hold one wallet per currency in a portfolio, and buy or sell currencies
against US dollars. Prices come from a local exchange-rate cache.

The model covers these parts:

- the exchange-rate lookup with its freshness rule, its reverse-quote and stub-table fallbacks,
  and the cache update (`CurrencyService`);
- trade orchestration (`TradingService`): the order of the checks, how errors are reported,
  "save only on success", and the receipt arithmetic;
- the user store (`UserManager`): registration, authentication, and lazy portfolio entries;
- the login session and its 24-hour expiry (`SessionManager`);
- currencies, code and name validation, and the lazily initialised currency registry;
- the currency helpers: validate, normalise, display, convert;
- the `User` entity: username and password rules, salted hashing, verification, and the stored
  record with its round trip;
- the command handlers that hold logic: login, logout, the buy/sell/show-portfolio guards, the
  per-wallet valuation rows, and get-rate's reverse rate.

Files, JSON and the clock are replaced by in-memory state and an explicit `now`, an integer
number of microseconds. SHA-256 is the function parameter `sha256`, applied to the password
followed by the salt. A freshly generated salt is the parameter `freshSalt`. Python's
`hash(str)` is `strHash`, and `f"{x:.2e}"` is `sci`. Every `raise` becomes an `Err` of
`Errors.Error`. `Error.IsValueError()` holds for every error except five. This matters
because the source catches only `ValueError`. The five are:

- `CurrencyNotFound`, the `CurrencyNotFoundError` of `get_currency`, a plain `Exception` subclass;
- `InvalidCurrency`, the `InvalidCurrencyError` of `normalize_currency_code`, also a plain
  `Exception` subclass;
- `DivisionByZero`, the `ZeroDivisionError` of `1.0 / rate` on a stored rate of 0.0;
- `NoWalletAfterTrade`, the `AttributeError` that `buy_currency` itself raises when it reads the
  balance of a wallet the purchase did not leave;
- `PortfolioRaised`, any exception raised inside the portfolio's own code, which is not part of
  this model. It is treated as passing every `except ValueError`.

Modules, one per source file or class:

- `Text`: Python's `strip`, `upper`, `isspace` and `isalnum`;
- `Errors`: errors, `Result` and `Option`;
- `Currencies`;
- `CurrencyUtils`;
- `Models`: `User`;
- `Portfolios`: the portfolio interface;
- `Rates`: `CurrencyService`;
- `Users`: `UserManager`;
- `Trading`: `TradingService`;
- `Sessions`: `SessionManager`;
- `Cli`.

Nothing in `update_exchange_rate` checks that a stored rate is positive, and the model stores
any rate unchecked as well. A stored 0.0 makes the reverse lookup divide by zero
(`Rates.ZeroQuoteDividesByZero`). That `ZeroDivisionError` is not a `ValueError`, so the
trade and show-portfolio handlers let it through. The lemmas that need a nonzero or positive
cache (`NonzeroRatesNeverDivideByZero`, `PositiveRatesGivePositiveRates`,
`NonzeroRatesNeverAbortTable`) therefore take that property as a hypothesis.

## Model

| member | source | states |
|---|---|---|
| Currencies.CodeError | valutatrade_hub/core/currencies.py:16-23 | a code is accepted iff it is not blank, has 2 to 5 characters and is alphanumeric; a blank code is reported first, then a bad length, then a non-alphanumeric code |
| Currencies.NameError | valutatrade_hub/core/currencies.py:25-28 | a name is accepted iff stripping leaves something |
| Currencies.UpperKeepsCodeValid | valutatrade_hub/core/currencies.py:9-14 | the upper-cased code that is stored passes the same code check as the raw code |
| Currencies.Currency.constructor | valutatrade_hub/core/currencies.py:9-14 | stores the name, the kind, the market cap and the upper-cased code; the result is valid |
| Currencies.Currency.SetMarketCap | valutatrade_hub/core/currencies.py:95-100 | a negative value is refused and the old market cap stays; otherwise the value is stored |
| Currencies.NewCurrency | valutatrade_hub/core/currencies.py:9-28 | construction succeeds iff both checks pass; the code error is reported before the name error; a new currency carries the input with its code upper-cased |
| Currencies.EqualsIsEquivalence | valutatrade_hub/core/currencies.py:51-57 | equality by code is reflexive, symmetric and transitive, and equal currencies hash alike |
| Currencies.KeysAfterInit | valutatrade_hub/core/currencies.py:143-146 | the registry's codes after lazy initialisation: unchanged when non-empty, the predefined codes when empty |
| Currencies.PredefinedConstructible | valutatrade_hub/core/currencies.py:115-137 | each of the twelve predefined currencies passes the constructor's checks and has an upper-case code |
| Currencies.Registry.constructor | valutatrade_hub/core/currencies.py:112 | the registry starts empty |
| Currencies.BuildPredefined | valutatrade_hub/core/currencies.py:119-137 | the loop builds one new currency per predefined entry, in order, each carrying that entry's name, upper-case code and kind |
| Currencies.FiledFacts | valutatrade_hub/core/currencies.py:139-140 | filing a list of currencies adds exactly their codes, keeps every other entry, and keeps every entry filed under its own code |
| Currencies.FiledIndex | valutatrade_hub/core/currencies.py:139-140 | every filed code maps to one of the filed currencies, and the lemma names which |
| Currencies.MakePredefined | valutatrade_hub/core/currencies.py:119-137 | builds a new currency from the predefined entry at the given index, which the constructor's checks accept |
| Currencies.Registry.FileAll | valutatrade_hub/core/currencies.py:139-140 | the loop files each currency in order under its code, a later one replacing an earlier one with the same code |
| Currencies.Registry.Initialize | valutatrade_hub/core/currencies.py:115-140 | adds exactly the predefined codes, each mapped to a new currency built from a predefined entry, with that entry's market cap; other entries are untouched |
| Currencies.Registry.GetCurrency | valutatrade_hub/core/currencies.py:143-152 | initialises only an empty registry, and then every entry is a new currency built from a predefined entry; a non-empty registry is left unchanged; finds the currency iff the upper-cased code is a key, otherwise reports CurrencyNotFound with the code as given |
| Currencies.Registry.RegisterCurrency | valutatrade_hub/core/currencies.py:155-157 | sets exactly the entry at the currency's code, without initialising |
| Currencies.Registry.GetAllCurrencies | valutatrade_hub/core/currencies.py:160-164 | returns the lazily initialised registry as a map value, so changing the result cannot change the registry; after initialising an empty registry every entry is a new currency built from a predefined entry; a non-empty registry is left unchanged |
| Currencies.RegisterBeforeLookupHidesPredefined | valutatrade_hub/core/currencies.py:143-157 | registering into a fresh registry before any lookup leaves every other code, predefined ones included, not found |
| Currencies.FreshRegistryFindsDollar | valutatrade_hub/core/currencies.py:143-152 | the first lookup of a fresh registry loads the predefined set, so "usd" finds a currency with code "USD" |
| CurrencyUtils.ValidateCurrencyCode | valutatrade_hub/core/utils.py:8-14 | true iff the upper-cased code is a key after lazy initialisation; an unknown code gives false, never an error; a non-empty registry is left unchanged, and an empty one receives new predefined currencies |
| CurrencyUtils.NormalizeCurrencyCode | valutatrade_hub/core/utils.py:17-21 | an error iff the code is blank; otherwise the non-empty upper-cased, stripped code |
| CurrencyUtils.NormalizeIdempotent | valutatrade_hub/core/utils.py:17-21 | normalising an already normalised code gives it back unchanged |
| CurrencyUtils.GetCurrencyDisplayInfo | valutatrade_hub/core/utils.py:24-30 | None iff the upper-cased code is unknown after lazy initialisation; otherwise the display line of the currency registered under it; a non-empty registry is left unchanged, and an empty one receives new predefined currencies |
| CurrencyUtils.ConvertAmount | valutatrade_hub/core/utils.py:33-45 | a negative amount is refused first, then a non-positive rate; a result exists iff amount >= 0 and rate > 0; it is never negative, and it is zero iff the amount is zero |
| CurrencyUtils.ConvertRoundTrip | valutatrade_hub/core/utils.py:45 | converting with a rate and then back with its reciprocal returns the original amount |
| CurrencyUtils.ConvertMonotone | valutatrade_hub/core/utils.py:45 | a larger amount never converts to less |
| Models.CheckUsername | valutatrade_hub/core/models.py:32-39 | blank is refused first, then an unstripped length below 3; otherwise the stripped value is kept, and it is non-empty and already stripped |
| Models.HashPassword | valutatrade_hub/core/models.py:61-69 | refused iff the password is shorter than 4; otherwise the hash of the password followed by the salt |
| Models.Created | valutatrade_hub/core/models.py:8-20 | the constructor checks the username, then the password; on success the record has the stripped name, the given or fresh salt, the given date or `now`, and a hash that accepts the password |
| Models.Loaded | valutatrade_hub/core/models.py:104-116 | loading fails exactly when the stored username fails the setter; otherwise it keeps the id, the date, a given salt and the stored hash, never the placeholder's |
| Models.CreatedAcceptsPassword | valutatrade_hub/core/models.py:8-20 | a created user verifies the password it was created with, and its record is well formed |
| Models.LoadRoundTrip | valutatrade_hub/core/models.py:94-116 | loading a stored well-formed record whose username has at least 3 characters gives exactly that record back |
| Models.ShortStrippedNameNotReloadable | valutatrade_hub/core/models.py:35-39 | a name the setter accepts only because of surrounding spaces is stored in a form that loading refuses |
| Models.PaddedNameAccepted | valutatrade_hub/core/models.py:35-39 | the setter accepts "  a" and stores "a" |
| Models.User.constructor | valutatrade_hub/core/models.py:16-20 | the user holds exactly the given record |
| Models.User.GetUserInfo | valutatrade_hub/core/models.py:86-92 | only the id, the name and the date; the hash and the salt cannot influence it |
| Models.User.VerifyPassword | valutatrade_hub/core/models.py:71-77 | true iff the salted hash matches the stored hash; a short password gives false, not an error |
| Models.User.SetUsername | valutatrade_hub/core/models.py:32-39 | a refused value leaves the name unchanged; an accepted one stores the stripped value |
| Models.User.ChangePassword | valutatrade_hub/core/models.py:79-84 | a short password is refused and the hash stays; otherwise the hash becomes that of the new password, which then verifies; nothing else can change |
| Models.NewUser | valutatrade_hub/core/models.py:8-20 | fails exactly as the constructor does; otherwise a new, well-formed user whose record is the created one and which accepts the password |
| Models.FromDict | valutatrade_hub/core/models.py:104-116 | fails exactly as loading does; otherwise a new, well-formed user holding the loaded record |
| Portfolios.FindWallet | valutatrade_hub/core/usecases.py:283-285 | finds a wallet iff one is held in that currency, and the wallet found is held in that currency |
| Users.NextId | valutatrade_hub/core/usecases.py:70-74 | 1 for no users; otherwise one more than the largest id, so greater than every id in use |
| Users.FirstIndex | valutatrade_hub/core/usecases.py:95-96 | the position of the first record with exactly this username, or none when no record has it |
| Users.Authentication | valutatrade_hub/core/usecases.py:88-103 | empty credentials and an unknown name are refused; otherwise the first record with the name is reloaded, a reload error is passed on, and the login succeeds iff the password matches the reloaded record, returning that record, else reports WrongPassword |
| Users.WithEntry | valutatrade_hub/core/usecases.py:105-119 | a missing entry is created empty; existing entries are unchanged |
| Users.RegisteredCanAuthenticate | valutatrade_hub/core/usecases.py:88-103 | a user appended as registration appends them authenticates with the registered password and gets that record back |
| Users.PaddedLoginNotFound | valutatrade_hub/core/usecases.py:95-103 | in a store built by registration, a login name starting with whitespace finds nobody |
| Users.UserManager.constructor | valutatrade_hub/core/usecases.py:18-26 | a new store has no users and no portfolio entries |
| Users.UserManager.NextUserId | valutatrade_hub/core/usecases.py:70-74 | the loop computes the next id |
| Users.UserManager.IsNameTaken | valutatrade_hub/core/usecases.py:66-68 | the loop says whether some stored record has the name |
| Users.UserManager.FindUser | valutatrade_hub/core/usecases.py:95-96 | the loop finds the first record with the name |
| Users.UserManager.RegisterUser | valutatrade_hub/core/usecases.py:54-86 | checks blank name, short password, taken stripped name, then the constructor's checks; a success appends the created record (the next id, the stripped name, the hash of the password with the fresh salt, that salt, and `now` as the registration date) with an empty portfolio, and that user verifies the password; a failure changes nothing; the store stays valid |
| Users.UserManager.AuthenticateUser | valutatrade_hub/core/usecases.py:88-103 | fails exactly as Authentication does; otherwise a new user holding the authenticated record |
| Users.UserManager.GetUserPortfolio | valutatrade_hub/core/usecases.py:105-119 | creates a missing entry empty and returns the user's wallets |
| Users.UserManager.SaveUserPortfolio | valutatrade_hub/core/usecases.py:121-125 | replaces only that user's entry |
| Users.StrippedNameAccepted | valutatrade_hub/core/usecases.py:56-77 | after registration strips a name, the constructor accepts it iff it has at least 3 characters, and keeps it as is |
| Users.RegistrationRecord | valutatrade_hub/core/usecases.py:62-78 | once the blank-name and password checks pass, the constructor succeeds on the stripped name iff it has at least 3 characters; the record then holds that name, the fresh salt, the date and the hash of the password with that salt, and is well formed |
| Users.AppendKeepsStore | valutatrade_hub/core/usecases.py:66-84 | appending a new, well-formed record with a fresh name under the next id, plus an empty entry, keeps names distinct, ids increasing and every user's entry present |
| Rates.ExchangeRate | valutatrade_hub/core/usecases.py:167-205 | the same code gives 1.0; then a fresh direct quote, returned unchanged; then the reciprocal of a fresh reverse quote, where 0.0 divides by zero; then the stub table's `stub[to] / stub[from]`; otherwise the rate is unavailable |
| Rates.Seeded | valutatrade_hub/core/usecases.py:141-151 | the seven seeded quotes are all positive |
| Rates.CurrencyService.constructor | valutatrade_hub/core/usecases.py:136-152 | a new cache holds the seeded quotes dated now, source "stub" and last refresh now |
| Rates.CurrencyService.GetExchangeRate | valutatrade_hub/core/usecases.py:167-205 | the lookup on the current cache; the only errors are division by zero and the rate being unavailable |
| Rates.CurrencyService.UpdateExchangeRate | valutatrade_hub/core/usecases.py:207-224 | overwrites only the (from, to) quote, dated now; sets last refresh to now and source to "stub" |
| Rates.NonzeroRatesNeverDivideByZero | valutatrade_hub/core/usecases.py:184-189 | with no stored 0.0 the lookup never divides by zero, so every failure is a ValueError |
| Rates.PositiveRatesGivePositiveRates | valutatrade_hub/core/usecases.py:167-205 | with positive stored quotes every rate found is positive |
| Rates.ZeroQuoteDividesByZero | valutatrade_hub/core/usecases.py:184-189 | a fresh reverse quote of 0.0 makes the lookup divide by zero |
| Rates.UpdateThenLookup | valutatrade_hub/core/usecases.py:214-224 | for two different codes, a lookup within five minutes of an update returns the stored rate |
| Rates.UpdateLeavesOtherLookups | valutatrade_hub/core/usecases.py:214-224 | an update changes no lookup of a pair other than the updated one and its reverse |
| Rates.OneQuoteLookupsReciprocal | valutatrade_hub/core/usecases.py:176-189 | with a nonzero quote fresh in one direction only, the two lookups of the pair are reciprocal |
| Rates.BothQuotesMayDisagree | valutatrade_hub/core/usecases.py:176-189 | with both directions fresh, each lookup returns its own quote, so non-reciprocal quotes give non-reciprocal lookups |
| Rates.StaleSeedFallsBackInverted | valutatrade_hub/core/usecases.py:192-203 | once the seeded BTC quote of 100000.0 is stale, BTC to USD falls back to 1/100000 |
| Rates.FreshSeedAsStored | valutatrade_hub/core/usecases.py:176-181 | while the seeded BTC quote is fresh, BTC to USD is 100000.0 |
| Trading.TradeRate | valutatrade_hub/core/usecases.py:247-250 | the lookup's rate to USD; a ValueError becomes "could not get the rate for the currency", and a division by zero passes through |
| Trading.BuyOutcome | valutatrade_hub/core/usecases.py:234-268 | a non-positive amount is refused before the portfolio is loaded; a rate failure is reported as described; on success the rate is the lookup's, the total is amount times rate, and the new balance exceeds the old by the amount (`BuySavesTradedPortfolio` gives the new balance itself; `BuySucceedsWhenPortfolioDoes` gives when it succeeds and which error a refusal gives); an ordinary failure saves nothing beyond the lazily created entry |
| Trading.SellOutcome | valutatrade_hub/core/usecases.py:270-316 | a non-positive amount is refused, then a missing wallet, then a balance below the amount, all independently of the rates; on success the rate is the lookup's, the total is amount times rate and the old balance exceeds the new by the amount (`SellSavesTradedPortfolio` gives the new balance itself and the save; `SellSucceedsWhenPortfolioDoes` gives when it succeeds and which error a refusal gives); a failure saves nothing beyond the lazily created entry |
| Trading.SellChecksPrecedeRateLookup | valutatrade_hub/core/usecases.py:277-298 | a sale refused for the amount, a missing wallet or a short balance has the same outcome whatever the cache holds and whenever it is asked |
| Trading.BuyReportsRateFailure | valutatrade_hub/core/usecases.py:247-250 | a failed lookup makes a positive purchase fail with "could not get the rate" (or division by zero) and save only the lazily created entry |
| Trading.BuySavesTradedPortfolio | valutatrade_hub/core/usecases.py:253-268 | a successful purchase is one the portfolio reported as successful; exactly the portfolio it left is saved; that portfolio holds a wallet in the currency, and the receipt's new balance is that wallet's balance |
| Trading.SellSavesTradedPortfolio | valutatrade_hub/core/usecases.py:300-316 | a successful sale is one the portfolio reported as successful; exactly the portfolio it left is saved; when that portfolio holds a wallet in the currency, the receipt's new balance is that wallet's balance |
| Trading.BuySucceedsWhenPortfolioDoes | valutatrade_hub/core/usecases.py:253-268 | with a positive amount and a rate, an error raised by the portfolio's purchase is passed on, a refused purchase gives the not-enough-USD error, and an accepted one succeeds exactly when it leaves a wallet in the currency, otherwise failing with the missing-wallet error |
| Trading.SellSucceedsWhenPortfolioDoes | valutatrade_hub/core/usecases.py:300-316 | with a positive amount, a wallet holding at least that amount and a rate, an error raised by the portfolio's sale is passed on, a refused sale gives the sale-failed error, and an accepted sale succeeds |
| Trading.TradingService.constructor | valutatrade_hub/core/usecases.py:230-232 | the service works on the given user store and rate cache |
| Trading.TradingService.BuyCurrency | valutatrade_hub/core/usecases.py:234-268 | the receipt and the saved portfolios are those of BuyOutcome; the user records are unchanged |
| Trading.TradingService.SellCurrency | valutatrade_hub/core/usecases.py:270-316 | the receipt and the saved portfolios are those of SellOutcome; the user records are unchanged |
| Sessions.Current | valutatrade_hub/core/usecases.py:343-357 | a session is reported iff there is one and `now` is not past its expiry, and then it is reported unchanged |
| Sessions.SessionLastsADay | valutatrade_hub/core/usecases.py:332-339 | a new session is current exactly until 24 hours after its creation |
| Sessions.CurrentLater | valutatrade_hub/core/usecases.py:349-353 | expiry is final: asking at `now` and then later equals asking only later |
| Sessions.SessionManager.constructor | valutatrade_hub/core/usecases.py:326-330 | a new session file holds no session |
| Sessions.SessionManager.CreateSession | valutatrade_hub/core/usecases.py:332-341 | replaces any session with one created now and expiring 24 hours later |
| Sessions.SessionManager.GetCurrentSession | valutatrade_hub/core/usecases.py:343-357 | reports the current session, and a session that has expired is cleared |
| Sessions.SessionManager.ClearSession | valutatrade_hub/core/usecases.py:359-362 | no session remains |
| Sessions.SessionManager.IsSessionActive | valutatrade_hub/core/usecases.py:364-366 | true iff a session exists and has not expired, and it clears an expired one |
| Cli.RowFor | valutatrade_hub/cli/interface.py:276-295 | the base currency is valued at its balance; another currency is valued at balance times the looked-up rate when the lookup succeeds, shows "unknown" when it fails with a ValueError, and aborts with the lookup's own error otherwise |
| Cli.Rows | valutatrade_hub/cli/interface.py:275-295 | the table exists iff no row aborts; then it has one row per wallet, in order, each that wallet's own row; otherwise the first aborting row's error |
| Cli.NonzeroRatesNeverAbortTable | valutatrade_hub/cli/interface.py:275-295 | with no stored 0.0 a failing rate never aborts the table: every wallet gets a row |
| Cli.RateReportFor | valutatrade_hub/cli/interface.py:212-245 | on upper-cased codes: a lookup failing with a ValueError prints "unavailable", any other failure aborts with that error; a successful lookup is shown with the looked-up rate and, for two different codes, its reciprocal as the reverse rate; a rate of 0.0 between different codes divides by zero |
| Cli.ReverseRate | valutatrade_hub/cli/interface.py:240-242 | the reverse rate times the rate is 1 |
| Cli.ValuationRows | valutatrade_hub/cli/interface.py:275-295 | the loop produces exactly the table Rows describes, stopping at the first aborting row |
| Cli.RowsFirstError | valutatrade_hub/cli/interface.py:275-295 | when every row before position i is fine and row i aborts, the table aborts with row i's error |
| Cli.Cli.constructor | valutatrade_hub/cli/interface.py:13-30 | the user of a current session is logged in at start-up, and an expired session is cleared |
| Cli.Cli.Login | valutatrade_hub/cli/interface.py:142-150 | fails exactly when authentication does, with authentication's own error, and then changes nothing; otherwise the user becomes the current user and a new 24-hour session is stored |
| Cli.Cli.Logout | valutatrade_hub/cli/interface.py:152-160 | logs out iff someone is logged in, and only then clears the session; afterwards nobody is logged in |
| Cli.Cli.Buy | valutatrade_hub/cli/interface.py:162-174 | refused without a login, then for a non-positive amount, saving nothing; otherwise exactly the purchase of the upper-cased code |
| Cli.Cli.Sell | valutatrade_hub/cli/interface.py:187-199 | the same guards as buy; otherwise exactly the sale of the upper-cased code |
| Cli.Cli.ShowPortfolio | valutatrade_hub/cli/interface.py:247-298 | refused without a login; a missing entry is created; a total the portfolio cannot compute aborts before any row; otherwise the report holds the total and exactly the table's rows |
| Cli.Cli.GetRate | valutatrade_hub/cli/interface.py:212-245 | get-rate on the current cache, without a login |

## Left out

- File I/O and JSON. The users, portfolios, rates and session files are fields of the classes that own them. Treating a missing or malformed file as empty is taken as given, and each read-modify-write is one atomic update.
- Timestamps. `datetime.now()` is a parameter `now`, and ISO 8601 timestamps are integers. `create_session` calls `now()` twice, and so do `get_exchange_rate` and `update_exchange_rate`. The seeding of a new rate file calls it once per entry. The model uses one instant per call.
- Floating point. Amounts, balances and rates are exact reals. The model leaves out rounding, the `:.4f`/`:,.2f` formatting, the `.8f` printing of get-rate, and its "updated at" line.
- SHA-256, `secrets.token_hex` and Python's `hash`. They are parameters (`sha256`, `freshSalt`, `strHash`).
- `Text.Upper`: does not model Unicode case mapping, because only ASCII letters are upper-cased. `Text.IsAlnum` likewise accepts only ASCII letters and digits.
- The `Portfolio` and `Wallet` classes. They are imported from `models` but not defined there, so they are not part of this model. Their purchase, sale and total value are opaque function values (`Portfolios.PortfolioOps`). A wallet is found by its currency field, and a wallet found counts as present whatever its balance.
- `Users.UserManager.GetUserPortfolio`: does not model Python's truthiness of the stored entry. An entry is "missing" only when it is absent.
- The string keys of the rate file. `source` and `last_refresh` share a namespace with `FROM_TO` pair keys. The model keeps pairs as tuples and the two bookkeeping values as fields, so the collision of a pair such as ("last", "refresh") is not modelled.
- The `FROM_TO` pair keys themselves. A code containing "_" makes two pairs share a key: ("A_B", "C") and ("A", "B_C") both give "A_B_C". The model keys rates by pairs of codes, so that conflation is not modelled.
- `__str__`, `__repr__` and the CLI's messages, argument parsing, table rendering and exit codes. `CurrencyUtils.DisplayInfo` computes the text of `get_display_info`, but no property of that text is stated.
- Register, the remaining CLI handler. It is a direct call of `UserManager.register_user`.
- `Trading.SellOutcome`: when the sale leaves no wallet in the currency, the receipt's balances fall back to the wallet read before the sale. What Python does there depends on the portfolio code, which is not part of this model. Where a wallet remains, the receipt reads the balance after the sale. This matches the source only because `sell_currency` changes the wallet object that `get_wallet` returned before the sale, in place.
- `Trading.BuyOutcome`: when the purchase leaves no wallet in the currency, the receipt raises an error after the portfolio has been saved (`NoWalletAfterTrade`). The model reports that error with the portfolio saved.
- `Models.LoadRoundTrip`: holds only for usernames of at least 3 characters. `ShortStrippedNameNotReloadable` shows why: the setter checks the length before stripping. Registration strips first, so a registered user always satisfies the condition (`Users.StrippedNameAccepted`).
- `Currencies.Currency.SetMarketCap`: requires a crypto currency, because only `CryptoCurrency` has the setter.
- `Currencies.FreshRegistryFindsDollar`: states the code of the currency found, not its name.
- Concurrency between processes sharing the data files. There is none within one process.
