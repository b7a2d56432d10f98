/** The failures the wallet reports. Python raises them as exceptions; here
    they are values. Most are `ValueError`s, one constructor per message; the
    rest name the exception class the source raises instead. */
module Errors {

  datatype Error =
    // models.User
    | EmptyUsername
    | ShortUsername
    | ShortPassword
      // usecases.UserManager
    | UsernameTaken(username: string)
    | MissingCredentials
    | WrongPassword
    | UserNotFound(username: string)
      // currencies.Currency and CryptoCurrency
    | EmptyCurrencyCode
    | BadCodeLength
    | NonAlnumCode
    | EmptyCurrencyName
    | NegativeMarketCap
      // currencies.get_currency: CurrencyNotFoundError
    | CurrencyNotFound(code: string)
      // utils.normalize_currency_code: InvalidCurrencyError
    | InvalidCurrency
      // utils.convert_amount
    | NegativeConvertAmount
    | NonPositiveRate
      // usecases.CurrencyService
    | RateUnavailable(from: string, to: string)
      // `1.0 / rate` on a stored rate of 0.0: ZeroDivisionError
    | DivisionByZero
      // usecases.TradingService
    | NonPositiveAmount
    | RateLookupFailed(currency: string)
    | InsufficientUsd
    | NoWallet(currency: string)
    | InsufficientBalance(available: real, required: real)
    | SellFailed
      // an error raised inside the portfolio collaborator, passed through unchanged
    | PortfolioRaised
      // `portfolio.get_wallet(c).balance` on a missing wallet: AttributeError
    | NoWalletAfterTrade(currency: string)
      // cli.interface
    | NotLoggedIn
    | AmountNotPositive
    | UnknownBaseCurrency(base: string)
  {
    /** Whether Python raises this failure as a `ValueError` (or a subclass),
        which is what the source's `except ValueError` clauses catch. */
    predicate IsValueError() {
      !(CurrencyNotFound? || InvalidCurrency? || DivisionByZero? || NoWalletAfterTrade? || PortfolioRaised?)
    }
  }

  datatype Result<+T> = Ok(value: T) | Err(error: Error)

  datatype Option<+T> = None | Some(value: T)
}
