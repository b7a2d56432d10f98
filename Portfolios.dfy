/** The portfolio the trading service and the command line work on. Its class
    is imported by `valutatrade_hub/core/usecases.py` from `models`, which
    does not define it, so only its interface is modelled: a user's wallets
    in insertion order and the operations as opaque function values. */
module Portfolios {
  import opened Errors

  datatype Wallet = Wallet(currency: string, balance: real)

  datatype Portfolio = Portfolio(userId: int, wallets: seq<Wallet>)

  /** What a portfolio operation did: raised, or reported success or
      failure and left the portfolio in some state. */
  datatype TradeStep = Raised | Done(success: bool, after: Portfolio)

  /** `buy_currency(code, amount, rate)`, `sell_currency(code, amount,
      rate)` and `get_total_value(base)`; a `None` total is a `ValueError`. */
  datatype PortfolioOps = PortfolioOps(
    buy: (Portfolio, string, real, real) -> TradeStep,
    sell: (Portfolio, string, real, real) -> TradeStep,
    totalValue: (Portfolio, string) -> Option<real>)

  /** `get_wallet(code)`: the wallet held in that currency, if any. */
  function FindWallet(wallets: seq<Wallet>, code: string): (w: Option<Wallet>)
    ensures w.Some? <==> exists i :: 0 <= i < |wallets| && wallets[i].currency == code
    ensures w.Some? ==> w.value in wallets && w.value.currency == code
  {
    if |wallets| == 0 then None
    else if wallets[0].currency == code then Some(wallets[0])
    else
      var rest := FindWallet(wallets[1..], code);
      assert forall i :: 1 <= i < |wallets| ==> wallets[i] == wallets[1..][i - 1];
      rest
  }
}
