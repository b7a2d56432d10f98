/** `TradingService` of `valutatrade_hub/core/usecases.py`: buying and
    selling a currency against USD for a user, on the user store and the
    rate cache, with the portfolio's own rules left to its opaque
    operations. */
module Trading {
  import opened Errors
  import opened Rates
  import opened Portfolios
  import opened Users

  /** The dictionary a successful trade returns. `total` is `total_cost` for
      a purchase and `total_income` for a sale. */
  datatype Receipt = Receipt(currency: string, amount: real, rate: real, total: real,
                             oldBalance: real, newBalance: real)

  /** A trade's result together with the portfolio entries it leaves. */
  datatype Outcome = Outcome(result: Result<Receipt>, portfolios: map<int, seq<Wallet>>)

  const Usd := "USD"

  /** `amount * rate`: the cost of a purchase, the income of a sale. */
  function Total(amount: real, rate: real): real {
    amount * rate
  }

  /** The rate a trade uses: the lookup of `currency` to USD, where every
      `ValueError` becomes "could not get the rate" and anything else (a
      division by zero) passes through unchanged. */
  function TradeRate(rates: map<Pair, Quote>, currency: string, now: int): (r: Result<real>)
    ensures r.Ok? <==> ExchangeRate(rates, currency, Usd, now).Ok?
    ensures r.Ok? ==> r.value == ExchangeRate(rates, currency, Usd, now).value
    ensures r.Err? && ExchangeRate(rates, currency, Usd, now).error.IsValueError() ==> r.error == RateLookupFailed(currency)
    ensures r.Err? && !ExchangeRate(rates, currency, Usd, now).error.IsValueError() ==> r.error == DivisionByZero
  {
    match ExchangeRate(rates, currency, Usd, now)
    case Ok(rate) => Ok(rate)
    case Err(e) => if e.IsValueError() then Err(RateLookupFailed(currency)) else Err(e)
  }

  /** `buy_currency`: a non-positive amount is refused first, before the
      portfolio is even loaded; then the rate; then the portfolio's purchase,
      whose failure means too little USD; only a successful purchase is
      saved. The balances are read back from the saved portfolio. */
  function BuyOutcome(portfolios: map<int, seq<Wallet>>, rates: map<Pair, Quote>, ops: PortfolioOps,
                      userId: int, currency: string, amount: real, now: int): (o: Outcome)
    ensures amount <= 0.0 ==> o == Outcome(Err(NonPositiveAmount), portfolios)
    ensures amount > 0.0 && TradeRate(rates, currency, now).Err? ==>
      o == Outcome(Err(TradeRate(rates, currency, now).error), WithEntry(portfolios, userId))
    ensures o.result.Ok? ==>
      && ExchangeRate(rates, currency, Usd, now).Ok?
      && o.result.value.rate == ExchangeRate(rates, currency, Usd, now).value
      && o.result.value.total == amount * o.result.value.rate
      && o.result.value.newBalance - o.result.value.oldBalance == amount
    ensures o.result.Err? && !o.result.error.NoWalletAfterTrade? ==>
      o.portfolios == if amount <= 0.0 then portfolios else WithEntry(portfolios, userId)
  {
    if amount <= 0.0 then Outcome(Err(NonPositiveAmount), portfolios)
    else
      var stored := WithEntry(portfolios, userId);
      var p := Portfolio(userId, stored[userId]);
      match TradeRate(rates, currency, now)
      case Err(e) => Outcome(Err(e), stored)
      case Ok(rate) =>
        match ops.buy(p, currency, amount, rate)
        case Raised => Outcome(Err(PortfolioRaised), stored)
        case Done(success, after) =>
          if !success then Outcome(Err(InsufficientUsd), stored)
          else
            var saved := stored[after.userId := after.wallets];
            match FindWallet(after.wallets, currency)
            case None => Outcome(Err(NoWalletAfterTrade(currency)), saved)
            case Some(w) =>
              Outcome(Ok(Receipt(currency, amount, rate, Total(amount, rate), w.balance - amount, w.balance)), saved)
  }

  /** `sell_currency`: a non-positive amount, then a missing wallet, then a
      balance below the amount are refused, all before the rate is looked
      up; then the rate; then the portfolio's sale; only a successful sale is
      saved. The new balance is the wallet's after the sale (the wallet read
      before it, if the sale left none). */
  function SellOutcome(portfolios: map<int, seq<Wallet>>, rates: map<Pair, Quote>, ops: PortfolioOps,
                       userId: int, currency: string, amount: real, now: int): (o: Outcome)
    ensures amount <= 0.0 ==> o == Outcome(Err(NonPositiveAmount), portfolios)
    ensures amount > 0.0 && FindWallet(WithEntry(portfolios, userId)[userId], currency).None? ==>
      o == Outcome(Err(NoWallet(currency)), WithEntry(portfolios, userId))
    ensures (amount > 0.0 && FindWallet(WithEntry(portfolios, userId)[userId], currency).Some?
             && FindWallet(WithEntry(portfolios, userId)[userId], currency).value.balance < amount) ==>
      o == Outcome(Err(InsufficientBalance(FindWallet(WithEntry(portfolios, userId)[userId], currency).value.balance, amount)),
                   WithEntry(portfolios, userId))
    ensures o.result.Ok? ==>
      && ExchangeRate(rates, currency, Usd, now).Ok?
      && o.result.value.rate == ExchangeRate(rates, currency, Usd, now).value
      && o.result.value.total == amount * o.result.value.rate
      && o.result.value.oldBalance - o.result.value.newBalance == amount
    ensures o.result.Err? ==>
      o.portfolios == if amount <= 0.0 then portfolios else WithEntry(portfolios, userId)
  {
    if amount <= 0.0 then Outcome(Err(NonPositiveAmount), portfolios)
    else
      var stored := WithEntry(portfolios, userId);
      var p := Portfolio(userId, stored[userId]);
      match FindWallet(p.wallets, currency)
      case None => Outcome(Err(NoWallet(currency)), stored)
      case Some(wallet) =>
        if wallet.balance < amount then Outcome(Err(InsufficientBalance(wallet.balance, amount)), stored)
        else
          match TradeRate(rates, currency, now)
          case Err(e) => Outcome(Err(e), stored)
          case Ok(rate) =>
            match ops.sell(p, currency, amount, rate)
            case Raised => Outcome(Err(PortfolioRaised), stored)
            case Done(success, after) =>
              if !success then Outcome(Err(SellFailed), stored)
              else
                var balance := match FindWallet(after.wallets, currency)
                  case Some(w) => w.balance
                  case None => wallet.balance;
                Outcome(Ok(Receipt(currency, amount, rate, Total(amount, rate), balance + amount, balance)),
                        stored[after.userId := after.wallets])
  }

  /** A sale refused for a missing wallet or a short balance never consults
      the rates: its outcome is the same whatever the cache holds. */
  lemma SellChecksPrecedeRateLookup(portfolios: map<int, seq<Wallet>>, rates1: map<Pair, Quote>,
                                    rates2: map<Pair, Quote>, ops: PortfolioOps, userId: int,
                                    currency: string, amount: real, now1: int, now2: int)
    requires SellOutcome(portfolios, rates1, ops, userId, currency, amount, now1).result.Err?
    requires SellOutcome(portfolios, rates1, ops, userId, currency, amount, now1).result.error in
      {NonPositiveAmount, NoWallet(currency)} ||
      SellOutcome(portfolios, rates1, ops, userId, currency, amount, now1).result.error.InsufficientBalance?
    ensures SellOutcome(portfolios, rates2, ops, userId, currency, amount, now2)
         == SellOutcome(portfolios, rates1, ops, userId, currency, amount, now1)
  {
  }

  /** A purchase with a positive amount fails exactly like the rate lookup
      when that fails, and then saves nothing beyond the lazily created
      portfolio entry. */
  lemma BuyReportsRateFailure(portfolios: map<int, seq<Wallet>>, rates: map<Pair, Quote>, ops: PortfolioOps,
                              userId: int, currency: string, amount: real, now: int)
    requires amount > 0.0 && ExchangeRate(rates, currency, Usd, now).Err?
    ensures ExchangeRate(rates, currency, Usd, now).error.IsValueError() ==>
      BuyOutcome(portfolios, rates, ops, userId, currency, amount, now).result == Err(RateLookupFailed(currency))
    ensures !ExchangeRate(rates, currency, Usd, now).error.IsValueError() ==>
      BuyOutcome(portfolios, rates, ops, userId, currency, amount, now).result == Err(DivisionByZero)
    ensures BuyOutcome(portfolios, rates, ops, userId, currency, amount, now).portfolios == WithEntry(portfolios, userId)
  {
  }

  /** A successful purchase saves exactly the portfolio the purchase left. */
  lemma BuySavesTradedPortfolio(portfolios: map<int, seq<Wallet>>, rates: map<Pair, Quote>, ops: PortfolioOps,
                                userId: int, currency: string, amount: real, now: int)
    requires BuyOutcome(portfolios, rates, ops, userId, currency, amount, now).result.Ok?
    ensures var rate := ExchangeRate(rates, currency, Usd, now).value;
            var step := ops.buy(Portfolio(userId, WithEntry(portfolios, userId)[userId]), currency, amount, rate);
            && step.Done? && step.success
            && BuyOutcome(portfolios, rates, ops, userId, currency, amount, now).portfolios
               == WithEntry(portfolios, userId)[step.after.userId := step.after.wallets]
            && FindWallet(step.after.wallets, currency).Some?
            && BuyOutcome(portfolios, rates, ops, userId, currency, amount, now).result.value.newBalance
               == FindWallet(step.after.wallets, currency).value.balance
  {
  }

  /** A successful sale was reported successful by the portfolio, saves
      exactly the portfolio the sale left, and reports the balance of the
      wallet that sale left in the currency. */
  lemma SellSavesTradedPortfolio(portfolios: map<int, seq<Wallet>>, rates: map<Pair, Quote>, ops: PortfolioOps,
                                 userId: int, currency: string, amount: real, now: int)
    requires SellOutcome(portfolios, rates, ops, userId, currency, amount, now).result.Ok?
    ensures var rate := ExchangeRate(rates, currency, Usd, now).value;
            var step := ops.sell(Portfolio(userId, WithEntry(portfolios, userId)[userId]), currency, amount, rate);
            && step.Done? && step.success
            && SellOutcome(portfolios, rates, ops, userId, currency, amount, now).portfolios
               == WithEntry(portfolios, userId)[step.after.userId := step.after.wallets]
            && (FindWallet(step.after.wallets, currency).Some? ==>
                SellOutcome(portfolios, rates, ops, userId, currency, amount, now).result.value.newBalance
                == FindWallet(step.after.wallets, currency).value.balance)
  {
  }

  /** A purchase with a positive amount and a rate ends as the portfolio's
      purchase does: an error raised there is passed on, a refusal means too
      little USD, and an accepted purchase succeeds exactly when it leaves a
      wallet in the currency to read the balances from. */
  lemma BuySucceedsWhenPortfolioDoes(portfolios: map<int, seq<Wallet>>, rates: map<Pair, Quote>, ops: PortfolioOps,
                                     userId: int, currency: string, amount: real, now: int)
    requires amount > 0.0 && ExchangeRate(rates, currency, Usd, now).Ok?
    ensures var rate := ExchangeRate(rates, currency, Usd, now).value;
            var step := ops.buy(Portfolio(userId, WithEntry(portfolios, userId)[userId]), currency, amount, rate);
            var result := BuyOutcome(portfolios, rates, ops, userId, currency, amount, now).result;
            && (step.Raised? ==> result == Err(PortfolioRaised))
            && (step.Done? && !step.success ==> result == Err(InsufficientUsd))
            && (step.Done? && step.success ==> (result.Ok? <==> FindWallet(step.after.wallets, currency).Some?))
            && (step.Done? && step.success && FindWallet(step.after.wallets, currency).None? ==>
                result == Err(NoWalletAfterTrade(currency)))
  {
  }

  /** A sale that passes its own checks and has a rate ends as the
      portfolio's sale does: an error raised there is passed on, a refusal
      is "sale failed", and an accepted sale succeeds. */
  lemma SellSucceedsWhenPortfolioDoes(portfolios: map<int, seq<Wallet>>, rates: map<Pair, Quote>, ops: PortfolioOps,
                                      userId: int, currency: string, amount: real, now: int)
    requires amount > 0.0 && ExchangeRate(rates, currency, Usd, now).Ok?
    requires FindWallet(WithEntry(portfolios, userId)[userId], currency).Some?
    requires FindWallet(WithEntry(portfolios, userId)[userId], currency).value.balance >= amount
    ensures var rate := ExchangeRate(rates, currency, Usd, now).value;
            var step := ops.sell(Portfolio(userId, WithEntry(portfolios, userId)[userId]), currency, amount, rate);
            var result := SellOutcome(portfolios, rates, ops, userId, currency, amount, now).result;
            && (step.Raised? ==> result == Err(PortfolioRaised))
            && (step.Done? && !step.success ==> result == Err(SellFailed))
            && (step.Done? && step.success ==> result.Ok?)
  {
  }

  class TradingService {
    const users: UserManager
    const rates: CurrencyService
    const ops: PortfolioOps

    constructor (users: UserManager, rates: CurrencyService, ops: PortfolioOps)
      ensures this.users == users && this.rates == rates && this.ops == ops
    {
      this.users := users;
      this.rates := rates;
      this.ops := ops;
    }

    /** `buy_currency`. */
    method BuyCurrency(userId: int, currency: string, amount: real, now: int) returns (r: Result<Receipt>)
      requires users.Valid()
      modifies users
      ensures users.Valid() && users.users == old(users.users)
      ensures Outcome(r, users.portfolios) == BuyOutcome(old(users.portfolios), rates.rates, ops, userId, currency, amount, now)
    {
      if amount <= 0.0 {
        return Err(NonPositiveAmount);
      }
      ghost var o := BuyOutcome(old(users.portfolios), rates.rates, ops, userId, currency, amount, now);
      var p := users.GetUserPortfolio(userId);
      ghost var stored := users.portfolios;
      var lookup := TradeRate(rates.rates, currency, now);
      if lookup.Err? {
        assert o == Outcome(Err(lookup.error), stored);
        return Err(lookup.error);
      }
      var rate := lookup.value;
      var step := ops.buy(p, currency, amount, rate);
      if step.Raised? {
        assert o == Outcome(Err(PortfolioRaised), stored);
        return Err(PortfolioRaised);
      }
      if !step.success {
        assert o == Outcome(Err(InsufficientUsd), stored);
        return Err(InsufficientUsd);
      }
      users.SaveUserPortfolio(step.after);
      var w := FindWallet(step.after.wallets, currency);
      if w.None? {
        assert o == Outcome(Err(NoWalletAfterTrade(currency)), users.portfolios);
        return Err(NoWalletAfterTrade(currency));
      }
      var balance := w.value.balance;
      assert o == Outcome(Ok(Receipt(currency, amount, rate, Total(amount, rate), balance - amount, balance)), users.portfolios);
      return Ok(Receipt(currency, amount, rate, Total(amount, rate), balance - amount, balance));
    }

    /** `sell_currency`. */
    method SellCurrency(userId: int, currency: string, amount: real, now: int) returns (r: Result<Receipt>)
      requires users.Valid()
      modifies users
      ensures users.Valid() && users.users == old(users.users)
      ensures Outcome(r, users.portfolios) == SellOutcome(old(users.portfolios), rates.rates, ops, userId, currency, amount, now)
    {
      if amount <= 0.0 {
        return Err(NonPositiveAmount);
      }
      ghost var o := SellOutcome(old(users.portfolios), rates.rates, ops, userId, currency, amount, now);
      var p := users.GetUserPortfolio(userId);
      ghost var stored := users.portfolios;
      var wallet := FindWallet(p.wallets, currency);
      if wallet.None? {
        assert o == Outcome(Err(NoWallet(currency)), stored);
        return Err(NoWallet(currency));
      }
      if wallet.value.balance < amount {
        assert o == Outcome(Err(InsufficientBalance(wallet.value.balance, amount)), stored);
        return Err(InsufficientBalance(wallet.value.balance, amount));
      }
      var lookup := TradeRate(rates.rates, currency, now);
      if lookup.Err? {
        assert o == Outcome(Err(lookup.error), stored);
        return Err(lookup.error);
      }
      var rate := lookup.value;
      var step := ops.sell(p, currency, amount, rate);
      if step.Raised? {
        assert o == Outcome(Err(PortfolioRaised), stored);
        return Err(PortfolioRaised);
      }
      if !step.success {
        assert o == Outcome(Err(SellFailed), stored);
        return Err(SellFailed);
      }
      users.SaveUserPortfolio(step.after);
      var after := FindWallet(step.after.wallets, currency);
      var balance := if after.Some? then after.value.balance else wallet.value.balance;
      assert o == Outcome(Ok(Receipt(currency, amount, rate, Total(amount, rate), balance + amount, balance)), users.portfolios);
      return Ok(Receipt(currency, amount, rate, Total(amount, rate), balance + amount, balance));
    }
  }
}
