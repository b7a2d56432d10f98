/** The command handlers of `valutatrade_hub/cli/interface.py` that hold
    logic: who is logged in, the guards in front of buy, sell and
    show-portfolio, the valuation rows of show-portfolio, and get-rate's
    reverse rate. Printing and argument parsing are not modelled; each
    handler returns the data its output is made from, or the error that ends
    it (get-rate with a rate of 0.0 prints the rate before its division
    fails; the model returns only the error). */
module Cli {
  import opened Text
  import opened Errors
  import opened Rates
  import opened Portfolios
  import opened Users
  import opened Models
  import opened Trading
  import opened Sessions

  datatype CurrentUser = CurrentUser(id: int, username: string)

  /** One table row: the currency, its balance and its value in the base
      currency, `None` where the table shows "unknown". */
  datatype Row = Row(currency: string, balance: real, value: Option<real>)

  datatype PortfolioReport = PortfolioReport(username: string, base: string, total: real, rows: seq<Row>)

  /** What get-rate prints: the rate and, for two different codes, the
      reverse rate; or that the rate is unavailable. */
  datatype RateReport = Unavailable | Shown(rate: real, reverse: Option<real>)

  /** `wallet.balance * rate`. */
  function Value(balance: real, rate: real): real {
    balance * rate
  }

  /** The value of one wallet in the base currency: its balance when it is
      the base currency, otherwise balance times rate; a `ValueError` from
      the lookup gives "unknown", anything else aborts the command. */
  function RowFor(w: Wallet, base: string, rates: map<Pair, Quote>, now: int): (r: Result<Row>)
    ensures w.currency == base ==> r == Ok(Row(w.currency, w.balance, Some(w.balance)))
    ensures w.currency != base && ExchangeRate(rates, w.currency, base, now).Err? ==>
      (ExchangeRate(rates, w.currency, base, now).error.IsValueError() <==> r.Ok?)
    ensures r.Ok? ==> r.value.currency == w.currency && r.value.balance == w.balance
    ensures r.Ok? && r.value.value.None? ==>
      w.currency != base && ExchangeRate(rates, w.currency, base, now).Err?
    ensures w.currency != base && ExchangeRate(rates, w.currency, base, now).Ok? ==>
      r == Ok(Row(w.currency, w.balance, Some(Value(w.balance, ExchangeRate(rates, w.currency, base, now).value))))
    ensures w.currency != base && ExchangeRate(rates, w.currency, base, now).Err? ==>
      var e := ExchangeRate(rates, w.currency, base, now).error;
      (e.IsValueError() ==> r == Ok(Row(w.currency, w.balance, None))) && (!e.IsValueError() ==> r == Err(e))
  {
    if w.currency == base then Ok(Row(w.currency, w.balance, Some(w.balance)))
    else
      match ExchangeRate(rates, w.currency, base, now)
      case Ok(rate) => Ok(Row(w.currency, w.balance, Some(Value(w.balance, rate))))
      case Err(e) => if e.IsValueError() then Ok(Row(w.currency, w.balance, None)) else Err(e)
  }

  /** The rows of the whole table, in wallet order; the first failure that
      is not a `ValueError` aborts it. */
  function Rows(wallets: seq<Wallet>, base: string, rates: map<Pair, Quote>, now: int): (r: Result<seq<Row>>)
    ensures r.Ok? <==> forall i :: 0 <= i < |wallets| ==> RowFor(wallets[i], base, rates, now).Ok?
    ensures r.Ok? ==> |r.value| == |wallets|
    ensures r.Ok? ==> forall i :: 0 <= i < |wallets| ==> r.value[i] == RowFor(wallets[i], base, rates, now).value
    ensures r.Err? ==> exists i :: (0 <= i < |wallets| && RowFor(wallets[i], base, rates, now).Err?
                                   && r.error == RowFor(wallets[i], base, rates, now).error
                                   && forall j :: 0 <= j < i ==> RowFor(wallets[j], base, rates, now).Ok?)
    decreases |wallets|
  {
    if |wallets| == 0 then Ok([])
    else
      match RowFor(wallets[0], base, rates, now)
      case Err(e) => Err(e)
      case Ok(row) =>
        assert forall i :: 1 <= i < |wallets| ==> wallets[i] == wallets[1..][i - 1];
        match Rows(wallets[1..], base, rates, now)
        case Err(e) =>
          assert forall i :: 0 <= i < |wallets[1..]| ==> wallets[1..][i] == wallets[i + 1];
          Err(e)
        case Ok(rest) => Ok([row] + rest)
  }

  /** With no stored rate of 0.0 the table is never aborted: a wallet whose
      rate cannot be found shows "unknown" and the other rows are still
      produced. */
  lemma {:induction false} NonzeroRatesNeverAbortTable(wallets: seq<Wallet>, base: string,
                                                       rates: map<Pair, Quote>, now: int)
    requires AllNonzero(rates)
    ensures Rows(wallets, base, rates, now).Ok?
  {
    forall i | 0 <= i < |wallets|
      ensures RowFor(wallets[i], base, rates, now).Ok?
    {
      NonzeroRatesNeverDivideByZero(rates, wallets[i].currency, base, now);
    }
  }

  /** get-rate on upper-cased codes: a `ValueError` prints that the rate is
      unavailable; for two different codes the reverse rate `1.0 / rate` is
      printed too, and a rate of 0.0 makes that division raise. */
  function RateReportFor(rates: map<Pair, Quote>, from: string, to: string, now: int): (r: Result<RateReport>)
    ensures ExchangeRate(rates, Upper(from), Upper(to), now).Err? ==>
      (r == Ok(Unavailable) <==> ExchangeRate(rates, Upper(from), Upper(to), now).error.IsValueError())
    ensures r.Ok? && r.value.Shown? ==>
      ExchangeRate(rates, Upper(from), Upper(to), now).Ok? && r.value.rate == ExchangeRate(rates, Upper(from), Upper(to), now).value
    ensures r.Ok? && r.value.Shown? ==> (r.value.reverse.Some? <==> Upper(from) != Upper(to))
    ensures r.Ok? && r.value.Shown? && r.value.reverse.Some? ==> Reciprocal(r.value.rate, r.value.reverse.value)
    ensures ExchangeRate(rates, Upper(from), Upper(to), now).Ok? ==>
      && (r.Ok? <==> Upper(from) == Upper(to) || ExchangeRate(rates, Upper(from), Upper(to), now).value != 0.0)
      && (r.Ok? ==> r.value.Shown?)
      && (r.Err? ==> r.error == DivisionByZero)
    ensures ExchangeRate(rates, Upper(from), Upper(to), now).Err? && !ExchangeRate(rates, Upper(from), Upper(to), now).error.IsValueError() ==>
      r == Err(ExchangeRate(rates, Upper(from), Upper(to), now).error)
  {
    var f := Upper(from);
    var t := Upper(to);
    match ExchangeRate(rates, f, t, now)
    case Err(e) => if e.IsValueError() then Ok(Unavailable) else Err(e)
    case Ok(rate) =>
      if f == t then Ok(Shown(rate, None))
      else if rate == 0.0 then Err(DivisionByZero)
      else Ok(Shown(rate, Some(ReverseRate(rate))))
  }

  function ReverseRate(rate: real): (rev: real)
    requires rate != 0.0
    ensures Reciprocal(rate, rev)
  {
    1.0 / rate
  }

  /** The show-portfolio loop over the wallets. */
  method ValuationRows(wallets: seq<Wallet>, base: string, service: CurrencyService, now: int)
    returns (r: Result<seq<Row>>)
    ensures r == Rows(wallets, base, service.rates, now)
  {
    var rows: seq<Row> := [];
    var i := 0;
    while i < |wallets|
      invariant 0 <= i <= |wallets|
      invariant |rows| == i
      invariant forall j :: 0 <= j < i ==> RowFor(wallets[j], base, service.rates, now).Ok?
      invariant forall j :: 0 <= j < i ==> rows[j] == RowFor(wallets[j], base, service.rates, now).value
    {
      var w := wallets[i];
      var row: Row;
      if w.currency == base {
        row := Row(w.currency, w.balance, Some(w.balance));
      } else {
        var lookup := service.GetExchangeRate(w.currency, base, now);
        if lookup.Ok? {
          row := Row(w.currency, w.balance, Some(Value(w.balance, lookup.value)));
        } else if lookup.error.IsValueError() {
          row := Row(w.currency, w.balance, None);
        } else {
          assert RowFor(wallets[i], base, service.rates, now) == Err(lookup.error);
          RowsFirstError(wallets, base, service.rates, now, i);
          return Err(lookup.error);
        }
      }
      rows := rows + [row];
      i := i + 1;
    }
    assert Rows(wallets, base, service.rates, now).Ok?;
    assert Rows(wallets, base, service.rates, now).value == rows;
    return Ok(rows);
  }

  /** When the rows before `i` are fine and row `i` aborts, the table
      aborts with row `i`'s error. */
  lemma RowsFirstError(wallets: seq<Wallet>, base: string, rates: map<Pair, Quote>, now: int, i: nat)
    requires i < |wallets| && RowFor(wallets[i], base, rates, now).Err?
    requires forall j :: 0 <= j < i ==> RowFor(wallets[j], base, rates, now).Ok?
    ensures Rows(wallets, base, rates, now) == Err(RowFor(wallets[i], base, rates, now).error)
  {
    var r := Rows(wallets, base, rates, now);
    var k :| 0 <= k < |wallets| && RowFor(wallets[k], base, rates, now).Err?
      && r.error == RowFor(wallets[k], base, rates, now).error
      && forall j :: 0 <= j < k ==> RowFor(wallets[j], base, rates, now).Ok?;
    assert k == i;
  }

  class Cli {
    const users: UserManager
    const service: CurrencyService
    const sessions: SessionManager
    const trading: TradingService
    const ops: PortfolioOps
    var currentUser: Option<CurrentUser>

    ghost predicate Valid()
      reads this, users
    {
      trading.users == users && trading.rates == service && trading.ops == ops && users.Valid()
    }

    /** The command line at start-up: the user of a current session, if
        any, is logged in. */
    constructor (users: UserManager, service: CurrencyService, sessions: SessionManager,
                 ops: PortfolioOps, now: int)
      requires users.Valid()
      modifies sessions
      ensures Valid() && this.users == users && this.service == service && this.sessions == sessions
      ensures sessions.session == Current(old(sessions.session), now)
      ensures currentUser == if sessions.session.Some?
        then Some(CurrentUser(sessions.session.value.userId, sessions.session.value.username)) else None
    {
      this.users := users;
      this.service := service;
      this.sessions := sessions;
      this.ops := ops;
      trading := new TradingService(users, service, ops);
      var s := sessions.GetCurrentSession(now);
      currentUser := if s.Some? then Some(CurrentUser(s.value.userId, s.value.username)) else None;
    }

    /** login: on success the user becomes the current user and a new
        session is stored. */
    method Login(username: string, password: string, freshSalt: string, sha256: string -> string, now: int)
      returns (r: Result<CurrentUser>)
      requires Valid() && freshSalt != ""
      modifies this`currentUser, sessions
      ensures Valid()
      ensures r.Err? <==> Authentication(users.users, username, password, freshSalt, sha256).Err?
      ensures r.Err? ==> r.error == Authentication(users.users, username, password, freshSalt, sha256).error
      ensures r.Err? ==> currentUser == old(currentUser) && sessions.session == old(sessions.session)
      ensures r.Ok? ==>
        var rec := Authentication(users.users, username, password, freshSalt, sha256).value;
        && r.value == CurrentUser(rec.userId, rec.username)
        && currentUser == Some(r.value)
        && sessions.session == Some(Session(rec.userId, rec.username, now, now + SessionLifetime))
    {
      var auth := users.AuthenticateUser(username, password, freshSalt, sha256);
      if auth.Err? {
        return Err(auth.error);
      }
      var user := auth.value;
      var who := CurrentUser(user.userId, user.username);
      currentUser := Some(who);
      sessions.CreateSession(user.userId, user.username, now);
      return Ok(who);
    }

    /** logout: only a logged-in user is logged out and the session
        cleared; otherwise nothing changes. */
    method Logout() returns (loggedOut: bool)
      modifies this`currentUser, sessions
      ensures loggedOut <==> old(currentUser).Some?
      ensures currentUser == None
      ensures loggedOut ==> sessions.session == None
      ensures !loggedOut ==> sessions.session == old(sessions.session)
    {
      if currentUser.None? {
        return false;
      }
      currentUser := None;
      sessions.ClearSession();
      return true;
    }

    /** buy: refused unless a user is logged in, then unless the amount is
        positive; the trade itself runs on the upper-cased code. */
    method Buy(currency: string, amount: real, now: int) returns (r: Result<Receipt>)
      requires Valid()
      modifies users
      ensures Valid() && users.users == old(users.users)
      ensures currentUser.None? ==> r == Err(NotLoggedIn) && users.portfolios == old(users.portfolios)
      ensures currentUser.Some? && amount <= 0.0 ==> r == Err(AmountNotPositive) && users.portfolios == old(users.portfolios)
      ensures currentUser.Some? && amount > 0.0 ==>
        Outcome(r, users.portfolios)
        == BuyOutcome(old(users.portfolios), service.rates, ops, currentUser.value.id, Upper(currency), amount, now)
    {
      if currentUser.None? {
        return Err(NotLoggedIn);
      }
      if amount <= 0.0 {
        return Err(AmountNotPositive);
      }
      r := trading.BuyCurrency(currentUser.value.id, Upper(currency), amount, now);
    }

    /** sell: the same guards as buy, in the same order. */
    method Sell(currency: string, amount: real, now: int) returns (r: Result<Receipt>)
      requires Valid()
      modifies users
      ensures Valid() && users.users == old(users.users)
      ensures currentUser.None? ==> r == Err(NotLoggedIn) && users.portfolios == old(users.portfolios)
      ensures currentUser.Some? && amount <= 0.0 ==> r == Err(AmountNotPositive) && users.portfolios == old(users.portfolios)
      ensures currentUser.Some? && amount > 0.0 ==>
        Outcome(r, users.portfolios)
        == SellOutcome(old(users.portfolios), service.rates, ops, currentUser.value.id, Upper(currency), amount, now)
    {
      if currentUser.None? {
        return Err(NotLoggedIn);
      }
      if amount <= 0.0 {
        return Err(AmountNotPositive);
      }
      r := trading.SellCurrency(currentUser.value.id, Upper(currency), amount, now);
    }

    /** show-portfolio: refused unless a user is logged in; the portfolio is
        loaded (created if missing); a total the portfolio cannot compute in
        the upper-cased base currency aborts before any row; otherwise one
        row per wallet. */
    method ShowPortfolio(base: string, now: int) returns (r: Result<PortfolioReport>)
      requires Valid()
      modifies users`portfolios
      ensures Valid()
      ensures currentUser.None? ==> r == Err(NotLoggedIn) && users.portfolios == old(users.portfolios)
      ensures currentUser.Some? ==> users.portfolios == WithEntry(old(users.portfolios), currentUser.value.id)
      ensures currentUser.Some? ==>
        var p := Portfolio(currentUser.value.id, users.portfolios[currentUser.value.id]);
        var total := ops.totalValue(p, Upper(base));
        && (total.None? ==> r == Err(UnknownBaseCurrency(Upper(base))))
        && (total.Some? && Rows(p.wallets, Upper(base), service.rates, now).Err? ==>
              r == Err(Rows(p.wallets, Upper(base), service.rates, now).error))
        && (r.Ok? <==> total.Some? && Rows(p.wallets, Upper(base), service.rates, now).Ok?)
        && (r.Ok? ==> r.value == PortfolioReport(currentUser.value.username, Upper(base), total.value,
                                                 Rows(p.wallets, Upper(base), service.rates, now).value))
    {
      if currentUser.None? {
        return Err(NotLoggedIn);
      }
      var p := users.GetUserPortfolio(currentUser.value.id);
      var b := Upper(base);
      var total := ops.totalValue(p, b);
      if total.None? {
        return Err(UnknownBaseCurrency(b));
      }
      var rows := ValuationRows(p.wallets, b, service, now);
      if rows.Err? {
        return Err(rows.error);
      }
      return Ok(PortfolioReport(currentUser.value.username, b, total.value, rows.value));
    }

    /** get-rate, which needs no login. */
    function GetRate(from: string, to: string, now: int): (r: Result<RateReport>)
      reads service
      ensures r == RateReportFor(service.rates, from, to, now)
    {
      RateReportFor(service.rates, from, to, now)
    }
  }
}
