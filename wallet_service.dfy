/** WalletService (Services/WalletService.cs): the same balance engine, with
    the expected failures returned as response codes
    (Services/WalletOperationResponses) and only the unexpected ones left to
    propagate as exceptions. Its wallet creation and lookups are the same
    code as WalletManagementService's and are modelled there. */
module WalletService {
  import Wrappers
  import opened Models
  import opened Engine
  import ExchangeRates
  import WalletRepository

  /** WalletOperationResponseCode. */
  datatype WalletOperationResponseCode =
    | Success
    | WalletNotFound
    | CurrencyDoesNotExist
    | CurrencyNotInWallet
    | NotEnoughFunds

  /** ExchangeFundsResponseCode. */
  datatype ExchangeFundsResponseCode =
    | Success
    | WalletNotFound
    | SourceCurrencyDoesNotExist
    | TargetCurrencyDoesNotExist
    | SourceCurrencyNotInWallet
    | NotEnoughFunds

  /** AddFundsResponse and WithdrawFundsResponse: the code and, for a success
      or a shortfall, the entry (None stands for the null CurrentBalance). */
  datatype WalletOperationResponse =
    WalletOperationResponse(responseCode: WalletOperationResponseCode, currentBalance: Wrappers.Option<Balance>)

  /** ExchangeFundsResponse: the code, the source entry for a success or a
      shortfall, and the target entry for a success. */
  datatype ExchangeFundsResponse =
    ExchangeFundsResponse(responseCode: ExchangeFundsResponseCode,
                          currentSourceCurrencyBalance: Wrappers.Option<Balance>,
                          currentTargetCurrencyBalance: Wrappers.Option<Balance>)

  /** What WalletService does not turn into a response: FirstOrDefault over
      the missing rate table, the decimal division, the repository's save. */
  datatype UnhandledException = ArgumentNullException | DivideByZeroException | WalletRepositoryException

  function Unhandled(e: EngineError): UnhandledException {
    match e
    case RatesUnavailable => ArgumentNullException
    case DivideByZero => DivideByZeroException
    case _ => WalletRepositoryException
  }

  /** The response of AddFundsAsync and WithdrawFundsAsync for an engine
      outcome. */
  function OperationResponse(r: Wrappers.Result<Balance, EngineError>)
    : (out: Wrappers.Result<WalletOperationResponse, UnhandledException>)
    ensures out.Success? && out.value.responseCode == WalletOperationResponseCode.Success <==> r.Success?
    ensures r.Success? ==> out.value.currentBalance == Wrappers.Some(r.value)
    ensures out.Failure? <==> r.Failure? && (r.error.RatesUnavailable? || r.error.DivideByZero? || r.error.StorageFailure?)
  {
    match r
    case Success(b) => Wrappers.Success(WalletOperationResponse(WalletOperationResponseCode.Success, Wrappers.Some(b)))
    case Failure(e) =>
      match e
      case WalletNotFound(_) => Wrappers.Success(WalletOperationResponse(WalletOperationResponseCode.WalletNotFound, Wrappers.None))
      case CurrencyNotFound(_, _) => Wrappers.Success(WalletOperationResponse(WalletOperationResponseCode.CurrencyDoesNotExist, Wrappers.None))
      case CurrencyNotInWallet(_) => Wrappers.Success(WalletOperationResponse(WalletOperationResponseCode.CurrencyNotInWallet, Wrappers.None))
      case NotEnoughFunds(b) => Wrappers.Success(WalletOperationResponse(WalletOperationResponseCode.NotEnoughFunds, Wrappers.Some(b)))
      case _ => Wrappers.Failure(Unhandled(e))
  }

  /** The response of the two exchanges for an engine outcome. */
  function ExchangeResponse(r: Wrappers.Result<(Balance, Balance), EngineError>)
    : (out: Wrappers.Result<ExchangeFundsResponse, UnhandledException>)
    ensures out.Success? && out.value.responseCode == ExchangeFundsResponseCode.Success <==> r.Success?
    ensures r.Success? ==> out.value.currentSourceCurrencyBalance == Wrappers.Some(r.value.0)
                           && out.value.currentTargetCurrencyBalance == Wrappers.Some(r.value.1)
    ensures out.Failure? <==> r.Failure? && (r.error.RatesUnavailable? || r.error.DivideByZero? || r.error.StorageFailure?)
  {
    match r
    case Success(pair) =>
      Wrappers.Success(ExchangeFundsResponse(ExchangeFundsResponseCode.Success, Wrappers.Some(pair.0), Wrappers.Some(pair.1)))
    case Failure(e) =>
      match e
      case WalletNotFound(_) =>
        Wrappers.Success(ExchangeFundsResponse(ExchangeFundsResponseCode.WalletNotFound, Wrappers.None, Wrappers.None))
      case CurrencyNotFound(_, side) =>
        var code := if side == Target then ExchangeFundsResponseCode.TargetCurrencyDoesNotExist
                    else ExchangeFundsResponseCode.SourceCurrencyDoesNotExist;
        Wrappers.Success(ExchangeFundsResponse(code, Wrappers.None, Wrappers.None))
      case CurrencyNotInWallet(_) =>
        Wrappers.Success(ExchangeFundsResponse(ExchangeFundsResponseCode.SourceCurrencyNotInWallet, Wrappers.None, Wrappers.None))
      case NotEnoughFunds(b) =>
        Wrappers.Success(ExchangeFundsResponse(ExchangeFundsResponseCode.NotEnoughFunds, Wrappers.Some(b), Wrappers.None))
      case _ => Wrappers.Failure(Unhandled(e))
  }

  /** AddFundsAsync's responses, each tied to the state that produces it; a
      deposit never reports a missing entry or a shortfall. */
  lemma {:induction false} AddFundsResponses(wallet: Wrappers.Option<WalletRecord>,
                                             table: Wrappers.Option<seq<ExchangeRates.RateEntry>>, walletId: int,
                                             code: string, amount: real, persisted: bool)
    ensures var out := OperationResponse(Settle(AddFundsPlan(wallet, table, walletId, code, amount), persisted));
      var found := wallet.Some? && ExchangeRates.LookupIn(table, code).Found?;
      && (out == Wrappers.Success(WalletOperationResponse(WalletOperationResponseCode.WalletNotFound, Wrappers.None)) <==> wallet.None?)
      && (out == Wrappers.Failure(ArgumentNullException) <==> wallet.Some? && table.None?)
      && (out == Wrappers.Success(WalletOperationResponse(WalletOperationResponseCode.CurrencyDoesNotExist, Wrappers.None)) <==>
            wallet.Some? && ExchangeRates.LookupIn(table, code).NotListed?)
      && (out == Wrappers.Failure(WalletRepositoryException) <==> found && !persisted)
      && (out.Success? && out.value.responseCode == WalletOperationResponseCode.Success <==> found && persisted)
      && (out.Success? ==> out.value.responseCode != WalletOperationResponseCode.CurrencyNotInWallet
                           && out.value.responseCode != WalletOperationResponseCode.NotEnoughFunds)
  {
  }

  /** WithdrawFundsAsync's responses, each tied to the state that produces
      it: the four codes in their checking order, the shortfall carrying the
      untouched entry; a missing table and a failed save propagate. */
  lemma {:induction false} WithdrawResponses(wallet: Wrappers.Option<WalletRecord>,
                                             table: Wrappers.Option<seq<ExchangeRates.RateEntry>>, walletId: int,
                                             code: string, amount: real, persisted: bool)
    ensures var out := OperationResponse(Settle(WithdrawPlan(wallet, table, walletId, code, amount), persisted));
      var found := wallet.Some? && ExchangeRates.LookupIn(table, code).Found?;
      var held := found && IndexOfCode(wallet.value.currencies, code).Some?;
      && (out == Wrappers.Success(WalletOperationResponse(WalletOperationResponseCode.WalletNotFound, Wrappers.None)) <==> wallet.None?)
      && (out == Wrappers.Failure(ArgumentNullException) <==> wallet.Some? && table.None?)
      && (out == Wrappers.Success(WalletOperationResponse(WalletOperationResponseCode.CurrencyDoesNotExist, Wrappers.None)) <==>
            wallet.Some? && ExchangeRates.LookupIn(table, code).NotListed?)
      && (out == Wrappers.Success(WalletOperationResponse(WalletOperationResponseCode.CurrencyNotInWallet, Wrappers.None)) <==>
            found && IndexOfCode(wallet.value.currencies, code).None?)
      && (held ==>
            var b := wallet.value.currencies[IndexOfCode(wallet.value.currencies, code).value];
            && (out == Wrappers.Success(WalletOperationResponse(WalletOperationResponseCode.NotEnoughFunds, Wrappers.Some(b))) <==>
                  b.amount < amount)
            && (out == Wrappers.Failure(WalletRepositoryException) <==> b.amount >= amount && !persisted)
            && (out.Success? && out.value.responseCode == WalletOperationResponseCode.Success <==> b.amount >= amount && persisted))
  {
  }

  /** The exchanges' responses: a missing source rate and a missing target
      rate get different codes, the source one checked first; a missing
      source entry and a shortfall are reported before anything changes. */
  lemma {:induction false} ExchangeResponses(wallet: Wrappers.Option<WalletRecord>,
                                             table: Wrappers.Option<seq<ExchangeRates.RateEntry>>, walletId: int,
                                             source: string, target: string, amount: real, persisted: bool)
    ensures var from := ExchangeResponse(Settle(ExchangeFromPlan(wallet, table, walletId, source, target, amount), persisted));
      var to := ExchangeResponse(Settle(ExchangeToPlan(wallet, table, walletId, source, target, amount), persisted));
      var sourceFound := wallet.Some? && ExchangeRates.LookupIn(table, source).Found?;
      && (wallet.None? ==>
            from == to == Wrappers.Success(ExchangeFundsResponse(ExchangeFundsResponseCode.WalletNotFound, Wrappers.None, Wrappers.None)))
      && (wallet.Some? && table.None? ==> from == to == Wrappers.Failure(ArgumentNullException))
      && (wallet.Some? && ExchangeRates.LookupIn(table, source).NotListed? ==>
            from == to == Wrappers.Success(ExchangeFundsResponse(ExchangeFundsResponseCode.SourceCurrencyDoesNotExist, Wrappers.None, Wrappers.None)))
      && (sourceFound && ExchangeRates.LookupIn(table, target).NotListed? ==>
            from == to == Wrappers.Success(ExchangeFundsResponse(ExchangeFundsResponseCode.TargetCurrencyDoesNotExist, Wrappers.None, Wrappers.None)))
      && (sourceFound && ExchangeRates.LookupIn(table, target).Found? &&
          IndexOfCode(wallet.value.currencies, source).None? ==>
            from == to == Wrappers.Success(ExchangeFundsResponse(ExchangeFundsResponseCode.SourceCurrencyNotInWallet, Wrappers.None, Wrappers.None)))
  {
  }

  /** AddFundsAsync: the response, or the exception that propagates. */
  method AddFundsAsync(repo: WalletRepository.FileWalletRepository, rates: ExchangeRates.FileExchangeRatesRepository,
                       walletId: int, currencyCode: string, amount: real, persisted: bool)
    returns (r: Wrappers.Result<WalletOperationResponse, UnhandledException>)
    requires repo.Valid()
    modifies repo
    ensures repo.Valid()
    ensures var plan := AddFundsPlan(WalletRepository.StoredWallet(old(repo.wallets), walletId), rates.table,
                                     walletId, currencyCode, amount);
      r == OperationResponse(Settle(plan, persisted)) && repo.wallets == Committed(old(repo.wallets), walletId, plan, persisted)
  {
    var out := AddFunds(repo, rates, walletId, currencyCode, amount, persisted);
    r := OperationResponse(out);
  }

  /** WithdrawFundsAsync: the response, or the exception that propagates. */
  method WithdrawFundsAsync(repo: WalletRepository.FileWalletRepository, rates: ExchangeRates.FileExchangeRatesRepository,
                            walletId: int, currencyCode: string, amount: real, persisted: bool)
    returns (r: Wrappers.Result<WalletOperationResponse, UnhandledException>)
    requires repo.Valid()
    modifies repo
    ensures repo.Valid()
    ensures var plan := WithdrawPlan(WalletRepository.StoredWallet(old(repo.wallets), walletId), rates.table,
                                     walletId, currencyCode, amount);
      r == OperationResponse(Settle(plan, persisted)) && repo.wallets == Committed(old(repo.wallets), walletId, plan, persisted)
  {
    var out := Withdraw(repo, rates, walletId, currencyCode, amount, persisted);
    r := OperationResponse(out);
  }

  /** ExchangeFromFundsAsync: the response, or the exception that propagates. */
  method ExchangeFromFundsAsync(repo: WalletRepository.FileWalletRepository,
                                rates: ExchangeRates.FileExchangeRatesRepository, walletId: int,
                                sourceCurrencyCode: string, targetCurrencyCode: string, amount: real,
                                persisted: bool)
    returns (r: Wrappers.Result<ExchangeFundsResponse, UnhandledException>)
    requires repo.Valid()
    modifies repo
    ensures repo.Valid()
    ensures var plan := ExchangeFromPlan(WalletRepository.StoredWallet(old(repo.wallets), walletId), rates.table,
                                         walletId, sourceCurrencyCode, targetCurrencyCode, amount);
      r == ExchangeResponse(Settle(plan, persisted)) && repo.wallets == Committed(old(repo.wallets), walletId, plan, persisted)
  {
    var out := ExchangeFrom(repo, rates, walletId, sourceCurrencyCode, targetCurrencyCode, amount, persisted);
    r := ExchangeResponse(out);
  }

  /** ExchangeToFundsAsync: the response, or the exception that propagates. */
  method ExchangeToFundsAsync(repo: WalletRepository.FileWalletRepository,
                              rates: ExchangeRates.FileExchangeRatesRepository, walletId: int,
                              sourceCurrencyCode: string, targetCurrencyCode: string, amount: real,
                              persisted: bool)
    returns (r: Wrappers.Result<ExchangeFundsResponse, UnhandledException>)
    requires repo.Valid()
    modifies repo
    ensures repo.Valid()
    ensures var plan := ExchangeToPlan(WalletRepository.StoredWallet(old(repo.wallets), walletId), rates.table,
                                       walletId, sourceCurrencyCode, targetCurrencyCode, amount);
      r == ExchangeResponse(Settle(plan, persisted)) && repo.wallets == Committed(old(repo.wallets), walletId, plan, persisted)
  {
    var out := ExchangeTo(repo, rates, walletId, sourceCurrencyCode, targetCurrencyCode, amount, persisted);
    r := ExchangeResponse(out);
  }
}
