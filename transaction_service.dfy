/** WalletTransactionService (Services/WalletTransactionService.cs): the
    balance engine with every error raised as an exception. The lock around
    each operation is not modelled; each call is one atomic step. */
module TransactionService {
  import opened Wrappers
  import opened Models
  import opened Engine
  import ExchangeRates
  import WalletRepository

  /** The exceptions a caller of WalletTransactionService can see: the
      service's own (MultiWallet.Api/Exceptions), the one FirstOrDefault
      raises over the missing rate table, the decimal division's, and the
      repository's. */
  datatype ServiceException =
    | WalletNotFoundException(walletId: int)
    | CurrencyNotFoundException(currencyCode: string)
    | CurrencyNotInWalletException(currencyCode: string)
    | NotEnoughFundsException(funds: real)
    | ArgumentNullException
    | DivideByZeroException
    | WalletRepositoryException

  /** The exception thrown for each engine error: a missing rate names the
      code but not which side of an exchange it was, and a shortfall reports
      only the balance. */
  function Raised(e: EngineError): (x: ServiceException)
    ensures x.NotEnoughFundsException? <==> e.NotEnoughFunds?
    ensures x.CurrencyNotFoundException? <==> e.CurrencyNotFound?
    ensures e.WalletNotFound? ==> x == WalletNotFoundException(e.walletId)
    ensures e.CurrencyNotFound? ==> x == CurrencyNotFoundException(e.code)
    ensures e.CurrencyNotInWallet? ==> x == CurrencyNotInWalletException(e.code)
    ensures e.NotEnoughFunds? ==> x == NotEnoughFundsException(e.balance.amount)
    ensures e.DivideByZero? ==> x == DivideByZeroException
    ensures e.RatesUnavailable? ==> x == ArgumentNullException
    ensures e.StorageFailure? ==> x == WalletRepositoryException
  {
    match e
    case WalletNotFound(id) => WalletNotFoundException(id)
    case CurrencyNotFound(code, _) => CurrencyNotFoundException(code)
    case CurrencyNotInWallet(code) => CurrencyNotInWalletException(code)
    case NotEnoughFunds(balance) => NotEnoughFundsException(balance.amount)
    case DivideByZero => DivideByZeroException
    case RatesUnavailable => ArgumentNullException
    case StorageFailure => WalletRepositoryException
  }

  /** The outcome seen by the caller: the value returned, or the exception
      thrown. */
  function Thrown<T>(r: Result<T, EngineError>): (out: Result<T, ServiceException>)
    ensures out.Success? <==> r.Success?
    ensures r.Success? ==> out.value == r.value
  {
    match r
    case Success(v) => Success(v)
    case Failure(e) => Failure(Raised(e))
  }

  /** Two engine errors raise the same exception only when they are the same
      error, or both a missing rate for the same code, or both a shortfall on
      the same balance. */
  lemma RaisedLosesOnlySideAndEntry(e1: EngineError, e2: EngineError)
    requires Raised(e1) == Raised(e2)
    ensures || e1 == e2
            || (e1.CurrencyNotFound? && e2.CurrencyNotFound? && e1.code == e2.code)
            || (e1.NotEnoughFunds? && e2.NotEnoughFunds? && e1.balance.amount == e2.balance.amount)
  {
  }

  /** In an exchange between two different codes, the code named by
      CurrencyNotFoundException tells which rate was missing. */
  lemma CurrencyNotFoundNamesSide(wallet: Option<WalletRecord>, table: Option<seq<ExchangeRates.RateEntry>>,
                                  walletId: int, source: string, target: string, amount: real)
    requires source != target
    ensures var p := ExchangeFromPlan(wallet, table, walletId, source, target, amount);
      p.Failure? && p.error.CurrencyNotFound? ==>
        (Raised(p.error) == CurrencyNotFoundException(source) <==> p.error.side == Source)
    ensures var p := ExchangeToPlan(wallet, table, walletId, source, target, amount);
      p.Failure? && p.error.CurrencyNotFound? ==>
        (Raised(p.error) == CurrencyNotFoundException(source) <==> p.error.side == Source)
  {
  }

  /** AddFundsAsync: the entry after the deposit, or the exception. */
  method AddFundsAsync(repo: WalletRepository.FileWalletRepository, rates: ExchangeRates.FileExchangeRatesRepository,
                       walletId: int, currencyCode: string, amount: real, persisted: bool)
    returns (r: Result<Balance, ServiceException>)
    requires repo.Valid()
    modifies repo
    ensures repo.Valid()
    ensures var plan := AddFundsPlan(WalletRepository.StoredWallet(old(repo.wallets), walletId), rates.table,
                                     walletId, currencyCode, amount);
      r == Thrown(Settle(plan, persisted)) && repo.wallets == Committed(old(repo.wallets), walletId, plan, persisted)
  {
    var out := AddFunds(repo, rates, walletId, currencyCode, amount, persisted);
    r := Thrown(out);
  }

  /** WithdrawFundsAsync: the entry after the withdrawal, or the exception. */
  method WithdrawFundsAsync(repo: WalletRepository.FileWalletRepository, rates: ExchangeRates.FileExchangeRatesRepository,
                            walletId: int, currencyCode: string, amount: real, persisted: bool)
    returns (r: Result<Balance, ServiceException>)
    requires repo.Valid()
    modifies repo
    ensures repo.Valid()
    ensures var plan := WithdrawPlan(WalletRepository.StoredWallet(old(repo.wallets), walletId), rates.table,
                                     walletId, currencyCode, amount);
      r == Thrown(Settle(plan, persisted)) && repo.wallets == Committed(old(repo.wallets), walletId, plan, persisted)
  {
    var out := Withdraw(repo, rates, walletId, currencyCode, amount, persisted);
    r := Thrown(out);
  }

  /** ExchangeFromFundsAsync: the source and target entries afterwards, or
      the exception. */
  method ExchangeFromFundsAsync(repo: WalletRepository.FileWalletRepository,
                                rates: ExchangeRates.FileExchangeRatesRepository, walletId: int,
                                sourceCurrencyCode: string, targetCurrencyCode: string, amount: real,
                                persisted: bool)
    returns (r: Result<(Balance, Balance), ServiceException>)
    requires repo.Valid()
    modifies repo
    ensures repo.Valid()
    ensures var plan := ExchangeFromPlan(WalletRepository.StoredWallet(old(repo.wallets), walletId), rates.table,
                                         walletId, sourceCurrencyCode, targetCurrencyCode, amount);
      r == Thrown(Settle(plan, persisted)) && repo.wallets == Committed(old(repo.wallets), walletId, plan, persisted)
  {
    var out := ExchangeFrom(repo, rates, walletId, sourceCurrencyCode, targetCurrencyCode, amount, persisted);
    r := Thrown(out);
  }

  /** ExchangeToFundsAsync: the source and target entries afterwards, or the
      exception. */
  method ExchangeToFundsAsync(repo: WalletRepository.FileWalletRepository,
                              rates: ExchangeRates.FileExchangeRatesRepository, walletId: int,
                              sourceCurrencyCode: string, targetCurrencyCode: string, amount: real,
                              persisted: bool)
    returns (r: Result<(Balance, Balance), ServiceException>)
    requires repo.Valid()
    modifies repo
    ensures repo.Valid()
    ensures var plan := ExchangeToPlan(WalletRepository.StoredWallet(old(repo.wallets), walletId), rates.table,
                                       walletId, sourceCurrencyCode, targetCurrencyCode, amount);
      r == Thrown(Settle(plan, persisted)) && repo.wallets == Committed(old(repo.wallets), walletId, plan, persisted)
  {
    var out := ExchangeTo(repo, rates, walletId, sourceCurrencyCode, targetCurrencyCode, amount, persisted);
    r := Thrown(out);
  }
}
