/** The balance engine shared by Services/WalletTransactionService.cs and
    Services/WalletService.cs: deposit, withdraw, exchange from a fixed
    source amount and exchange to a fixed target amount.

    Each operation reads a fresh copy of the wallet from the repository,
    checks in a fixed order (wallet, rates, entry in wallet, funds), changes
    the copy's entries in place and hands the copy to UpdateWalletAsync once.
    The plan functions say what an operation does to the wallet's currency
    list; the methods do it step by step and are proved to agree with them. */
module Engine {
  import opened Wrappers
  import opened Models
  import opened ExchangeRates
  import opened WalletRepository

  /** Which of an operation's currencies a missing rate belongs to. */
  datatype Side = Only | Source | Target

  /** Every way an operation can end without a result. */
  datatype EngineError =
    | WalletNotFound(walletId: int)
    | CurrencyNotFound(code: string, side: Side)
    | CurrencyNotInWallet(code: string)
    | NotEnoughFunds(balance: Balance)
    | DivideByZero          // a rate of 0 used as a divisor
    | RatesUnavailable      // no rate table was ever loaded
    | StorageFailure        // the wallet repository's save step failed

  /** What an operation does to the wallet: its new currency list, and what it
      hands back. */
  datatype Effect<T> = Effect(currencies: seq<Balance>, reply: T)

  /** The matching test of `Currencies.FirstOrDefault(c => c.Code == code)`. */
  function HoldsCode(code: string): Balance -> bool {
    (b: Balance) => b.code == code
  }

  /** `Currencies.FirstOrDefault(c => c.Code == code)` as a position. */
  ghost function IndexOfCode(cs: seq<Balance>, code: string): Option<nat>
  {
    FirstIndex(cs, HoldsCode(code))
  }

  /** No two entries share a code. */
  predicate UniqueCodes(cs: seq<Balance>) {
    forall i, j :: 0 <= i < j < |cs| ==> cs[i].code != cs[j].code
  }

  /** Balance of `code` in `cs`, zero when there is no entry. */
  ghost function BalanceOf(cs: seq<Balance>, code: string): real
  {
    match IndexOfCode(cs, code)
    case None => 0.0
    case Some(k) => cs[k].amount
  }

  /** GetOrCreateCurrencyInWallet on values: the list (with an entry for the
      rate's code appended at zero if it had none) and the entry's position. */
  ghost function GetOrCreate(cs: seq<Balance>, rate: RateEntry): (seq<Balance>, nat)
  {
    match IndexOfCode(cs, rate.code)
    case Some(k) => (cs, k)
    case None => (cs + [Balance(rate.currency, rate.code, 0.0)], |cs|)
  }

  /** GetOrCreate adds an entry only when none has the code, always at the
      end, keeps every existing entry where it was, and so keeps at most one
      entry per code; the position it gives holds the rate's code. */
  lemma GetOrCreateProperties(cs: seq<Balance>, rate: RateEntry)
    ensures var cs', k := GetOrCreate(cs, rate).0, GetOrCreate(cs, rate).1;
      && k < |cs'| && cs'[k].code == rate.code
      && cs'[..|cs|] == cs
      && (IndexOfCode(cs, rate.code).Some? ==> cs' == cs && Some(k) == IndexOfCode(cs, rate.code))
      && (IndexOfCode(cs, rate.code).None? ==>
            cs' == cs + [Balance(rate.currency, rate.code, 0.0)] && k == |cs|)
      && (UniqueCodes(cs) ==> UniqueCodes(cs'))
  {
  }

  /** `cs[k].Amount += delta`, handing back the entry as it ends up. */
  ghost function Change(cs: seq<Balance>, k: nat, delta: real): Effect<Balance>
    requires k < |cs|
  {
    var after := Adjusted(cs, k, delta);
    Effect(after, after[k])
  }

  /** `amount` of a currency whose mid rate is `fromMid`, expressed in a
      currency whose mid rate is `toMid`: first into the reference currency
      (multiplying by the rate), then out of it (dividing). */
  function Convert(amount: real, fromMid: real, toMid: real): real
    requires toMid != 0.0
  {
    var inReference := amount * fromMid;
    inReference / toMid
  }

  /** Debits position i and then credits position j (which may be the same
      entry), handing back both entries as they end up. */
  ghost function Transfer(cs: seq<Balance>, i: nat, debit: real, j: nat, credit: real): Effect<(Balance, Balance)>
    requires i < |cs| && j < |cs|
  {
    var after := Adjusted(Adjusted(cs, i, -debit), j, credit);
    Effect(after, (after[i], after[j]))
  }

  /** AddFundsAsync once the wallet is found, given the lookup of `code`: the
      entry for `code` (created at zero if missing) grows by `amount`. */
  ghost function AddFundsChecked(cs: seq<Balance>, rate: Lookup, code: string, amount: real)
    : Result<Effect<Balance>, EngineError>
  {
    match rate
    case NoTable => Failure(RatesUnavailable)
    case NotListed => Failure(CurrencyNotFound(code, Only))
    case Found(entry) =>
      var placed := GetOrCreate(cs, entry);
      Success(Change(placed.0, placed.1, amount))
  }

  ghost function AddFundsPlan(wallet: Option<WalletRecord>, table: Option<seq<RateEntry>>,
                              walletId: int, code: string, amount: real): Result<Effect<Balance>, EngineError>
  {
    if wallet.None? then Failure(WalletNotFound(walletId))
    else AddFundsChecked(wallet.value.currencies, LookupIn(table, code), code, amount)
  }

  /** WithdrawFundsAsync once the wallet is found: the existing entry for
      `code` shrinks by `amount`, provided it holds at least that much. */
  ghost function WithdrawChecked(cs: seq<Balance>, rate: Lookup, code: string, amount: real)
    : Result<Effect<Balance>, EngineError>
  {
    match rate
    case NoTable => Failure(RatesUnavailable)
    case NotListed => Failure(CurrencyNotFound(code, Only))
    case Found(_) =>
      match IndexOfCode(cs, code)
      case None => Failure(CurrencyNotInWallet(code))
      case Some(i) =>
        if cs[i].amount < amount then Failure(NotEnoughFunds(cs[i]))
        else Success(Change(cs, i, -amount))
  }

  ghost function WithdrawPlan(wallet: Option<WalletRecord>, table: Option<seq<RateEntry>>,
                              walletId: int, code: string, amount: real): Result<Effect<Balance>, EngineError>
  {
    if wallet.None? then Failure(WalletNotFound(walletId))
    else WithdrawChecked(wallet.value.currencies, LookupIn(table, code), code, amount)
  }

  /** ExchangeFromFundsAsync once the wallet is found: `amount` of the source
      currency is sold; the funds check is in source units, before any
      conversion. */
  ghost function ExchangeFromChecked(cs: seq<Balance>, sourceData: Lookup, targetData: Lookup,
                                     source: string, target: string, amount: real)
    : Result<Effect<(Balance, Balance)>, EngineError>
  {
    match sourceData
    case NoTable => Failure(RatesUnavailable)
    case NotListed => Failure(CurrencyNotFound(source, Source))
    case Found(sourceRate) =>
      if !targetData.Found? then Failure(CurrencyNotFound(target, Target))
      else
        match IndexOfCode(cs, source)
        case None => Failure(CurrencyNotInWallet(source))
        case Some(i) =>
          if cs[i].amount < amount then Failure(NotEnoughFunds(cs[i]))
          else if targetData.entry.mid == 0.0 then Failure(DivideByZero)
          else
            var placed := GetOrCreate(cs, targetData.entry);
            Success(Transfer(placed.0, i, amount, placed.1, Convert(amount, sourceRate.mid, targetData.entry.mid)))
  }

  ghost function ExchangeFromPlan(wallet: Option<WalletRecord>, table: Option<seq<RateEntry>>, walletId: int,
                                  source: string, target: string, amount: real)
    : Result<Effect<(Balance, Balance)>, EngineError>
  {
    if wallet.None? then Failure(WalletNotFound(walletId))
    else ExchangeFromChecked(wallet.value.currencies, LookupIn(table, source), LookupIn(table, target),
                             source, target, amount)
  }

  /** ExchangeToFundsAsync once the wallet is found: `amount` of the target
      currency is bought; the funds check compares the balance with the
      converted source amount. */
  ghost function ExchangeToChecked(cs: seq<Balance>, sourceData: Lookup, targetData: Lookup,
                                   source: string, target: string, amount: real)
    : Result<Effect<(Balance, Balance)>, EngineError>
  {
    match sourceData
    case NoTable => Failure(RatesUnavailable)
    case NotListed => Failure(CurrencyNotFound(source, Source))
    case Found(sourceRate) =>
      if !targetData.Found? then Failure(CurrencyNotFound(target, Target))
      else
        match IndexOfCode(cs, source)
        case None => Failure(CurrencyNotInWallet(source))
        case Some(i) =>
          if sourceRate.mid == 0.0 then Failure(DivideByZero)
          else
            var required := Convert(amount, targetData.entry.mid, sourceRate.mid);
            if cs[i].amount < required then Failure(NotEnoughFunds(cs[i]))
            else
              var placed := GetOrCreate(cs, targetData.entry);
              Success(Transfer(placed.0, i, required, placed.1, amount))
  }

  ghost function ExchangeToPlan(wallet: Option<WalletRecord>, table: Option<seq<RateEntry>>, walletId: int,
                                source: string, target: string, amount: real)
    : Result<Effect<(Balance, Balance)>, EngineError>
  {
    if wallet.None? then Failure(WalletNotFound(walletId))
    else ExchangeToChecked(wallet.value.currencies, LookupIn(table, source), LookupIn(table, target),
                           source, target, amount)
  }

  /** The caller's result: the plan's error, the storage error when the save
      step fails, or the plan's reply. */
  ghost function Settle<T>(plan: Result<Effect<T>, EngineError>, persisted: bool): Result<T, EngineError>
  {
    match plan
    case Failure(e) => Failure(e)
    case Success(eff) => if persisted then Success(eff.reply) else Failure(StorageFailure)
  }

  /** The cache afterwards: the planned currency list is written to the
      wallet only when the plan succeeded and the save step did too. */
  ghost function Committed<T>(ws: seq<WalletRecord>, walletId: int, plan: Result<Effect<T>, EngineError>,
                              persisted: bool): seq<WalletRecord>
  {
    if plan.Success? && persisted then WithCurrencies(ws, walletId, plan.value.currencies) else ws
  }

  /** GetOrCreateCurrencyInWallet: the position of the wallet's first entry
      with the rate's code, after appending a new zero entry (name and code
      from the rate) when there was none. */
  method GetOrCreateCurrencyInWallet(w: Wallet, rate: RateEntry) returns (k: nat)
    requires w.Valid()
    modifies w`currencies, w`Repr
    ensures w.Valid() && fresh(w.Repr - old(w.Repr))
    ensures (w.Entries(), k) == GetOrCreate(old(w.Entries()), rate)
  {
    var found := FirstOrDefault(w.Entries(), HoldsCode(rate.code));
    if found.Some? {
      k := found.value;
    } else {
      var c := new CurrencyData(rate.currency, rate.code);
      w.currencies := w.currencies + [c];
      w.Repr := w.Repr + {c};
      k := |w.currencies| - 1;
      assert w.Entries() == old(w.Entries()) + [Balance(rate.currency, rate.code, 0.0)];
    }
  }

  /** The last step of AddFunds and Withdraw: `Currencies[k].Amount += delta`
      on the copy, then UpdateWalletAsync. */
  method SaveChange(repo: FileWalletRepository, wallet: Wallet, k: nat, delta: real, persisted: bool)
    returns (r: Result<Balance, EngineError>)
    requires repo.Valid() && wallet.Valid() && k < |wallet.currencies|
    requires FindWallet(repo.wallets, wallet.id).Some?
    modifies repo, wallet.Repr
    ensures repo.Valid()
    ensures var plan: Result<Effect<Balance>, EngineError> := Success(Change(old(wallet.Entries()), k, delta));
      r == Settle(plan, persisted) && repo.wallets == Committed(old(repo.wallets), old(wallet.id), plan, persisted)
  {
    wallet.ChangeAmount(k, delta);
    var result := wallet.Entries()[k];
    var saved := repo.UpdateWallet(wallet, persisted);
    if saved.Failure? {
      return Failure(StorageFailure);
    }
    return Success(result);
  }

  /** The last step of both exchanges: the debit and the credit on the copy,
      then UpdateWalletAsync. */
  method SaveTransfer(repo: FileWalletRepository, wallet: Wallet, i: nat, debit: real, j: nat, credit: real,
                      persisted: bool)
    returns (r: Result<(Balance, Balance), EngineError>)
    requires repo.Valid() && wallet.Valid() && i < |wallet.currencies| && j < |wallet.currencies|
    requires FindWallet(repo.wallets, wallet.id).Some?
    modifies repo, wallet.Repr
    ensures repo.Valid()
    ensures var plan: Result<Effect<(Balance, Balance)>, EngineError> :=
              Success(Transfer(old(wallet.Entries()), i, debit, j, credit));
      r == Settle(plan, persisted) && repo.wallets == Committed(old(repo.wallets), old(wallet.id), plan, persisted)
  {
    wallet.ChangeAmount(i, -debit);
    wallet.ChangeAmount(j, credit);
    var after := wallet.Entries();
    var saved := repo.UpdateWallet(wallet, persisted);
    if saved.Failure? {
      return Failure(StorageFailure);
    }
    return Success((after[i], after[j]));
  }

  /** AddFundsAsync from the point where the wallet copy is in hand. */
  method AddFundsIn(repo: FileWalletRepository, wallet: Wallet, currencyData: Lookup,
                    code: string, amount: real, persisted: bool)
    returns (r: Result<Balance, EngineError>)
    requires repo.Valid() && wallet.Valid()
    requires FindWallet(repo.wallets, wallet.id).Some?
    modifies repo, wallet.Repr
    ensures repo.Valid()
    ensures var plan := AddFundsChecked(old(wallet.Entries()), currencyData, code, amount);
      r == Settle(plan, persisted) && repo.wallets == Committed(old(repo.wallets), old(wallet.id), plan, persisted)
  {
    if currencyData.NoTable? {
      return Failure(RatesUnavailable);
    }
    if currencyData.NotListed? {
      return Failure(CurrencyNotFound(code, Only));
    }
    var k := GetOrCreateCurrencyInWallet(wallet, currencyData.entry);
    r := SaveChange(repo, wallet, k, amount, persisted);
  }

  /** WithdrawFundsAsync from the point where the wallet copy is in hand. */
  method WithdrawIn(repo: FileWalletRepository, wallet: Wallet, currencyData: Lookup,
                    code: string, amount: real, persisted: bool)
    returns (r: Result<Balance, EngineError>)
    requires repo.Valid() && wallet.Valid()
    requires FindWallet(repo.wallets, wallet.id).Some?
    modifies repo, wallet.Repr
    ensures repo.Valid()
    ensures var plan := WithdrawChecked(old(wallet.Entries()), currencyData, code, amount);
      r == Settle(plan, persisted) && repo.wallets == Committed(old(repo.wallets), old(wallet.id), plan, persisted)
  {
    if currencyData.NoTable? {
      return Failure(RatesUnavailable);
    }
    if currencyData.NotListed? {
      return Failure(CurrencyNotFound(code, Only));
    }
    var cs := wallet.Entries();
    var i := FirstOrDefault(cs, HoldsCode(code));
    if i.None? {
      return Failure(CurrencyNotInWallet(code));
    }
    if cs[i.value].amount < amount {
      return Failure(NotEnoughFunds(cs[i.value]));
    }
    r := SaveChange(repo, wallet, i.value, -amount, persisted);
  }

  /** ExchangeFromFundsAsync from the point where the wallet copy is in hand. */
  method ExchangeFromIn(repo: FileWalletRepository, wallet: Wallet, sourceData: Lookup, targetData: Lookup,
                        source: string, target: string, amount: real, persisted: bool)
    returns (r: Result<(Balance, Balance), EngineError>)
    requires repo.Valid() && wallet.Valid()
    requires FindWallet(repo.wallets, wallet.id).Some?
    modifies repo, wallet.Repr
    ensures repo.Valid()
    ensures var plan := ExchangeFromChecked(old(wallet.Entries()), sourceData, targetData, source, target, amount);
      r == Settle(plan, persisted) && repo.wallets == Committed(old(repo.wallets), old(wallet.id), plan, persisted)
  {
    if sourceData.NoTable? {
      return Failure(RatesUnavailable);
    }
    if sourceData.NotListed? {
      return Failure(CurrencyNotFound(source, Source));
    }
    if !targetData.Found? {
      return Failure(CurrencyNotFound(target, Target));
    }
    var cs := wallet.Entries();
    var i := FirstOrDefault(cs, HoldsCode(source));
    if i.None? {
      return Failure(CurrencyNotInWallet(source));
    }
    if cs[i.value].amount < amount {
      return Failure(NotEnoughFunds(cs[i.value]));
    }
    var j := GetOrCreateCurrencyInWallet(wallet, targetData.entry);
    if targetData.entry.mid == 0.0 {
      return Failure(DivideByZero);
    }
    var inTarget := Convert(amount, sourceData.entry.mid, targetData.entry.mid);
    r := SaveTransfer(repo, wallet, i.value, amount, j, inTarget, persisted);
  }

  /** ExchangeToFundsAsync from the point where the wallet copy is in hand. */
  method ExchangeToIn(repo: FileWalletRepository, wallet: Wallet, sourceData: Lookup, targetData: Lookup,
                      source: string, target: string, amount: real, persisted: bool)
    returns (r: Result<(Balance, Balance), EngineError>)
    requires repo.Valid() && wallet.Valid()
    requires FindWallet(repo.wallets, wallet.id).Some?
    modifies repo, wallet.Repr
    ensures repo.Valid()
    ensures var plan := ExchangeToChecked(old(wallet.Entries()), sourceData, targetData, source, target, amount);
      r == Settle(plan, persisted) && repo.wallets == Committed(old(repo.wallets), old(wallet.id), plan, persisted)
  {
    if sourceData.NoTable? {
      return Failure(RatesUnavailable);
    }
    if sourceData.NotListed? {
      return Failure(CurrencyNotFound(source, Source));
    }
    if !targetData.Found? {
      return Failure(CurrencyNotFound(target, Target));
    }
    var cs := wallet.Entries();
    var i := FirstOrDefault(cs, HoldsCode(source));
    if i.None? {
      return Failure(CurrencyNotInWallet(source));
    }
    if sourceData.entry.mid == 0.0 {
      return Failure(DivideByZero);
    }
    var inSource := Convert(amount, targetData.entry.mid, sourceData.entry.mid);
    if cs[i.value].amount < inSource {
      return Failure(NotEnoughFunds(cs[i.value]));
    }
    var j := GetOrCreateCurrencyInWallet(wallet, targetData.entry);
    r := SaveTransfer(repo, wallet, i.value, inSource, j, amount, persisted);
  }

  /** AddFunds without the lock: the result and the cache afterwards are those
      of AddFundsPlan on the stored wallet. */
  method AddFunds(repo: FileWalletRepository, rates: FileExchangeRatesRepository, walletId: int,
                  code: string, amount: real, persisted: bool)
    returns (r: Result<Balance, EngineError>)
    requires repo.Valid()
    modifies repo
    ensures repo.Valid()
    ensures var plan := AddFundsPlan(StoredWallet(old(repo.wallets), walletId), rates.table, walletId, code, amount);
      r == Settle(plan, persisted) && repo.wallets == Committed(old(repo.wallets), walletId, plan, persisted)
  {
    var wallet := repo.GetWallet(walletId);
    if wallet == null {
      return Failure(WalletNotFound(walletId));
    }
    var currencyData := rates.GetCurrencyData(code);
    r := AddFundsIn(repo, wallet, currencyData, code, amount, persisted);
  }

  /** Withdraw without the lock: the result and the cache afterwards are those
      of WithdrawPlan on the stored wallet. */
  method Withdraw(repo: FileWalletRepository, rates: FileExchangeRatesRepository, walletId: int,
                  code: string, amount: real, persisted: bool)
    returns (r: Result<Balance, EngineError>)
    requires repo.Valid()
    modifies repo
    ensures repo.Valid()
    ensures var plan := WithdrawPlan(StoredWallet(old(repo.wallets), walletId), rates.table, walletId, code, amount);
      r == Settle(plan, persisted) && repo.wallets == Committed(old(repo.wallets), walletId, plan, persisted)
  {
    var wallet := repo.GetWallet(walletId);
    if wallet == null {
      return Failure(WalletNotFound(walletId));
    }
    var currencyData := rates.GetCurrencyData(code);
    r := WithdrawIn(repo, wallet, currencyData, code, amount, persisted);
  }

  /** ExchangeFrom without the lock: the result and the cache afterwards are those
      of ExchangeFromPlan on the stored wallet. */
  method ExchangeFrom(repo: FileWalletRepository, rates: FileExchangeRatesRepository, walletId: int,
                  source: string, target: string, amount: real, persisted: bool)
    returns (r: Result<(Balance, Balance), EngineError>)
    requires repo.Valid()
    modifies repo
    ensures repo.Valid()
    ensures var plan := ExchangeFromPlan(StoredWallet(old(repo.wallets), walletId), rates.table, walletId, source, target, amount);
      r == Settle(plan, persisted) && repo.wallets == Committed(old(repo.wallets), walletId, plan, persisted)
  {
    var wallet := repo.GetWallet(walletId);
    if wallet == null {
      return Failure(WalletNotFound(walletId));
    }
    var sourceData := rates.GetCurrencyData(source);
    var targetData := rates.GetCurrencyData(target);
    r := ExchangeFromIn(repo, wallet, sourceData, targetData, source, target, amount, persisted);
  }

  /** ExchangeTo without the lock: the result and the cache afterwards are those
      of ExchangeToPlan on the stored wallet. */
  method ExchangeTo(repo: FileWalletRepository, rates: FileExchangeRatesRepository, walletId: int,
                  source: string, target: string, amount: real, persisted: bool)
    returns (r: Result<(Balance, Balance), EngineError>)
    requires repo.Valid()
    modifies repo
    ensures repo.Valid()
    ensures var plan := ExchangeToPlan(StoredWallet(old(repo.wallets), walletId), rates.table, walletId, source, target, amount);
      r == Settle(plan, persisted) && repo.wallets == Committed(old(repo.wallets), walletId, plan, persisted)
  {
    var wallet := repo.GetWallet(walletId);
    if wallet == null {
      return Failure(WalletNotFound(walletId));
    }
    var sourceData := rates.GetCurrencyData(source);
    var targetData := rates.GetCurrencyData(target);
    r := ExchangeToIn(repo, wallet, sourceData, targetData, source, target, amount, persisted);
  }
}
