# MultiWallet in Dafny

MultiWallet is a small web service that keeps multi-currency wallets. A
wallet has an id, a name and a list of currency entries, each with a
display name, a currency code and an amount. Amounts are decimals, and every
assignment rounds them to two places with midpoints away from zero. The
service can:

- create a wallet with an initial list of currency codes;
- deposit into a wallet and withdraw from it;
- exchange between two currencies, either a fixed source amount
  ("exchange from") or a fixed target amount ("exchange to").

Exchanges use the mid rates of the central bank's rate table, with the zloty
as the reference currency. Wallets and rates live in two file-backed
repositories, and each keeps an in-memory cache.

This project models:

- the two entities and the rounding `Amount` setter (`models.dfy`);
- the rate repository (`exchange_rates.dfy`) and the wallet repository
  (`wallet_repository.dfy`), as classes whose in-memory state is a field;
- the balance engine shared by WalletTransactionService and WalletService
  (`engine.dfy`). Each operation is a ghost plan function on values, and a
  method that works step by step on a fresh Wallet object and is proved to
  agree with the plan;
- the two service front ends: WalletTransactionService, which throws
  exceptions (`transaction_service.dfy`), and WalletService, which returns
  response codes (`wallet_service.dfy`);
- wallet creation and lookup, from WalletManagementService
  (`management.dfy`);
- the properties of the plans, with the scenarios of the unit tests
  (`engine_properties.dfy`).

Modelling choices:

- Decimals are `real`s. The setter is `Round2`, whose contract pins the
  result down completely.
- Writing a file is one step, and its outcome is a parameter:
  - `persisted` for the wallets file;
  - `written` for the rates file.
- The repository changes its cache only after a save succeeds. A failed save
  surfaces as `WalletRepositoryException`.
- The rate table is `Option<seq<RateEntry>>`, where `None` is the null list
  left when no file was loaded. A lookup in a missing table calls
  `FirstOrDefault` on null. That throws `ArgumentNullException`, so for a
  missing table the `catch (NullReferenceException)` around it never fires.
  The model follows the code: with no table, every operation that looks up a
  rate fails with `ArgumentNullException`, in both services. It is not
  reported as an unknown currency.
- A wallet that has currency codes to look up needs the table. Creating a
  wallet with an empty code list never looks at the rates.

## Model

| member | source | states |
|---|---|---|
| Wrappers.FirstIndex | MultiWallet.Api/Repositories/FileRepositories/FileWalletRepository.cs:85 | the position `FirstOrDefault` picks: one whose element matches with none before it, or none exactly when no element matches |
| Wrappers.FirstOrDefault | MultiWallet.Api/Services/WalletTransactionService.cs:62 | the linear scan returns exactly `FirstIndex`: the first matching position, or none |
| Models.Round2 | MultiWallet.Api/Models/Wallet.cs:32-36 | the setter's rounding: a whole number of cents, at most half a cent away, and on a tie the value farther from zero |
| Models.Round2Unique | MultiWallet.Api/Models/Wallet.cs:35 | any value with Round2's three properties is Round2's result, so the contract fully determines the rounding |
| Models.Round2Idempotent | MultiWallet.Api/Models/Wallet.cs:35 | assigning an amount that was read back changes nothing |
| Models.Round2OfCents | MultiWallet.Api/Models/Wallet.cs:35 | a value that already has two decimals is stored unchanged |
| Models.Round2Negate | MultiWallet.Api/Models/Wallet.cs:35 | rounding away from zero is symmetric: round(-v) = -round(v) |
| Models.Round2Midpoints | MultiWallet.Api/Models/Wallet.cs:35 | 0.125 gives 0.13, -0.125 gives -0.13, and 2.345 gives 2.35 |
| Models.Round2Sign | MultiWallet.Api/Models/Wallet.cs:35 | rounding never moves an amount across zero |
| Models.Adjusted | MultiWallet.Api/Services/WalletTransactionService.cs:39 | `Currencies[k].Amount += delta` on values: only entry k changes, only its amount, which becomes round2(old + delta) |
| Models.CurrencyData.constructor | MultiWallet.Api/Services/WalletTransactionService.cs:181-185 | a new entry has the given name and code and amount 0 |
| Models.CurrencyData.SetAmount | MultiWallet.Api/Models/Wallet.cs:32-36 | the setter stores round2(v), keeps name and code, and leaves the entry holding whole cents |
| Models.Wallet.constructor | MultiWallet.Api/Models/Wallet.cs:3-7 | a new wallet has id 0 and an empty currency list |
| Models.Wallet.ChangeAmount | MultiWallet.Api/Services/WalletTransactionService.cs:39 | `Currencies[k].Amount += delta` in place: the entries become `Adjusted(old entries, k, delta)`, and the list, the id and the name are kept |
| Models.Wallet.FromRecord | MultiWallet.Api/Models/Wallet.cs:11-21 | builds fresh objects that hold exactly the given wallet value, with every amount going through the setter |
| Models.Wallet.Clone | MultiWallet.Api/Models/Wallet.cs:9-22 | a deep copy: fresh objects, the same id, name and entries |
| ExchangeRates.FirstRate | MultiWallet.Api/Repositories/FileRepositories/FileExchangeRatesRepository.cs:70 | the first rate whose code equals the requested code, or none exactly when no rate has that code |
| ExchangeRates.LookupIn | MultiWallet.Api/Repositories/FileRepositories/FileExchangeRatesRepository.cs:65-80 | a lookup throws exactly when no table is loaded; otherwise it gives the first matching rate, or null when none matches |
| ExchangeRates.LookupFindsCode | MultiWallet.Api/Repositories/FileRepositories/FileExchangeRatesRepository.cs:70 | a rate that a lookup returns has exactly the requested code |
| ExchangeRates.LookupPrefersEarlier | MultiWallet.Api/Repositories/FileRepositories/FileExchangeRatesRepository.cs:70 | when two rates share a code, the earlier one always wins |
| ExchangeRates.FileExchangeRatesRepository.constructor | MultiWallet.Api/Repositories/FileRepositories/FileExchangeRatesRepository.cs:16-41 | a table is loaded only from a file that parses to a non-null list; a missing, unreadable or `null` file leaves no table |
| ExchangeRates.FileExchangeRatesRepository.SaveData | MultiWallet.Api/Repositories/FileRepositories/FileExchangeRatesRepository.cs:43-63 | the new rates replace the table in memory even when the file write then fails; the call fails exactly when the write does; later lookups see the new rates |
| ExchangeRates.FileExchangeRatesRepository.GetCurrencyData | MultiWallet.Api/Repositories/FileRepositories/FileExchangeRatesRepository.cs:65-80 | the scan returns exactly `LookupIn` on the current table, and a found rate has the requested code |
| WalletRepository.FindWallet | MultiWallet.Api/Repositories/FileRepositories/FileWalletRepository.cs:85 | the position of the first cached wallet with that id, or none exactly when no wallet has it |
| WalletRepository.Deserialized | MultiWallet.Api/Repositories/FileRepositories/FileWalletRepository.cs:117 | the cache holds the file's wallets in file order, with every id, name and code kept and every amount assigned through the setter (round2 of the file's amount), so only whole cents |
| WalletRepository.WithCurrenciesChangesOnlyTarget | MultiWallet.Api/Repositories/FileRepositories/FileWalletRepository.cs:99-101 | an update keeps the length, every id and name and every other wallet, and gives the first wallet with the id the new currency list |
| WalletRepository.FindWalletByIndex | MultiWallet.Api/Repositories/FileRepositories/FileWalletRepository.cs:49-50 | when ids are positions, looking up an id is looking up that position, and ids outside the list are absent |
| WalletRepository.CreateKeepsIdsAreIndices | MultiWallet.Api/Repositories/FileRepositories/FileWalletRepository.cs:49-54 | when every cached wallet came from CreateWalletAsync starting from an empty cache (ids equal positions), numbering a new wallet with the current count keeps ids equal to positions, so ids are never repeated |
| WalletRepository.LoadedIdsCanRepeat | MultiWallet.Api/Repositories/FileRepositories/FileWalletRepository.cs:49-50 | numbering by count assumes ids equal positions: after loading one wallet with id 1, the next wallet also gets id 1, and a lookup of 1 finds only the loaded wallet |
| WalletRepository.UpdateKeepsIdsAreIndices | MultiWallet.Api/Repositories/FileRepositories/FileWalletRepository.cs:99-104 | updates never disturb the numbering |
| WalletRepository.FileWalletRepository.constructor | MultiWallet.Api/Repositories/FileRepositories/FileWalletRepository.cs:16-41 | the cache is the file's wallets; a missing, unreadable or `null` file gives an empty cache |
| WalletRepository.FileWalletRepository.CreateWallet | MultiWallet.Api/Repositories/FileRepositories/FileWalletRepository.cs:43-65 | the caller's wallet gets id = current count even if the save fails; only a successful save appends a copy of it to the cache |
| WalletRepository.FileWalletRepository.GetWallets | MultiWallet.Api/Repositories/FileRepositories/FileWalletRepository.cs:67-78 | fresh copies of every cached wallet, in cache order |
| WalletRepository.FileWalletRepository.GetWallet | MultiWallet.Api/Repositories/FileRepositories/FileWalletRepository.cs:80-92 | null exactly when no wallet has the id; otherwise a fresh copy of the first wallet with that id |
| WalletRepository.FileWalletRepository.UpdateWallet | MultiWallet.Api/Repositories/FileRepositories/FileWalletRepository.cs:94-110 | an unknown id fails with a null reference before any save; otherwise a successful save replaces that wallet's currency list and nothing else, and a failed save leaves the cache unchanged |
| Engine.GetOrCreateProperties | MultiWallet.Api/Services/WalletTransactionService.cs:176-191 | an entry is appended (at zero, named after the rate) only when no entry has the code; existing entries stay in place; the position returned holds the code; unique codes stay unique |
| Engine.GetOrCreateCurrencyInWallet | MultiWallet.Api/Services/WalletTransactionService.cs:176-191 | the in-place version ends with exactly the entries and position of `GetOrCreate` |
| Engine.SaveChange | MultiWallet.Api/Services/WalletTransactionService.cs:39-42 | change one amount on the copy, then save: the result and the new cache are `Settle` and `Committed` of that change |
| Engine.SaveTransfer | MultiWallet.Api/Services/WalletTransactionService.cs:120-124 | debit, credit and save: the result and the new cache are `Settle` and `Committed` of the transfer |
| Engine.AddFundsIn | MultiWallet.Api/Services/WalletTransactionService.cs:32-42 | with the wallet copy in hand, the deposit returns and stores exactly what `AddFundsChecked` plans |
| Engine.WithdrawIn | MultiWallet.Api/Services/WalletTransactionService.cs:56-76 | with the wallet copy in hand, the withdrawal returns and stores exactly what `WithdrawChecked` plans |
| Engine.ExchangeFromIn | MultiWallet.Api/Services/WalletTransactionService.cs:91-124 | with the wallet copy in hand, the exchange returns and stores exactly what `ExchangeFromChecked` plans |
| Engine.ExchangeToIn | MultiWallet.Api/Services/WalletTransactionService.cs:139-172 | with the wallet copy in hand, the exchange returns and stores exactly what `ExchangeToChecked` plans |
| Engine.AddFunds | MultiWallet.Api/Services/WalletTransactionService.cs:22-44 | the deposit's result and the cache afterwards are those of `AddFundsPlan` on the stored wallet, settled by the save's outcome |
| Engine.Withdraw | MultiWallet.Api/Services/WalletTransactionService.cs:46-78 | the withdrawal's result and new cache are those of `WithdrawPlan`, settled by the save |
| Engine.ExchangeFrom | MultiWallet.Api/Services/WalletTransactionService.cs:80-126 | the exchange's result and new cache are those of `ExchangeFromPlan`, settled by the save |
| Engine.ExchangeTo | MultiWallet.Api/Services/WalletTransactionService.cs:128-174 | the exchange's result and new cache are those of `ExchangeToPlan`, settled by the save |
| EngineProperties.AdjustedKeepsIndex | MultiWallet.Api/Services/WalletTransactionService.cs:62 | changing an amount moves no code: every lookup by code finds the same position afterwards |
| EngineProperties.GetOrCreateIndex | MultiWallet.Api/Services/WalletTransactionService.cs:178-190 | a later lookup of the rate's code finds the entry that GetOrCreate returned |
| EngineProperties.AddFundsResult | MultiWallet.Api/Services/WalletTransactionService.cs:26-36 | a deposit checks the wallet, then the rate table, then the rate; it succeeds exactly when the wallet exists and the code has a rate |
| EngineProperties.AddFundsExisting | MultiWallet.Api/Services/WalletTransactionService.cs:38-42 | a deposit to an entry the wallet holds sets it to round2(old + amount), returns it, and leaves every other entry as it was |
| EngineProperties.AddFundsNew | MultiWallet.Api/Services/WalletTransactionService.cs:38-42 | a deposit to a code the wallet lacks appends one entry named after the rate, holding round2(amount) |
| EngineProperties.WithdrawResult | MultiWallet.Api/Services/WalletTransactionService.cs:50-71 | the checks run in order: wallet, table, rate, entry, funds. A withdrawal succeeds exactly when the balance is at least the amount, and a shortfall reports the untouched entry |
| EngineProperties.WithdrawSuccess | MultiWallet.Api/Services/WalletTransactionService.cs:68-76 | a withdrawal leaves round2(old - amount), which is never negative and is zero when the whole balance is taken; nothing else changes |
| EngineProperties.ExchangeChecksInOrder | MultiWallet.Api/Services/WalletTransactionService.cs:85-107 | both exchanges check in order: wallet, source rate, target rate, source entry. Each check has its own error |
| EngineProperties.ExchangeFromFunds | MultiWallet.Api/Services/WalletTransactionService.cs:109-118 | exchange-from compares the balance with the amount itself, before any division; a target rate of zero fails after that check |
| EngineProperties.ExchangeToFunds | MultiWallet.Api/Services/WalletTransactionService.cs:157-165 | exchange-to compares the balance with the converted cost amount * targetMid / sourceMid; a source rate of zero fails first |
| EngineProperties.GetOrCreateKeepsEntries | MultiWallet.Api/Services/WalletTransactionService.cs:176-191 | existing entries keep their positions, and the entry returned holds the wallet's balance of the code (0 if new) |
| EngineProperties.TransferEntries | MultiWallet.Api/Services/WalletTransactionService.cs:120-121 | between two entries, the first is debited and the second credited, each rounded; the others, and every code's position, are unchanged |
| EngineProperties.TransferBetween | MultiWallet.Api/Services/WalletTransactionService.cs:114-121 | after GetOrCreate of a different target code, the debit hits the source entry and the credit hits the target entry, starting from the target's balance |
| EngineProperties.ExchangeFromSuccess | MultiWallet.Api/Services/WalletTransactionService.cs:114-124 | a successful exchange-from leaves source = round2(old - amount), never negative, and target = round2(old + amount * sourceMid / targetMid), and returns both; a missing target entry is appended last, and every other entry is unchanged |
| EngineProperties.ExchangeToSuccess | MultiWallet.Api/Services/WalletTransactionService.cs:157-172 | a successful exchange-to leaves source = round2(old - amount * targetMid / sourceMid), never negative, and target = round2(old + amount), and returns both; a missing target entry is appended last, and every other entry is unchanged |
| EngineProperties.ExchangeRoundTrip | MultiWallet.Api/Services/WalletTransactionService.cs:80-174 | selling an amount and then buying the same amount back, on whole cents: when the way back goes through, the source balance is restored exactly and the target balance is within one cent of its start |
| EngineProperties.ExchangeFromBalances | MultiWallet.Api/Services/WalletTransactionService.cs:114-121 | a successful exchange-from lowers the source balance by the amount and raises the target balance by its conversion, each rounded to cents |
| EngineProperties.ExchangeToBalances | MultiWallet.Api/Services/WalletTransactionService.cs:157-169 | a successful exchange-to raises the target balance by the amount and lowers the source balance by its cost, each rounded; the list grows only when the target was missing |
| EngineProperties.RoundTripAmounts | MultiWallet.Api/Models/Wallet.cs:35 | a whole-cent debit and credit cancel exactly under the setter's rounding; a credit and debit of the same unrounded value move a whole-cent balance by at most a cent |
| EngineProperties.ExchangeRoundTripShortfall | MultiWallet.Api/Services/WalletTransactionService.cs:157-165 | with USD at 1 and EUR at 3, selling 1.00 USD gives 0.33 EUR, and buying 1.00 USD back then fails on funds, reporting the 0.33 EUR entry |
| EngineProperties.CentsArithmetic | MultiWallet.Api/Models/Wallet.cs:35 | sums and differences of whole-cent amounts are whole cents |
| EngineProperties.AdjustedWellFormed | MultiWallet.Api/Models/Wallet.cs:35 | changing an amount keeps unique codes and whole cents |
| EngineProperties.GetOrCreateWellFormed | MultiWallet.Api/Services/WalletTransactionService.cs:176-191 | GetOrCreate keeps unique codes and whole cents |
| EngineProperties.PlansKeepWellFormed | MultiWallet.Api/Services/WalletTransactionService.cs:22-174 | all four operations preserve the invariant: one entry per code, whole cents only |
| EngineProperties.CommittedChangesOnlyWallet | MultiWallet.Api/Repositories/FileRepositories/FileWalletRepository.cs:94-110 | a failed operation or failed save leaves the cache as it was; otherwise only the operated wallet's currency list changes |
| EngineProperties.TestRates | MultiWallet.Tests/WalletTransactionServiceTests.cs:255-256 | in the test table, USD and EUR are found and an unlisted code is not |
| EngineProperties.AddFundsScenario | MultiWallet.Tests/WalletTransactionServiceTests.cs:51-75 | 50 USD plus 25 gives 75 USD |
| EngineProperties.AddFundsNewScenario | MultiWallet.Tests/WalletTransactionServiceTests.cs:78-102 | 10 EUR into a wallet without EUR creates a 10 EUR entry |
| EngineProperties.WithdrawScenarios | MultiWallet.Tests/WalletTransactionServiceTests.cs:145-192 | 50 - 10 gives 40 USD; withdrawing 100 from 50 fails, reporting the untouched 50 |
| EngineProperties.ExchangeFromScenario | MultiWallet.Tests/WalletTransactionServiceTests.cs:263-289 | selling 40 of 100 USD at 4 into 50 EUR at 5 gives 60 USD and 82 EUR |
| EngineProperties.ExchangeFromNewScenario | MultiWallet.Tests/WalletTransactionServiceTests.cs:292-318 | the same sale into a wallet without EUR appends a 32 EUR entry |
| EngineProperties.ExchangeToScenario | MultiWallet.Tests/WalletTransactionServiceTests.cs:390-416 | buying 50 EUR costs 62.5 USD: 37.5 USD and 100 EUR remain |
| EngineProperties.ExchangeToNewScenario | MultiWallet.Tests/WalletTransactionServiceTests.cs:419-445 | buying 50 EUR into a wallet without EUR costs 62.5 USD: 37.5 USD remain and a new 50 EUR entry goes last |
| EngineProperties.NotEnoughFundsScenarios | MultiWallet.Tests/WalletTransactionServiceTests.cs:242-260 | with 50 USD, selling 100 USD fails on the amount and buying 50 EUR fails on its 62.5 USD cost |
| TransactionService.Raised | MultiWallet.Api/Services/WalletTransactionService.cs:29-70 | each engine error maps to its own exception, with the wallet id, the code or the balance it carries; a shortfall and a missing rate map to their own exception types and to nothing else |
| TransactionService.Thrown | MultiWallet.Api/Services/WalletTransactionService.cs:22-174 | a success passes the value through unchanged; every failure becomes an exception |
| TransactionService.RaisedLosesOnlySideAndEntry | MultiWallet.Api/Services/WalletTransactionService.cs:94-111 | two different errors raise the same exception only when both are a missing rate for the same code (source or target side is lost) or both are a shortfall on the same amount |
| TransactionService.CurrencyNotFoundNamesSide | MultiWallet.Api/Services/WalletTransactionService.cs:91-100 | in an exchange between two different codes, the code named in CurrencyNotFoundException tells which side's rate is missing |
| TransactionService.AddFundsAsync | MultiWallet.Api/Services/WalletTransactionService.cs:22-44 | returns the deposit's entry or throws the plan's exception; the cache follows `AddFundsPlan` |
| TransactionService.WithdrawFundsAsync | MultiWallet.Api/Services/WalletTransactionService.cs:46-78 | returns the withdrawal's entry or throws; the cache follows `WithdrawPlan` |
| TransactionService.ExchangeFromFundsAsync | MultiWallet.Api/Services/WalletTransactionService.cs:80-126 | returns both entries or throws; the cache follows `ExchangeFromPlan` |
| TransactionService.ExchangeToFundsAsync | MultiWallet.Api/Services/WalletTransactionService.cs:128-174 | returns both entries or throws; the cache follows `ExchangeToPlan` |
| WalletService.OperationResponse | MultiWallet.Api/Services/WalletOperationResponses/WithdrawFundsResponse.cs:7-38 | Success exactly on success, carrying the entry afterwards; only a missing table, a zero divisor and a failed save propagate as exceptions |
| WalletService.ExchangeResponse | MultiWallet.Api/Services/WalletOperationResponses/ExchangeFundsResponse.cs:11-48 | Success exactly on success, carrying both entries; only the same three failures propagate |
| WalletService.AddFundsResponses | MultiWallet.Api/Services/WalletService.cs:69-91 | each deposit response holds exactly in its own state: WalletNotFound, CurrencyDoesNotExist, Success; a missing table or a failed save throws; a deposit never reports a missing entry or a shortfall |
| WalletService.WithdrawResponses | MultiWallet.Api/Services/WalletService.cs:93-125 | each withdrawal response holds exactly in its own state, in checking order; NotEnoughFunds carries the untouched entry |
| WalletService.ExchangeResponses | MultiWallet.Api/Services/WalletService.cs:127-221 | both exchanges report WalletNotFound, SourceCurrencyDoesNotExist, TargetCurrencyDoesNotExist and SourceCurrencyNotInWallet in that order |
| WalletService.AddFundsAsync | MultiWallet.Api/Services/WalletService.cs:69-91 | the response is `OperationResponse` of the settled `AddFundsPlan`, and the cache follows the plan |
| WalletService.WithdrawFundsAsync | MultiWallet.Api/Services/WalletService.cs:93-125 | the response is `OperationResponse` of the settled `WithdrawPlan`, and the cache follows the plan |
| WalletService.ExchangeFromFundsAsync | MultiWallet.Api/Services/WalletService.cs:127-173 | the response is `ExchangeResponse` of the settled `ExchangeFromPlan`, and the cache follows the plan |
| WalletService.ExchangeToFundsAsync | MultiWallet.Api/Services/WalletService.cs:175-221 | the response is `ExchangeResponse` of the settled `ExchangeToPlan`, and the cache follows the plan |
| Management.CreatePlan | MultiWallet.Api/Services/WalletManagementService.cs:25-48 | creation fails (FirstOrDefault on the null table) exactly when there are codes to look up and no table is loaded; no codes give an empty wallet |
| Management.InitialCurrenciesEntries | MultiWallet.Api/Services/WalletManagementService.cs:27-48 | every created entry has amount 0, a requested code that the table knows, and that rate's name; no two entries share a code |
| Management.InitialCurrenciesHolds | MultiWallet.Api/Services/WalletManagementService.cs:29-40 | a code ends up in the wallet exactly when it was requested and the table knows it |
| Management.InitialCurrenciesOrder | MultiWallet.Api/Services/WalletManagementService.cs:27-48 | entries appear in the order in which their codes were first requested |
| Management.InitialCurrenciesWellFormed | MultiWallet.Api/Services/WalletManagementService.cs:42-47 | a created wallet starts with one entry per code and whole cents only, the invariant the operations keep |
| Management.RepeatedCodeExample | MultiWallet.Tests/WalletServiceTests.cs:64-84 | USD requested three times gives one USD entry |
| Management.DuplicateCodesExample | MultiWallet.Tests/WalletServiceTests.cs:64-84 | USD, USD, USD, EUR gives exactly a Dolar and a Euro entry, in that order, at 0 |
| Management.UnknownCodeExample | MultiWallet.Tests/WalletServiceTests.cs:87-102 | an unknown code alone gives an empty wallet; no codes need no rate table |
| Management.TestRatesLookup | MultiWallet.Tests/WalletServiceTests.cs:63-74 | the creation tests' rate table gives the Dolar rate for USD and the Euro rate for EUR, and no rate for any other code |
| Management.InitialCurrenciesSnoc | MultiWallet.Api/Services/WalletManagementService.cs:27-48 | the entries for one more requested code are those of the codes before it followed by one loop turn |
| Management.AddCurrency | MultiWallet.Api/Services/WalletManagementService.cs:42-47 | a fresh entry named after the rate, with its code and amount 0, is appended |
| Management.AddRequestedCurrency | MultiWallet.Api/Services/WalletManagementService.cs:29-47 | one loop turn: fails only without a table; otherwise performs `AddStep` (skip unknown, skip present, else append) |
| Management.AddInitialCurrencies | MultiWallet.Api/Services/WalletManagementService.cs:25-49 | the loop builds exactly `CreatePlan`'s entries, or fails exactly when `CreatePlan` does |
| Management.CreateWalletAsync | MultiWallet.Api/Services/WalletManagementService.cs:20-53 | on success, returns a wallet with the next id, the given name and `CreatePlan`'s entries, and the cache gains exactly that wallet; a failure throws and leaves the cache unchanged |
| Management.GetWalletsAsync | MultiWallet.Api/Services/WalletManagementService.cs:55-58 | fresh copies of every stored wallet, in order |
| Management.GetWalletAsync | MultiWallet.Api/Services/WalletManagementService.cs:60-63 | null exactly when no wallet has the id, otherwise a fresh copy of it |

## Left out

- The per-wallet lock (WalletLockProvider) and the repositories' semaphores
  are not modelled; each operation is one atomic step. This also leaves out
  the lock-timeout exception.
- File I/O and JSON are not modelled. Each file is a datatype the
  constructor receives. Each write is a boolean outcome: `persisted` for
  wallets, `written` for rates. The temporary-file swap in
  SaveWalletsDataAsync is part of that one step.
- The Entity Framework repositories, the rate fetcher that calls the
  central bank's API, the controllers, the middleware and logging are not
  part of this model.
- Request validation is not modelled: amounts of at least 0.01 and a source
  code different from the target code. Every operation accepts any amount.
- EngineProperties.ExchangeFromSuccess requires source != target, a case the
  request validation excludes. When source and target are the same, the
  model still gives the source's behaviour (the same entry is debited and
  then credited), but no lemma describes it.
- EngineProperties.ExchangeToSuccess requires source != target, for the same
  reason.
- EngineProperties.ExchangeRoundTrip requires source != target and that the
  way back succeeds. The way back can fail on funds, because the first
  exchange rounds its credit down: ExchangeRoundTripShortfall shows a case.
- Decimal's 28-digit precision and its overflow exception are not modelled.
  Amounts and rates are unbounded `real`s, so a conversion is exact before
  the setter rounds it.
- WalletRepository.FileWalletRepository.UpdateWallet: the source makes a
  shallow copy of the currency list, so afterwards the cache shares
  CurrencyData objects with the caller's wallet copy. The model stores the
  values, so this aliasing is not captured.
- ExchangeRates.FileExchangeRatesRepository.SaveData: a null list is not
  modelled. Its only caller passes a list it has just built.
- Response objects carry `CurrencyData` references in the source. In the
  model they carry the entries' values at the time of the response.
- A wallet's name, null in the source until it is assigned, is the empty
  string here.
- Null entries in either JSON file are not modelled: a rate entry and a
  wallet are always values here. In the source, a null rate entry makes a
  lookup throw `NullReferenceException`, which the rates repository turns
  into `ExchangeRatesRepositoryException`. A null wallet or a null currency
  list makes the wallet repository throw `NullReferenceException`.
- WalletRepository.CreateKeepsIdsAreIndices holds only for a cache whose ids
  equal positions. The constructor does not establish that, because a loaded
  file keeps its own ids. LoadedIdsCanRepeat shows a loaded cache for which
  CreateWallet hands out an id that is already in use.
