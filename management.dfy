/** WalletManagementService (Services/WalletManagementService.cs): creating a
    wallet with an initial list of currencies, and reading wallets back.
    WalletService's CreateWalletAsync, GetWalletsAsync and GetWalletAsync are
    the same code and are modelled here once. */
module Management {
  import opened Wrappers
  import opened Models
  import opened ExchangeRates
  import WalletRepository
  import Engine
  import EngineProperties

  /** The exceptions CreateWalletAsync lets through: FirstOrDefault over a
      missing rate table, and a failed save in the repository. */
  datatype CreateFailure = ArgumentNullException | WalletRepositoryException

  /** `Currencies.Any(c => c.Code == code)`. */
  ghost predicate Holds(cs: seq<Balance>, code: string) {
    exists k :: 0 <= k < |cs| && cs[k].code == code
  }

  /** One turn of the creation loop on the entries `cs` so far: an unknown
      code is skipped, a code already present is skipped, and otherwise an
      entry named after the rate, with its code and amount 0, is appended. */
  ghost function AddStep(cs: seq<Balance>, code: string, entries: seq<RateEntry>): seq<Balance> {
    match FirstRate(entries, code)
    case None => cs
    case Some(e) => if Holds(cs, code) then cs else cs + [Balance(e.currency, e.code, 0.0)]
  }

  /** The entries built from `codes`, one code after another, against the
      rate table `entries`. */
  ghost function InitialCurrencies(codes: seq<string>, entries: seq<RateEntry>): seq<Balance>
    decreases |codes|
  {
    if codes == [] then []
    else AddStep(InitialCurrencies(codes[..|codes| - 1], entries), codes[|codes| - 1], entries)
  }

  /** What CreateWalletAsync builds: no codes give an empty wallet without
      touching the rates; otherwise the rate table is needed. */
  ghost function CreatePlan(table: Option<seq<RateEntry>>, codes: seq<string>): (r: Result<seq<Balance>, CreateFailure>)
    ensures r.Failure? <==> |codes| > 0 && table.None?
    ensures r.Failure? ==> r.error == ArgumentNullException
    ensures |codes| == 0 ==> r == Success([])
  {
    if |codes| == 0 then Success([])
    else
      match table
      case None => Failure(ArgumentNullException)
      case Some(entries) => Success(InitialCurrencies(codes, entries))
  }

  /** The position of the first occurrence of `code` in a list of codes. */
  function IsCode(code: string): string -> bool {
    (c: string) => c == code
  }

  ghost function FirstMention(codes: seq<string>, code: string): Option<nat> {
    FirstIndex(codes, IsCode(code))
  }

  /** Every created entry has amount 0, a code from the list that the rate
      table knows, and the name the table gives that code; no two entries
      share a code. */
  lemma {:induction false} InitialCurrenciesEntries(codes: seq<string>, entries: seq<RateEntry>)
    ensures var cs := InitialCurrencies(codes, entries);
      && Engine.UniqueCodes(cs)
      && forall k :: 0 <= k < |cs| ==>
           && cs[k].amount == 0.0
           && cs[k].code in codes
           && FirstRate(entries, cs[k].code).Some?
           && cs[k].name == FirstRate(entries, cs[k].code).value.currency
    decreases |codes|
  {
    if codes != [] {
      var init := codes[..|codes| - 1];
      InitialCurrenciesEntries(init, entries);
      var before := InitialCurrencies(init, entries);
      var code := codes[|codes| - 1];
      assert forall c :: c in init ==> c in codes;
      if FirstRate(entries, code).Some? && !Holds(before, code) {
        var cs := InitialCurrencies(codes, entries);
        assert cs == before + [Balance(FirstRate(entries, code).value.currency, code, 0.0)];
        assert forall k :: 0 <= k < |before| ==> cs[k] == before[k];
      }
    }
  }

  /** A code ends up in the wallet exactly when it is in the list and the rate
      table knows it: unknown codes are skipped, known ones are never lost. */
  lemma {:induction false} InitialCurrenciesHolds(codes: seq<string>, entries: seq<RateEntry>, code: string)
    ensures Holds(InitialCurrencies(codes, entries), code) <==> code in codes && FirstRate(entries, code).Some?
    decreases |codes|
  {
    var cs := InitialCurrencies(codes, entries);
    InitialCurrenciesEntries(codes, entries);
    if codes != [] {
      var init := codes[..|codes| - 1];
      var before := InitialCurrencies(init, entries);
      InitialCurrenciesHolds(init, entries, code);
      assert codes == init + [codes[|codes| - 1]];
      if Holds(before, code) {
        var k :| 0 <= k < |before| && before[k].code == code;
        assert cs[k] == before[k];
      }
      if code in codes && FirstRate(entries, code).Some? && code == codes[|codes| - 1] && !Holds(before, code) {
        assert cs[|cs| - 1].code == code;
      }
    }
  }

  /** The entries come in the order in which their codes are first listed. */
  lemma {:induction false} InitialCurrenciesOrder(codes: seq<string>, entries: seq<RateEntry>)
    ensures var cs := InitialCurrencies(codes, entries);
      forall a, b :: 0 <= a < b < |cs| ==>
        && FirstMention(codes, cs[a].code).Some?
        && FirstMention(codes, cs[b].code).Some?
        && FirstMention(codes, cs[a].code).value < FirstMention(codes, cs[b].code).value
    decreases |codes|
  {
    var cs := InitialCurrencies(codes, entries);
    InitialCurrenciesEntries(codes, entries);
    if codes != [] {
      var init := codes[..|codes| - 1];
      var last := codes[|codes| - 1];
      var before := InitialCurrencies(init, entries);
      InitialCurrenciesOrder(init, entries);
      InitialCurrenciesEntries(init, entries);
      assert codes == init + [last];
      forall c | c in init
        ensures FirstMention(codes, c) == FirstMention(init, c)
        ensures FirstMention(init, c).Some?
      {
        FirstIndexAppend(init, last, IsCode(c));
        var k :| 0 <= k < |init| && init[k] == c;
        assert IsCode(c)(init[k]);
      }
      if cs != before {
        // `last` was appended, so it is known and not yet in the wallet
        InitialCurrenciesHolds(init, entries, last);
        assert last !in init;
        FirstIndexAppend(init, last, IsCode(last));
        assert FirstMention(codes, last) == Some(|init|);
        forall a | 0 <= a < |before|
          ensures FirstMention(codes, before[a].code).value < |init|
        {
          assert before[a].code in init;
        }
        assert forall k :: 0 <= k < |before| ==> cs[k] == before[k];
      }
    }
  }

  /** A created wallet starts in the shape every balance operation keeps:
      one entry per code, whole cents only. */
  lemma InitialCurrenciesWellFormed(codes: seq<string>, entries: seq<RateEntry>)
    ensures EngineProperties.WellFormedEntries(InitialCurrencies(codes, entries))
  {
    InitialCurrenciesEntries(codes, entries);
    assert IsCents(0.0);
  }

  /** The rate table of the creation examples: Dolar (USD) and Euro (EUR). */
  const TestRates: seq<RateEntry> := [RateEntry("Dolar", "USD", 4.0), RateEntry("Euro", "EUR", 4.5)]

  /** The rate table knows USD and EUR, and nothing else. */
  lemma TestRatesLookup(code: string)
    ensures FirstRate(TestRates, "USD") == Some(TestRates[0])
    ensures FirstRate(TestRates, "EUR") == Some(TestRates[1])
    ensures code != "USD" && code != "EUR" ==> FirstRate(TestRates, code) == None
  {
    FirstIndexOf(TestRates, RateCodeIs("USD"), 0);
    FirstIndexOf(TestRates, RateCodeIs("EUR"), 1);
  }

  /** InitialCurrencies unfolded at one more code. */
  lemma InitialCurrenciesSnoc(codes: seq<string>, code: string, entries: seq<RateEntry>)
    ensures InitialCurrencies(codes + [code], entries) == AddStep(InitialCurrencies(codes, entries), code, entries)
  {
    assert (codes + [code])[..|codes|] == codes;
  }

  /** Repeating a known code adds it once. */
  lemma RepeatedCodeExample()
    ensures InitialCurrencies(["USD", "USD", "USD"], TestRates) == [Balance("Dolar", "USD", 0.0)]
  {
    TestRatesLookup("");
    var one := [Balance("Dolar", "USD", 0.0)];
    assert AddStep([], "USD", TestRates) == one;
    assert AddStep(one, "USD", TestRates) == one by {
      assert one[0].code == "USD";
    }
    InitialCurrenciesSnoc([], "USD", TestRates);
    assert [] + ["USD"] == ["USD"];
    InitialCurrenciesSnoc(["USD"], "USD", TestRates);
    assert ["USD"] + ["USD"] == ["USD", "USD"];
    InitialCurrenciesSnoc(["USD", "USD"], "USD", TestRates);
    assert ["USD", "USD"] + ["USD"] == ["USD", "USD", "USD"];
  }

  /** USD, USD, USD, EUR gives one USD and one EUR entry: the repeated USD
      codes are skipped. */
  lemma DuplicateCodesExample()
    ensures InitialCurrencies(["USD", "USD", "USD", "EUR"], TestRates)
            == [Balance("Dolar", "USD", 0.0), Balance("Euro", "EUR", 0.0)]
  {
    TestRatesLookup("");
    RepeatedCodeExample();
    var one := [Balance("Dolar", "USD", 0.0)];
    assert AddStep(one, "EUR", TestRates) == one + [Balance("Euro", "EUR", 0.0)] by {
      assert !Holds(one, "EUR");
    }
    InitialCurrenciesSnoc(["USD", "USD", "USD"], "EUR", TestRates);
    assert ["USD", "USD", "USD"] + ["EUR"] == ["USD", "USD", "USD", "EUR"];
  }

  /** An unknown code alone gives an empty wallet, and no codes at all need
      no rate table. */
  lemma UnknownCodeExample()
    ensures InitialCurrencies(["ABC"], TestRates) == []
    ensures CreatePlan(None, []) == Success([])
  {
    TestRatesLookup("ABC");
    assert ["ABC"][..0] == [];
  }

  /** `newWallet.Currencies.Add(new CurrencyData { Name = …, Code = …,
      Amount = 0 })`: one fresh entry at the end; the setter rounds 0 to 0. */
  method AddCurrency(w: Wallet, rate: RateEntry)
    requires w.Valid()
    modifies w`currencies, w`Repr
    ensures w.Valid() && fresh(w.Repr - old(w.Repr))
    ensures w.Entries() == old(w.Entries()) + [Balance(rate.currency, rate.code, 0.0)]
  {
    var c := new CurrencyData(rate.currency, rate.code);
    c.SetAmount(0.0);
    Round2OfCents(0.0);
    w.currencies := w.currencies + [c];
    w.Repr := w.Repr + {c};
    assert w.Entries() == old(w.Entries()) + [c.Value()];
  }

  /** The body of the creation loop for one requested code. It fails only
      when there is no rate table to look the code up in. */
  method AddRequestedCurrency(w: Wallet, rates: FileExchangeRatesRepository, code: string) returns (ok: bool)
    requires w.Valid()
    modifies w`currencies, w`Repr
    ensures w.Valid() && fresh(w.Repr - old(w.Repr))
    ensures ok <==> rates.table.Some?
    ensures ok ==> w.Entries() == AddStep(old(w.Entries()), code, rates.table.value)
    ensures !ok ==> w.Entries() == old(w.Entries())
  {
    var currencyData := rates.GetCurrencyData(code);
    if currencyData.NoTable? {
      return false;
    }
    if currencyData.Found? {
      var present := FirstOrDefault(w.Entries(), Engine.HoldsCode(code));
      if present.Some? {
        assert w.Entries()[present.value].code == code;
      } else {
        assert !Holds(w.Entries(), code) by {
          assert forall k :: 0 <= k < |w.Entries()| ==> !Engine.HoldsCode(code)(w.Entries()[k]);
        }
        AddCurrency(w, currencyData.entry);
      }
    }
    return true;
  }

  /** The loop over the requested codes. It fails only when there is no rate
      table to look codes up in. */
  method AddInitialCurrencies(w: Wallet, rates: FileExchangeRatesRepository, currencyCodes: seq<string>)
    returns (ok: bool)
    requires w.Valid() && w.currencies == []
    modifies w`currencies, w`Repr
    ensures w.Valid() && fresh(w.Repr - old(w.Repr))
    ensures ok <==> CreatePlan(rates.table, currencyCodes).Success?
    ensures ok ==> w.Entries() == CreatePlan(rates.table, currencyCodes).value
  {
    for i := 0 to |currencyCodes|
      invariant w.Valid() && fresh(w.Repr - old(w.Repr))
      invariant i > 0 ==> rates.table.Some?
      invariant rates.table.Some? ==> w.Entries() == InitialCurrencies(currencyCodes[..i], rates.table.value)
      invariant rates.table.None? ==> w.Entries() == []
    {
      assert currencyCodes[..i + 1][..i] == currencyCodes[..i];
      ok := AddRequestedCurrency(w, rates, currencyCodes[i]);
      if !ok {
        return false;
      }
    }
    assert currencyCodes[..|currencyCodes|] == currencyCodes;
    return true;
  }

  /** CreateWalletAsync: a wallet with the given name and the entries of
      CreatePlan is stored under the next id and returned; the exceptions
      leave the stored wallets as they were. */
  method CreateWalletAsync(repo: WalletRepository.FileWalletRepository, rates: FileExchangeRatesRepository,
                           walletName: string, currencyCodes: seq<string>, persisted: bool)
    returns (r: Result<Wallet, CreateFailure>)
    requires repo.Valid()
    modifies repo
    ensures repo.Valid()
    ensures match CreatePlan(rates.table, currencyCodes)
      case Failure(e) => r == Failure(e) && repo.wallets == old(repo.wallets)
      case Success(cs) =>
        var rec := WalletRecord(old(|repo.wallets|), walletName, cs);
        if persisted then
          && r.Success? && fresh(r.value.Repr) && r.value.Valid() && r.value.Value() == rec
          && repo.wallets == old(repo.wallets) + [rec]
        else
          r == Failure(WalletRepositoryException) && repo.wallets == old(repo.wallets)
  {
    var w := new Wallet();
    w.name := walletName;
    var ok := AddInitialCurrencies(w, rates, currencyCodes);
    if !ok {
      return Failure(ArgumentNullException);
    }
    var saved := repo.CreateWallet(w, persisted);
    if saved.Failure? {
      return Failure(WalletRepositoryException);
    }
    r := Success(w);
  }

  /** GetWalletsAsync: a fresh copy of every stored wallet, in order. */
  method GetWalletsAsync(repo: WalletRepository.FileWalletRepository) returns (ws: seq<Wallet>)
    requires repo.Valid()
    ensures |ws| == |repo.wallets|
    ensures forall k :: 0 <= k < |ws| ==> fresh(ws[k].Repr) && ws[k].Valid() && ws[k].Value() == repo.wallets[k]
  {
    ws := repo.GetWallets();
  }

  /** GetWalletAsync: a fresh copy of the wallet with that id, or null. */
  method GetWalletAsync(repo: WalletRepository.FileWalletRepository, id: int) returns (w: Wallet?)
    requires repo.Valid()
    ensures w == null <==> WalletRepository.StoredWallet(repo.wallets, id).None?
    ensures w != null ==> fresh(w.Repr) && w.Valid() && Some(w.Value()) == WalletRepository.StoredWallet(repo.wallets, id)
  {
    w := repo.GetWallet(id);
  }
}
