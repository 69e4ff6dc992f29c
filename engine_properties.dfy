/** What the four balance operations promise, stated over their plans: the
    order of the checks, what each error carries, what a success does to the
    wallet's entries, that entries keep unique codes and whole cents, and the
    scenarios of MultiWallet.Tests/WalletTransactionServiceTests.cs. */
module EngineProperties {
  import opened Wrappers
  import opened Models
  import opened ExchangeRates
  import opened WalletRepository
  import opened Engine

  /** Changing an amount moves no code: every code is found where it was. */
  lemma AdjustedKeepsIndex(cs: seq<Balance>, k: nat, delta: real, code: string)
    requires k < |cs|
    ensures IndexOfCode(Adjusted(cs, k, delta), code) == IndexOfCode(cs, code)
  {
    FirstIndexCongruent(Adjusted(cs, k, delta), HoldsCode(code), cs, HoldsCode(code));
  }

  /** The position GetOrCreate hands back is where a later lookup of the
      rate's code finds it. */
  lemma GetOrCreateIndex(cs: seq<Balance>, rate: RateEntry)
    ensures GetOrCreate(cs, rate).1 < |GetOrCreate(cs, rate).0|
    ensures IndexOfCode(GetOrCreate(cs, rate).0, rate.code) == Some(GetOrCreate(cs, rate).1)
  {
    FirstIndexAppend(cs, Balance(rate.currency, rate.code, 0.0), HoldsCode(rate.code));
  }

  /** AddFundsAsync: a missing wallet is reported before any lookup, then a
      missing rate; otherwise the entry for the code, found or appended at
      the end with the rate's name, ends at round2(old + amount) and is the
      reply, and no other entry changes. */
  lemma AddFundsResult(wallet: Option<WalletRecord>, table: Option<seq<RateEntry>>, walletId: int,
                       code: string, amount: real)
    ensures var plan := AddFundsPlan(wallet, table, walletId, code, amount);
      && (wallet.None? ==> plan == Failure(WalletNotFound(walletId)))
      && (wallet.Some? && table.None? ==> plan == Failure(RatesUnavailable))
      && (wallet.Some? && LookupIn(table, code).NotListed? ==> plan == Failure(CurrencyNotFound(code, Only)))
      && (plan.Success? <==> wallet.Some? && LookupIn(table, code).Found?)
  {
  }

  /** A successful AddFundsAsync on an entry already in the wallet. */
  lemma {:induction false} AddFundsExisting(wallet: WalletRecord, table: Option<seq<RateEntry>>, walletId: int,
                                            code: string, amount: real)
    requires LookupIn(table, code).Found? && IndexOfCode(wallet.currencies, code).Some?
    ensures var cs, i := wallet.currencies, IndexOfCode(wallet.currencies, code).value;
      var plan := AddFundsPlan(Some(wallet), table, walletId, code, amount);
      && plan.Success?
      && |plan.value.currencies| == |cs|
      && plan.value.reply == cs[i].(amount := Round2(cs[i].amount + amount))
      && plan.value.currencies[i] == plan.value.reply
      && IndexOfCode(plan.value.currencies, code) == Some(i)
      && (forall k :: 0 <= k < |cs| && k != i ==> plan.value.currencies[k] == cs[k])
  {
    var cs, i := wallet.currencies, IndexOfCode(wallet.currencies, code).value;
    LookupFindsCode(table, code);
    AdjustedKeepsIndex(cs, i, amount, code);
  }

  /** A successful AddFundsAsync on a code the wallet does not hold yet: a
      new entry named after the rate goes last, holding round2(amount). */
  lemma {:induction false} AddFundsNew(wallet: WalletRecord, table: Option<seq<RateEntry>>, walletId: int,
                                       code: string, amount: real)
    requires LookupIn(table, code).Found? && IndexOfCode(wallet.currencies, code).None?
    ensures var cs, rate := wallet.currencies, LookupIn(table, code).entry;
      var plan := AddFundsPlan(Some(wallet), table, walletId, code, amount);
      && plan.Success?
      && plan.value.reply == Balance(rate.currency, code, Round2(amount))
      && plan.value.currencies == cs + [plan.value.reply]
      && IndexOfCode(plan.value.currencies, code) == Some(|cs|)
  {
    var cs, rate := wallet.currencies, LookupIn(table, code).entry;
    LookupFindsCode(table, code);
    GetOrCreateIndex(cs, rate);
    var placed := GetOrCreate(cs, rate);
    AdjustedKeepsIndex(placed.0, placed.1, amount, code);
    assert Adjusted(placed.0, placed.1, amount) == cs + [Balance(rate.currency, code, Round2(amount))];
  }

  /** WithdrawFundsAsync: checks in the order wallet, rate, entry, funds;
      the funds error carries the entry unchanged; a withdrawal of exactly
      the balance is allowed. */
  lemma WithdrawResult(wallet: Option<WalletRecord>, table: Option<seq<RateEntry>>, walletId: int,
                       code: string, amount: real)
    ensures var plan := WithdrawPlan(wallet, table, walletId, code, amount);
      && (wallet.None? ==> plan == Failure(WalletNotFound(walletId)))
      && (wallet.Some? && table.None? ==> plan == Failure(RatesUnavailable))
      && (wallet.Some? && LookupIn(table, code).NotListed? ==> plan == Failure(CurrencyNotFound(code, Only)))
      && (wallet.Some? && LookupIn(table, code).Found? && IndexOfCode(wallet.value.currencies, code).None? ==>
            plan == Failure(CurrencyNotInWallet(code)))
      && (wallet.Some? && LookupIn(table, code).Found? && IndexOfCode(wallet.value.currencies, code).Some? ==>
            var b := wallet.value.currencies[IndexOfCode(wallet.value.currencies, code).value];
            (plan.Success? <==> b.amount >= amount) && (plan.Failure? ==> plan.error == NotEnoughFunds(b)))
  {
  }

  /** A successful WithdrawFundsAsync: the entry ends at round2(old -
      amount), which is never negative since old >= amount was checked, and
      is zero when the whole balance is taken; nothing else changes. */
  lemma {:induction false} WithdrawSuccess(wallet: WalletRecord, table: Option<seq<RateEntry>>, walletId: int,
                                           code: string, amount: real)
    requires WithdrawPlan(Some(wallet), table, walletId, code, amount).Success?
    ensures IndexOfCode(wallet.currencies, code).Some?
    ensures var cs, i := wallet.currencies, IndexOfCode(wallet.currencies, code).value;
      var eff := WithdrawPlan(Some(wallet), table, walletId, code, amount).value;
      && cs[i].amount >= amount
      && |eff.currencies| == |cs|
      && eff.reply == cs[i].(amount := Round2(cs[i].amount - amount))
      && eff.currencies[i] == eff.reply
      && eff.reply.amount >= 0.0
      && (cs[i].amount == amount ==> eff.reply.amount == 0.0)
      && IndexOfCode(eff.currencies, code) == Some(i)
      && (forall k :: 0 <= k < |cs| && k != i ==> eff.currencies[k] == cs[k])
  {
    var cs, i := wallet.currencies, IndexOfCode(wallet.currencies, code).value;
    Round2Sign(cs[i].amount - amount);
    AdjustedKeepsIndex(cs, i, -amount, code);
  }

  /** Both exchanges: wallet, then the source rate, then the target rate,
      then the source entry. */
  lemma ExchangeChecksInOrder(wallet: Option<WalletRecord>, table: Option<seq<RateEntry>>, walletId: int,
                              source: string, target: string, amount: real)
    ensures var from, to := ExchangeFromPlan(wallet, table, walletId, source, target, amount),
                            ExchangeToPlan(wallet, table, walletId, source, target, amount);
      && (wallet.None? ==> from == to == Failure(WalletNotFound(walletId)))
      && (wallet.Some? && table.None? ==> from == to == Failure(RatesUnavailable))
      && (wallet.Some? && LookupIn(table, source).NotListed? ==>
            from == to == Failure(CurrencyNotFound(source, Source)))
      && (wallet.Some? && LookupIn(table, source).Found? && LookupIn(table, target).NotListed? ==>
            from == to == Failure(CurrencyNotFound(target, Target)))
      && (wallet.Some? && LookupIn(table, source).Found? && LookupIn(table, target).Found? &&
          IndexOfCode(wallet.value.currencies, source).None? ==>
            from == to == Failure(CurrencyNotInWallet(source)))
  {
  }

  /** ExchangeFromFundsAsync compares the balance with `amount` itself, in
      source units and whatever the rates: the funds error comes before any
      division, and carries the source entry unchanged. */
  lemma ExchangeFromFunds(wallet: WalletRecord, table: Option<seq<RateEntry>>, walletId: int,
                          source: string, target: string, amount: real)
    requires LookupIn(table, source).Found? && LookupIn(table, target).Found?
    requires IndexOfCode(wallet.currencies, source).Some?
    ensures var b := wallet.currencies[IndexOfCode(wallet.currencies, source).value];
      var plan := ExchangeFromPlan(Some(wallet), table, walletId, source, target, amount);
      && (b.amount < amount ==> plan == Failure(NotEnoughFunds(b)))
      && (b.amount >= amount && LookupIn(table, target).entry.mid == 0.0 ==> plan == Failure(DivideByZero))
      && (plan.Success? <==> b.amount >= amount && LookupIn(table, target).entry.mid != 0.0)
  {
  }

  /** ExchangeToFundsAsync compares the balance with the source amount the
      target amount costs, amount * targetMid / sourceMid, not with the
      target amount; a source rate of zero fails before that. */
  lemma ExchangeToFunds(wallet: WalletRecord, table: Option<seq<RateEntry>>, walletId: int,
                        source: string, target: string, amount: real)
    requires LookupIn(table, source).Found? && LookupIn(table, target).Found?
    requires IndexOfCode(wallet.currencies, source).Some?
    ensures var b := wallet.currencies[IndexOfCode(wallet.currencies, source).value];
      var sMid, tMid := LookupIn(table, source).entry.mid, LookupIn(table, target).entry.mid;
      var plan := ExchangeToPlan(Some(wallet), table, walletId, source, target, amount);
      && (sMid == 0.0 ==> plan == Failure(DivideByZero))
      && (sMid != 0.0 && b.amount < Convert(amount, tMid, sMid) ==> plan == Failure(NotEnoughFunds(b)))
      && (plan.Success? <==> sMid != 0.0 && b.amount >= Convert(amount, tMid, sMid))
  {
  }

  /** GetOrCreate keeps every existing entry at its position, and the
      entry it points at holds the wallet's balance of the rate's code. */
  lemma GetOrCreateKeepsEntries(cs: seq<Balance>, rate: RateEntry)
    ensures |GetOrCreate(cs, rate).0| >= |cs|
    ensures forall k :: 0 <= k < |cs| ==> GetOrCreate(cs, rate).0[k] == cs[k]
    ensures var placed := GetOrCreate(cs, rate);
      placed.1 < |placed.0| && placed.0[placed.1].amount == BalanceOf(cs, rate.code)
      && placed.0[placed.1].code == rate.code
  {
  }

  /** Transfer between two different positions: the first is debited, the
      second credited, each rounded to cents, nothing else changes, and every
      code is still found where it was. */
  lemma TransferEntries(ps: seq<Balance>, i: nat, debit: real, j: nat, credit: real)
    requires i < |ps| && j < |ps| && i != j
    ensures var eff := Transfer(ps, i, debit, j, credit);
      && |eff.currencies| == |ps|
      && eff.reply.0 == ps[i].(amount := Round2(ps[i].amount - debit))
      && eff.reply.1 == ps[j].(amount := Round2(ps[j].amount + credit))
      && eff.currencies[i] == eff.reply.0 && eff.currencies[j] == eff.reply.1
      && (forall k :: 0 <= k < |ps| && k != i && k != j ==> eff.currencies[k] == ps[k])
    ensures forall code :: IndexOfCode(Transfer(ps, i, debit, j, credit).currencies, code) == IndexOfCode(ps, code)
  {
    forall code
      ensures IndexOfCode(Transfer(ps, i, debit, j, credit).currencies, code) == IndexOfCode(ps, code)
    {
      AdjustedKeepsIndex(ps, i, -debit, code);
      AdjustedKeepsIndex(Adjusted(ps, i, -debit), j, credit, code);
    }
  }

  /** Transfer after GetOrCreate, between two different codes: the source
      entry is debited, the target entry (appended at zero if missing) is
      credited with the wallet's balance of the target as the starting
      point. */
  lemma {:induction false} TransferBetween(cs: seq<Balance>, source: string, rate: RateEntry, debit: real,
                                           credit: real)
    requires IndexOfCode(cs, source).Some? && source != rate.code
    ensures var i, placed := IndexOfCode(cs, source).value, GetOrCreate(cs, rate);
      var eff := Transfer(placed.0, i, debit, placed.1, credit);
      && eff.reply.0 == cs[i].(amount := Round2(cs[i].amount - debit))
      && eff.reply.1.code == rate.code
      && eff.reply.1.amount == Round2(BalanceOf(cs, rate.code) + credit)
      && eff.currencies[i] == eff.reply.0
      && IndexOfCode(eff.currencies, source) == Some(i)
      && IndexOfCode(eff.currencies, rate.code) == Some(placed.1)
      && eff.currencies[placed.1] == eff.reply.1
      && |eff.currencies| == |cs| + (if IndexOfCode(cs, rate.code).None? then 1 else 0)
      && (IndexOfCode(cs, rate.code).None? ==> placed.1 == |cs|)
      && (forall k :: 0 <= k < |cs| && k != i && Some(k) != IndexOfCode(cs, rate.code) ==>
            eff.currencies[k] == cs[k])
  {
    var i, placed := IndexOfCode(cs, source).value, GetOrCreate(cs, rate);
    GetOrCreateIndex(cs, rate);
    GetOrCreateKeepsEntries(cs, rate);
    FirstIndexOf(placed.0, HoldsCode(source), i);
    TransferEntries(placed.0, i, debit, placed.1, credit);
  }

  /** A successful ExchangeFromFundsAsync between two codes: the source
      entry ends at round2(old - amount), the target entry at round2(old +
      amount * sourceMid / targetMid); both are the reply. The source stays
      non-negative, a missing target entry is appended last, and no other
      entry changes. */
  lemma ExchangeFromSuccess(wallet: WalletRecord, table: Option<seq<RateEntry>>, walletId: int,
                            source: string, target: string, amount: real)
    requires ExchangeFromPlan(Some(wallet), table, walletId, source, target, amount).Success?
    requires source != target
    ensures IndexOfCode(wallet.currencies, source).Some? && LookupIn(table, source).Found?
    ensures LookupIn(table, target).Found? && LookupIn(table, target).entry.mid != 0.0
    ensures var cs, i := wallet.currencies, IndexOfCode(wallet.currencies, source).value;
      var sMid, tMid := LookupIn(table, source).entry.mid, LookupIn(table, target).entry.mid;
      var eff := ExchangeFromPlan(Some(wallet), table, walletId, source, target, amount).value;
      && cs[i].amount >= amount
      && eff.reply.0 == cs[i].(amount := Round2(cs[i].amount - amount))
      && eff.reply.1.code == target
      && eff.reply.1.amount == Round2(BalanceOf(cs, target) + Convert(amount, sMid, tMid))
      && IndexOfCode(eff.currencies, source) == Some(i)
      && eff.currencies[i] == eff.reply.0
      && eff.reply.0.amount >= 0.0
      && IndexOfCode(eff.currencies, target).Some?
      && eff.currencies[IndexOfCode(eff.currencies, target).value] == eff.reply.1
      && |eff.currencies| == |cs| + (if IndexOfCode(cs, target).None? then 1 else 0)
      && (IndexOfCode(cs, target).None? ==> IndexOfCode(eff.currencies, target) == Some(|cs|))
      && (forall k :: 0 <= k < |cs| && k != i && Some(k) != IndexOfCode(cs, target) ==>
            eff.currencies[k] == cs[k])
  {
    var rate := LookupIn(table, target).entry;
    LookupFindsCode(table, target);
    Round2Sign(wallet.currencies[IndexOfCode(wallet.currencies, source).value].amount - amount);
    TransferBetween(wallet.currencies, source, rate, amount,
                    Convert(amount, LookupIn(table, source).entry.mid, rate.mid));
  }

  /** A successful ExchangeToFundsAsync between two codes: the source entry
      ends at round2(old - required) with required = amount * targetMid /
      sourceMid, the target entry at round2(old + amount). The source stays
      non-negative, a missing target entry is appended last, and no other
      entry changes. */
  lemma ExchangeToSuccess(wallet: WalletRecord, table: Option<seq<RateEntry>>, walletId: int,
                          source: string, target: string, amount: real)
    requires ExchangeToPlan(Some(wallet), table, walletId, source, target, amount).Success?
    requires source != target
    ensures IndexOfCode(wallet.currencies, source).Some? && LookupIn(table, source).Found?
    ensures LookupIn(table, target).Found? && LookupIn(table, source).entry.mid != 0.0
    ensures var cs, i := wallet.currencies, IndexOfCode(wallet.currencies, source).value;
      var sMid, tMid := LookupIn(table, source).entry.mid, LookupIn(table, target).entry.mid;
      var required := Convert(amount, tMid, sMid);
      var eff := ExchangeToPlan(Some(wallet), table, walletId, source, target, amount).value;
      && cs[i].amount >= required
      && eff.reply.0 == cs[i].(amount := Round2(cs[i].amount - required))
      && eff.reply.1.code == target
      && eff.reply.1.amount == Round2(BalanceOf(cs, target) + amount)
      && IndexOfCode(eff.currencies, source) == Some(i)
      && eff.currencies[i] == eff.reply.0
      && eff.reply.0.amount >= 0.0
      && IndexOfCode(eff.currencies, target).Some?
      && eff.currencies[IndexOfCode(eff.currencies, target).value] == eff.reply.1
      && |eff.currencies| == |cs| + (if IndexOfCode(cs, target).None? then 1 else 0)
      && (IndexOfCode(cs, target).None? ==> IndexOfCode(eff.currencies, target) == Some(|cs|))
      && (forall k :: 0 <= k < |cs| && k != i && Some(k) != IndexOfCode(cs, target) ==>
            eff.currencies[k] == cs[k])
  {
    var rate := LookupIn(table, target).entry;
    var required := Convert(amount, rate.mid, LookupIn(table, source).entry.mid);
    LookupFindsCode(table, target);
    Round2Sign(wallet.currencies[IndexOfCode(wallet.currencies, source).value].amount - required);
    TransferBetween(wallet.currencies, source, rate, required, amount);
  }

  /** Whole cents stay whole cents under addition and subtraction. */
  lemma CentsArithmetic(x: real, y: real)
    requires IsCents(x) && IsCents(y)
    ensures IsCents(x + y) && IsCents(x - y)
  {
    var n, m := (x * 100.0).Floor, (y * 100.0).Floor;
    assert (x + y) * 100.0 == x * 100.0 + y * 100.0 == n as real + m as real;
    assert (x - y) * 100.0 == x * 100.0 - y * 100.0 == n as real - m as real;
    assert ((n + m) as real).Floor == n + m;
    assert ((n - m) as real).Floor == n - m;
  }

  /** Selling `amount` of source for target and then buying the same
      `amount` of source back with target: the way back costs exactly the
      unrounded credit of the way there. When the way back goes through, on a
      wallet of whole cents and a whole-cent amount, the source balance is
      restored exactly and the target balance ends within one cent of where
      it started; the list keeps the length the way there gave it. */
  lemma {:induction false} ExchangeRoundTrip(wallet: WalletRecord, table: Option<seq<RateEntry>>, walletId: int,
                                             source: string, target: string, amount: real)
    requires source != target
    requires WellFormedEntries(wallet.currencies) && IsCents(amount)
    requires ExchangeFromPlan(Some(wallet), table, walletId, source, target, amount).Success?
    requires var there := ExchangeFromPlan(Some(wallet), table, walletId, source, target, amount).value.currencies;
      ExchangeToPlan(Some(wallet.(currencies := there)), table, walletId, target, source, amount).Success?
    ensures var cs := wallet.currencies;
      var there := ExchangeFromPlan(Some(wallet), table, walletId, source, target, amount).value.currencies;
      var back := ExchangeToPlan(Some(wallet.(currencies := there)), table, walletId, target, source, amount)
                  .value.currencies;
      && |back| == |there|
      && BalanceOf(back, source) == BalanceOf(cs, source)
      && -0.01 <= BalanceOf(back, target) - BalanceOf(cs, target) <= 0.01
  {
    var cs := wallet.currencies;
    var there := ExchangeFromPlan(Some(wallet), table, walletId, source, target, amount).value.currencies;
    var x := Convert(amount, LookupIn(table, source).entry.mid, LookupIn(table, target).entry.mid);
    ExchangeFromBalances(wallet, table, walletId, source, target, amount);
    ExchangeToBalances(wallet.(currencies := there), table, walletId, target, source, amount);
    RoundTripAmounts(BalanceOf(cs, source), BalanceOf(cs, target), amount, x);
  }

  /** A successful exchange-from, in balances: the source balance drops by
      the amount and the target balance grows by its conversion, each
      rounded to cents. */
  lemma ExchangeFromBalances(wallet: WalletRecord, table: Option<seq<RateEntry>>, walletId: int,
                             source: string, target: string, amount: real)
    requires source != target
    requires ExchangeFromPlan(Some(wallet), table, walletId, source, target, amount).Success?
    ensures LookupIn(table, source).Found? && LookupIn(table, target).Found? && LookupIn(table, target).entry.mid != 0.0
    ensures var cs, eff := wallet.currencies, ExchangeFromPlan(Some(wallet), table, walletId, source, target, amount).value;
      var x := Convert(amount, LookupIn(table, source).entry.mid, LookupIn(table, target).entry.mid);
      && |eff.currencies| >= |cs|
      && BalanceOf(eff.currencies, source) == Round2(BalanceOf(cs, source) - amount)
      && BalanceOf(eff.currencies, target) == Round2(BalanceOf(cs, target) + x)
  {
    ExchangeFromSuccess(wallet, table, walletId, source, target, amount);
  }

  /** A successful exchange-to, in balances: the target balance grows by the
      amount and the source balance drops by what it costs, each rounded to
      cents; the list grows only when the target was missing. */
  lemma ExchangeToBalances(wallet: WalletRecord, table: Option<seq<RateEntry>>, walletId: int,
                           source: string, target: string, amount: real)
    requires source != target
    requires ExchangeToPlan(Some(wallet), table, walletId, source, target, amount).Success?
    ensures LookupIn(table, source).Found? && LookupIn(table, target).Found? && LookupIn(table, source).entry.mid != 0.0
    ensures var cs, eff := wallet.currencies, ExchangeToPlan(Some(wallet), table, walletId, source, target, amount).value;
      var required := Convert(amount, LookupIn(table, target).entry.mid, LookupIn(table, source).entry.mid);
      && |eff.currencies| == |cs| + (if IndexOfCode(cs, target).None? then 1 else 0)
      && BalanceOf(eff.currencies, source) == Round2(BalanceOf(cs, source) - required)
      && BalanceOf(eff.currencies, target) == Round2(BalanceOf(cs, target) + amount)
  {
    ExchangeToSuccess(wallet, table, walletId, source, target, amount);
  }

  /** The rounding of a round trip: a whole-cent debit and credit of a
      whole-cent balance cancel exactly, while crediting and debiting the
      same unrounded x moves a whole-cent balance by at most a cent. */
  lemma RoundTripAmounts(s0: real, t0: real, amount: real, x: real)
    requires IsCents(s0) && IsCents(t0) && IsCents(amount)
    ensures Round2(Round2(s0 - amount) + amount) == s0
    ensures -0.01 <= Round2(Round2(t0 + x) - x) - t0 <= 0.01
  {
    CentsArithmetic(s0, amount);
    Round2OfCents(s0 - amount);
    Round2OfCents(s0);
  }

  /** The way back can fail on funds: with USD at 1 and EUR at 3, selling
      1.00 USD into a wallet without EUR gives 0.33 EUR, and buying 1.00 USD
      back then costs 1/3 EUR, more than the wallet holds. */
  lemma ExchangeRoundTripShortfall()
    ensures var table := Some([RateEntry("Dolar", "USD", 1.0), RateEntry("Euro", "EUR", 3.0)]);
      var w := WalletRecord(1, "", [Balance("Dolar", "USD", 1.0)]);
      var there := ExchangeFromPlan(Some(w), table, 1, "USD", "EUR", 1.0);
      && there == Success(Effect([Balance("Dolar", "USD", 0.0), Balance("Euro", "EUR", 0.33)],
                                 (Balance("Dolar", "USD", 0.0), Balance("Euro", "EUR", 0.33))))
      && ExchangeToPlan(Some(w.(currencies := there.value.currencies)), table, 1, "EUR", "USD", 1.0)
         == Failure(NotEnoughFunds(Balance("Euro", "EUR", 0.33)))
  {
    var usd, eur := RateEntry("Dolar", "USD", 1.0), RateEntry("Euro", "EUR", 3.0);
    FirstIndexOf([usd, eur], RateCodeIs("USD"), 0);
    FirstIndexOf([usd, eur], RateCodeIs("EUR"), 1);
    var cs := [Balance("Dolar", "USD", 1.0)];
    FirstIndexOf(cs, HoldsCode("USD"), 0);
    GetOrCreateIndex(cs, eur);
    var placed := cs + [Balance("Euro", "EUR", 0.0)];
    assert GetOrCreate(cs, eur) == (placed, 1);
    assert Convert(1.0, 1.0, 3.0) == 1.0 / 3.0;
    TransferEntries(placed, 0, 1.0, 1, 1.0 / 3.0);
    Round2OfCents(0.0);
    Round2Unique(1.0 / 3.0, 0.33);
    var eff := Transfer(placed, 0, 1.0, 1, 1.0 / 3.0);
    assert eff.currencies == [eff.currencies[0], eff.currencies[1]];
    FirstIndexOf(eff.currencies, HoldsCode("EUR"), 1);
  }

  /** No repeated code and whole cents only: what every wallet the service
      creates looks like. */
  ghost predicate WellFormedEntries(cs: seq<Balance>) {
    UniqueCodes(cs) && forall k :: 0 <= k < |cs| ==> IsCents(cs[k].amount)
  }

  lemma AdjustedWellFormed(cs: seq<Balance>, k: nat, delta: real)
    requires k < |cs| && WellFormedEntries(cs)
    ensures WellFormedEntries(Adjusted(cs, k, delta))
  {
  }

  lemma GetOrCreateWellFormed(cs: seq<Balance>, rate: RateEntry)
    requires WellFormedEntries(cs)
    ensures WellFormedEntries(GetOrCreate(cs, rate).0)
  {
    GetOrCreateProperties(cs, rate);
    assert IsCents(0.0);
  }

  /** Each of the four operations, when it succeeds, leaves a well-formed
      list of entries well-formed. */
  lemma PlansKeepWellFormed(wallet: WalletRecord, table: Option<seq<RateEntry>>, walletId: int,
                            source: string, target: string, amount: real)
    requires WellFormedEntries(wallet.currencies)
    ensures var p := AddFundsPlan(Some(wallet), table, walletId, source, amount);
      p.Success? ==> WellFormedEntries(p.value.currencies)
    ensures var p := WithdrawPlan(Some(wallet), table, walletId, source, amount);
      p.Success? ==> WellFormedEntries(p.value.currencies)
    ensures var p := ExchangeFromPlan(Some(wallet), table, walletId, source, target, amount);
      p.Success? ==> WellFormedEntries(p.value.currencies)
    ensures var p := ExchangeToPlan(Some(wallet), table, walletId, source, target, amount);
      p.Success? ==> WellFormedEntries(p.value.currencies)
  {
    var cs := wallet.currencies;
    if LookupIn(table, source).Found? {
      var placed := GetOrCreate(cs, LookupIn(table, source).entry);
      GetOrCreateWellFormed(cs, LookupIn(table, source).entry);
      AdjustedWellFormed(placed.0, placed.1, amount);
      if IndexOfCode(cs, source).Some? {
        AdjustedWellFormed(cs, IndexOfCode(cs, source).value, -amount);
      }
    }
    if LookupIn(table, source).Found? && LookupIn(table, target).Found? && IndexOfCode(cs, source).Some? {
      var rate := LookupIn(table, target).entry;
      var placed := GetOrCreate(cs, rate);
      var i := IndexOfCode(cs, source).value;
      GetOrCreateWellFormed(cs, rate);
      GetOrCreateKeepsEntries(cs, rate);
      forall debit, credit
        ensures WellFormedEntries(Transfer(placed.0, i, debit, placed.1, credit).currencies)
      {
        AdjustedWellFormed(placed.0, i, -debit);
        AdjustedWellFormed(Adjusted(placed.0, i, -debit), placed.1, credit);
      }
    }
  }

  /** The cache after an operation: a failure or a failed save leaves it as
      it was; otherwise only the wallet's currency list is replaced, and
      every id, every name and every other wallet stay as they were. */
  lemma CommittedChangesOnlyWallet<T>(ws: seq<WalletRecord>, walletId: int, plan: Result<Effect<T>, EngineError>,
                                      persisted: bool)
    ensures plan.Failure? || !persisted ==> Committed(ws, walletId, plan, persisted) == ws
    ensures var after := Committed(ws, walletId, plan, persisted);
      && |after| == |ws|
      && (forall k :: 0 <= k < |ws| ==> after[k].id == ws[k].id && after[k].name == ws[k].name)
      && (forall k :: 0 <= k < |ws| && Some(k) != FindWallet(ws, walletId) ==> after[k] == ws[k])
      && (plan.Success? && persisted && FindWallet(ws, walletId).Some? ==>
            after[FindWallet(ws, walletId).value].currencies == plan.value.currencies)
  {
    if plan.Success? && persisted {
      WithCurrenciesChangesOnlyTarget(ws, walletId, plan.value.currencies);
    }
  }

  /** The rate table of the exchange tests: 4 for USD, 5 for EUR. */
  const Usd := RateEntry("Dolar", "USD", 4.0)
  const Eur := RateEntry("Euro", "EUR", 5.0)

  lemma TestRates()
    ensures LookupIn(Some([Usd, Eur]), "USD") == Found(Usd)
    ensures LookupIn(Some([Usd, Eur]), "EUR") == Found(Eur)
    ensures LookupIn(Some([Usd, Eur]), "XXX") == NotListed
  {
    FirstIndexOf([Usd, Eur], RateCodeIs("USD"), 0);
    FirstIndexOf([Usd, Eur], RateCodeIs("EUR"), 1);
  }

  /** WalletTransactionServiceTests.cs: 50 + 25 = 75 USD. */
  lemma AddFundsScenario()
    ensures AddFundsPlan(Some(WalletRecord(1, "", [Balance("", "USD", 50.0)])), Some([Usd, Eur]), 1, "USD", 25.0)
            == Success(Effect([Balance("", "USD", 75.0)], Balance("", "USD", 75.0)))
  {
    var w := WalletRecord(1, "", [Balance("", "USD", 50.0)]);
    TestRates();
    FirstIndexOf(w.currencies, HoldsCode("USD"), 0);
    AddFundsExisting(w, Some([Usd, Eur]), 1, "USD", 25.0);
    Round2OfCents(75.0);
    var eff := AddFundsPlan(Some(w), Some([Usd, Eur]), 1, "USD", 25.0).value;
    assert eff.currencies == [eff.currencies[0]];
  }

  /** WalletTransactionServiceTests.cs: 10 EUR into an empty wallet makes a
      new entry named after the rate. */
  lemma AddFundsNewScenario()
    ensures AddFundsPlan(Some(WalletRecord(1, "", [])), Some([Usd, Eur]), 1, "EUR", 10.0)
            == Success(Effect([Balance("Euro", "EUR", 10.0)], Balance("Euro", "EUR", 10.0)))
  {
    TestRates();
    AddFundsNew(WalletRecord(1, "", []), Some([Usd, Eur]), 1, "EUR", 10.0);
    Round2OfCents(10.0);
    assert [] + [Balance("Euro", "EUR", 10.0)] == [Balance("Euro", "EUR", 10.0)];
  }

  /** WalletTransactionServiceTests.cs: 50 - 10 = 40 USD; withdrawing 100
      from 50 fails and reports the untouched 50. */
  lemma WithdrawScenarios()
    ensures WithdrawPlan(Some(WalletRecord(1, "", [Balance("", "USD", 50.0)])), Some([Usd, Eur]), 1, "USD", 10.0)
            == Success(Effect([Balance("", "USD", 40.0)], Balance("", "USD", 40.0)))
    ensures WithdrawPlan(Some(WalletRecord(1, "", [Balance("", "USD", 50.0)])), Some([Usd, Eur]), 1, "USD", 100.0)
            == Failure(NotEnoughFunds(Balance("", "USD", 50.0)))
  {
    var w := WalletRecord(1, "", [Balance("", "USD", 50.0)]);
    TestRates();
    FirstIndexOf(w.currencies, HoldsCode("USD"), 0);
    WithdrawSuccess(w, Some([Usd, Eur]), 1, "USD", 10.0);
    Round2OfCents(40.0);
    var eff := WithdrawPlan(Some(w), Some([Usd, Eur]), 1, "USD", 10.0).value;
    assert eff.currencies == [eff.currencies[0]];
  }

  /** WalletTransactionServiceTests.cs at 4 (USD) and 5 (EUR): selling 40 of
      100 USD into 50 EUR gives 60 USD and 82 EUR. */
  lemma ExchangeFromScenario()
    ensures var w := WalletRecord(1, "", [Balance("Dolar", "USD", 100.0), Balance("Euro", "EUR", 50.0)]);
      ExchangeFromPlan(Some(w), Some([Usd, Eur]), 1, "USD", "EUR", 40.0)
      == Success(Effect([Balance("Dolar", "USD", 60.0), Balance("Euro", "EUR", 82.0)],
                        (Balance("Dolar", "USD", 60.0), Balance("Euro", "EUR", 82.0))))
  {
    var cs := [Balance("Dolar", "USD", 100.0), Balance("Euro", "EUR", 50.0)];
    TestRates();
    FirstIndexOf(cs, HoldsCode("USD"), 0);
    FirstIndexOf(cs, HoldsCode("EUR"), 1);
    assert Convert(40.0, 4.0, 5.0) == 32.0;
    TransferEntries(cs, 0, 40.0, 1, 32.0);
    Round2OfCents(60.0);
    Round2OfCents(82.0);
    var eff := Transfer(cs, 0, 40.0, 1, 32.0);
    assert eff.currencies == [eff.currencies[0], eff.currencies[1]];
  }

  /** The same sale into a wallet without EUR: a new 32 EUR entry goes last. */
  lemma ExchangeFromNewScenario()
    ensures var w := WalletRecord(1, "", [Balance("Dolar", "USD", 100.0)]);
      ExchangeFromPlan(Some(w), Some([Usd, Eur]), 1, "USD", "EUR", 40.0)
      == Success(Effect([Balance("Dolar", "USD", 60.0), Balance("Euro", "EUR", 32.0)],
                        (Balance("Dolar", "USD", 60.0), Balance("Euro", "EUR", 32.0))))
  {
    var cs := [Balance("Dolar", "USD", 100.0)];
    TestRates();
    FirstIndexOf(cs, HoldsCode("USD"), 0);
    GetOrCreateIndex(cs, Eur);
    var placed := cs + [Balance("Euro", "EUR", 0.0)];
    assert GetOrCreate(cs, Eur) == (placed, 1);
    assert Convert(40.0, 4.0, 5.0) == 32.0;
    TransferEntries(placed, 0, 40.0, 1, 32.0);
    Round2OfCents(60.0);
    Round2OfCents(32.0);
    var eff := Transfer(placed, 0, 40.0, 1, 32.0);
    assert eff.currencies == [eff.currencies[0], eff.currencies[1]];
  }

  /** Buying 50 EUR at these rates costs 62.5 USD, leaving 37.5 USD and
      100 EUR. */
  lemma ExchangeToScenario()
    ensures var w := WalletRecord(1, "", [Balance("Dolar", "USD", 100.0), Balance("Euro", "EUR", 50.0)]);
      ExchangeToPlan(Some(w), Some([Usd, Eur]), 1, "USD", "EUR", 50.0)
      == Success(Effect([Balance("Dolar", "USD", 37.5), Balance("Euro", "EUR", 100.0)],
                        (Balance("Dolar", "USD", 37.5), Balance("Euro", "EUR", 100.0))))
  {
    var cs := [Balance("Dolar", "USD", 100.0), Balance("Euro", "EUR", 50.0)];
    TestRates();
    FirstIndexOf(cs, HoldsCode("USD"), 0);
    FirstIndexOf(cs, HoldsCode("EUR"), 1);
    assert Convert(50.0, 5.0, 4.0) == 62.5;
    TransferEntries(cs, 0, 62.5, 1, 50.0);
    Round2OfCents(37.5);
    Round2OfCents(100.0);
    var eff := Transfer(cs, 0, 62.5, 1, 50.0);
    assert eff.currencies == [eff.currencies[0], eff.currencies[1]];
  }

  /** The same purchase into a wallet without EUR: a new 50 EUR entry goes
      last, and 37.5 USD remain. */
  lemma ExchangeToNewScenario()
    ensures var w := WalletRecord(1, "", [Balance("Dolar", "USD", 100.0)]);
      ExchangeToPlan(Some(w), Some([Usd, Eur]), 1, "USD", "EUR", 50.0)
      == Success(Effect([Balance("Dolar", "USD", 37.5), Balance("Euro", "EUR", 50.0)],
                        (Balance("Dolar", "USD", 37.5), Balance("Euro", "EUR", 50.0))))
  {
    var cs := [Balance("Dolar", "USD", 100.0)];
    TestRates();
    FirstIndexOf(cs, HoldsCode("USD"), 0);
    GetOrCreateIndex(cs, Eur);
    var placed := cs + [Balance("Euro", "EUR", 0.0)];
    assert GetOrCreate(cs, Eur) == (placed, 1);
    assert Convert(50.0, 5.0, 4.0) == 62.5;
    TransferEntries(placed, 0, 62.5, 1, 50.0);
    Round2OfCents(37.5);
    Round2OfCents(50.0);
    var eff := Transfer(placed, 0, 62.5, 1, 50.0);
    assert eff.currencies == [eff.currencies[0], eff.currencies[1]];
  }

  /** With 50 USD, selling 100 USD fails on the amount itself and buying 50
      EUR fails on its 62.5 USD cost; both report the untouched entry. */
  lemma NotEnoughFundsScenarios()
    ensures var w := WalletRecord(1, "", [Balance("", "USD", 50.0)]);
      && ExchangeFromPlan(Some(w), Some([Usd, Eur]), 1, "USD", "EUR", 100.0) == Failure(NotEnoughFunds(w.currencies[0]))
      && ExchangeToPlan(Some(w), Some([Usd, Eur]), 1, "USD", "EUR", 50.0) == Failure(NotEnoughFunds(w.currencies[0]))
  {
    TestRates();
    FirstIndexOf([Balance("", "USD", 50.0)], HoldsCode("USD"), 0);
    assert Convert(50.0, 5.0, 4.0) == 62.5;
  }
}
