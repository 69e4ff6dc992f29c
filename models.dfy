/** Wallets and their per-currency balances (Models/Wallet.cs).

    Amounts are exact reals: C#'s `decimal` is a base-10 type, so the only
    difference is its 28-digit limit. Every assignment to `Amount` rounds to
    two fractional digits with midpoints away from zero. */
module Models {
  import opened Wrappers

  /** x has at most two fractional digits. */
  predicate IsCents(x: real) {
    (x * 100.0).Floor as real == x * 100.0
  }

  /** Rounds x to a whole number, midpoints away from zero. */
  function RoundAway(x: real): (n: int)
    ensures -0.5 <= n as real - x <= 0.5
    ensures n as real - x == 0.5 ==> x > 0.0
    ensures x - n as real == 0.5 ==> x < 0.0
  {
    if x >= 0.0 then (x + 0.5).Floor else -((0.5 - x).Floor)
  }

  /** Math.Round(v, 2, MidpointRounding.AwayFromZero). The contract pins the
      result down completely (see Round2Unique): a whole number of cents, at
      most half a cent from v, and on a tie the value farther from zero. */
  function Round2(v: real): (r: real)
    ensures IsCents(r)
    ensures -0.005 <= r - v <= 0.005
    ensures r - v == 0.005 ==> v > 0.0
    ensures v - r == 0.005 ==> v < 0.0
  {
    var n := RoundAway(v * 100.0);
    assert (n as real / 100.0) * 100.0 == n as real;
    n as real / 100.0
  }

  /** Any value meeting Round2's contract is Round2's result. */
  lemma Round2Unique(v: real, r: real)
    requires IsCents(r)
    requires -0.005 <= r - v <= 0.005
    requires r - v == 0.005 ==> v > 0.0
    requires v - r == 0.005 ==> v < 0.0
    ensures r == Round2(v)
  {
    var q := Round2(v);
    var n, m := (r * 100.0).Floor, (q * 100.0).Floor;
    assert n as real == r * 100.0 && m as real == q * 100.0;
    // both are whole cents within half a cent of v, and a tie picks one side
    assert -1 <= n - m <= 1;
    assert n != m + 1;
    assert m != n + 1;
  }

  /** Assigning the current amount again changes nothing. */
  lemma Round2Idempotent(v: real)
    ensures Round2(Round2(v)) == Round2(v)
  {
    Round2OfCents(Round2(v));
  }

  /** A value that already has two fractional digits is left as it is. */
  lemma Round2OfCents(v: real)
    requires IsCents(v)
    ensures Round2(v) == v
  {
    Round2Unique(v, v);
  }

  /** Rounding is symmetric in sign. */
  lemma Round2Negate(v: real)
    ensures Round2(-v) == -Round2(v)
  {
    var r := Round2(v);
    assert ((-r) * 100.0).Floor == -((r * 100.0).Floor);
    Round2Unique(-v, -r);
  }

  /** The midpoint examples: 0.125 -> 0.13 and -0.125 -> -0.13. */
  lemma Round2Midpoints()
    ensures Round2(0.125) == 0.13
    ensures Round2(-0.125) == -0.13
    ensures Round2(2.345) == 2.35
  {
  }

  /** Rounding never moves a value across zero. */
  lemma Round2Sign(v: real)
    ensures v >= 0.0 ==> Round2(v) >= 0.0
    ensures v <= 0.0 ==> Round2(v) <= 0.0
  {
  }

  /** The value of one CurrencyData object. */
  datatype Balance = Balance(name: string, code: string, amount: real)

  /** The value of one Wallet object. */
  datatype WalletRecord = WalletRecord(id: int, name: string, currencies: seq<Balance>)

  /** The entries after `cs[k].Amount += delta`: only entry k changes, and
      only its amount, which becomes the sum rounded to cents. */
  function Adjusted(cs: seq<Balance>, k: nat, delta: real): (r: seq<Balance>)
    requires k < |cs|
    ensures |r| == |cs| && r[k].name == cs[k].name && r[k].code == cs[k].code
    ensures r[k].amount == Round2(cs[k].amount + delta)
    ensures forall j :: 0 <= j < |cs| && j != k ==> r[j] == cs[j]
  {
    cs[k := cs[k].(amount := Round2(cs[k].amount + delta))]
  }

  /** Every amount of the wallet has at most two fractional digits. */
  ghost predicate AllCents(w: WalletRecord) {
    forall k :: 0 <= k < |w.currencies| ==> IsCents(w.currencies[k].amount)
  }

  /** CurrencyData: the `Amount` property is backed by `amount` (the private
      `_amount`), and its setter is SetAmount. */
  class CurrencyData {
    var name: string
    var code: string
    var amount: real

    ghost predicate Valid()
      reads this
    {
      IsCents(amount)
    }

    /** `new CurrencyData { Name = name, Code = code }`: the amount is the
        default 0. */
    constructor (name: string, code: string)
      ensures Valid()
      ensures this.name == name && this.code == code && amount == 0.0
    {
      this.name := name;
      this.code := code;
      amount := 0.0;
    }

    /** The `Amount` setter: stores the value rounded to cents. */
    method SetAmount(v: real)
      modifies this
      ensures Valid()
      ensures amount == Round2(v)
      ensures name == old(name) && code == old(code)
    {
      amount := Round2(v);
    }

    function Value(): Balance
      reads this
    {
      Balance(name, code, amount)
    }
  }

  class Wallet {
    var id: int
    var name: string
    var currencies: seq<CurrencyData>
    /** The wallet and its entries. */
    ghost var Repr: set<object>

    /** Every entry is its own object and holds a rounded amount. */
    ghost predicate Valid()
      reads this, Repr
    {
      && this in Repr
      && (forall i :: 0 <= i < |currencies| ==> currencies[i] in Repr && currencies[i].Valid())
      && (forall i, j :: 0 <= i < j < |currencies| ==> currencies[i] != currencies[j])
    }

    /** `new Wallet()`: the currency list starts empty; the name, null in the
        source, is the empty string here. */
    constructor ()
      ensures Valid() && fresh(Repr)
      ensures id == 0 && name == "" && currencies == []
    {
      id := 0;
      name := "";
      currencies := [];
      Repr := {this};
    }

    function Entries(): (r: seq<Balance>)
      requires Valid()
      reads this, Repr
    {
      seq(|currencies|, k reads this, Repr requires Valid() && 0 <= k < |currencies| => currencies[k].Value())
    }

    function Value(): WalletRecord
      requires Valid()
      reads this, Repr
    {
      WalletRecord(id, name, Entries())
    }

    /** `Currencies[k].Amount += delta`: the k-th entry's setter stores the
        sum rounded to cents; the list itself, every other entry, the Id and
        the Name stay as they were. */
    method ChangeAmount(k: nat, delta: real)
      requires Valid() && k < |currencies|
      modifies currencies[k]
      ensures Valid() && currencies == old(currencies) && Repr == old(Repr)
      ensures Entries() == Adjusted(old(Entries()), k, delta)
    {
      currencies[k].SetAmount(currencies[k].amount + delta);
      assert Entries() == Adjusted(old(Entries()), k, delta);
    }

    /** A fresh Wallet holding fresh CurrencyData objects with the values of
        `rec`, each amount assigned through the setter. */
    static method FromRecord(rec: WalletRecord) returns (w: Wallet)
      requires AllCents(rec)
      ensures fresh(w.Repr) && w.Valid()
      ensures w.Value() == rec
    {
      w := new Wallet();
      w.id := rec.id;
      w.name := rec.name;
      var i := 0;
      while i < |rec.currencies|
        invariant 0 <= i <= |rec.currencies|
        invariant w.id == rec.id && w.name == rec.name
        invariant w.Valid() && fresh(w.Repr)
        invariant w.Entries() == rec.currencies[..i]
      {
        var b := rec.currencies[i];
        var c := new CurrencyData(b.name, b.code);
        c.SetAmount(b.amount);
        Round2OfCents(b.amount);
        w.currencies := w.currencies + [c];
        w.Repr := w.Repr + {c};
        assert w.Entries() == rec.currencies[..i + 1];
        i := i + 1;
      }
      assert rec.currencies[..i] == rec.currencies;
    }

    /** Clone: a deep copy with the same Id, Name and currency list, built
        from new CurrencyData objects, so the copy shares nothing with the
        original. */
    method Clone() returns (c: Wallet)
      requires Valid()
      ensures fresh(c.Repr) && c.Valid()
      ensures c.Value() == Value()
    {
      c := FromRecord(Value());
    }
  }
}
