/** The in-memory cache of the file-backed wallet repository
    (Repositories/FileRepositories/FileWalletRepository.cs).

    The cache is held as values: the repository owns it alone and hands out
    only fresh copies. Writing the wallets file is one step whose outcome is
    the parameter `persisted`; the cache moves to the new list only when that
    step succeeds. */
module WalletRepository {
  import opened Wrappers
  import opened Models

  /** The wallets file as the constructor finds it. Unreadable covers a file
      that cannot be read or parsed; Parsed(None) is a file holding `null`. */
  datatype WalletsFile = NoFile | Unreadable | Parsed(content: Option<seq<WalletRecord>>)

  /** WalletRepositoryException wraps any failure of the save step;
      NullReference is what UpdateWalletAsync raises for an unknown id. */
  datatype StoreError = WalletRepositoryException | NullReference

  /** The matching test of `FirstOrDefault(w => w.Id == id)`. */
  function HasId(id: int): WalletRecord -> bool {
    (w: WalletRecord) => w.id == id
  }

  /** Position of the first wallet with that id. */
  ghost function FindWallet(ws: seq<WalletRecord>, id: int): (r: Option<nat>)
    ensures r.Some? ==> r.value < |ws| && ws[r.value].id == id
    ensures r.Some? ==> forall k :: 0 <= k < r.value ==> ws[k].id != id
    ensures r.None? <==> forall k :: 0 <= k < |ws| ==> ws[k].id != id
  {
    FirstIndex(ws, HasId(id))
  }

  /** The wallet GetWalletAsync would copy, if any. */
  ghost function StoredWallet(ws: seq<WalletRecord>, id: int): Option<WalletRecord>
  {
    match FindWallet(ws, id)
    case None => None
    case Some(k) => Some(ws[k])
  }

  /** The list UpdateWalletAsync saves: the first wallet with that id gets the
      currency list `cs`; nothing else changes. */
  ghost function WithCurrencies(ws: seq<WalletRecord>, id: int, cs: seq<Balance>): seq<WalletRecord>
  {
    match FindWallet(ws, id)
    case None => ws
    case Some(k) => ws[k := ws[k].(currencies := cs)]
  }

  ghost predicate CacheValid(ws: seq<WalletRecord>) {
    forall k :: 0 <= k < |ws| ==> AllCents(ws[k])
  }

  /** Each wallet's id is its position, as when every wallet came from
      CreateWalletAsync starting from an empty cache. */
  predicate IdsAreIndices(ws: seq<WalletRecord>) {
    forall k :: 0 <= k < |ws| ==> ws[k].id == k
  }

  /** Deserialising assigns every Amount through its setter. */
  function Deserialized(ws: seq<WalletRecord>): (r: seq<WalletRecord>)
    ensures CacheValid(r)
    ensures |r| == |ws|
    ensures forall k :: 0 <= k < |ws| ==>
      && r[k].id == ws[k].id && r[k].name == ws[k].name
      && |r[k].currencies| == |ws[k].currencies|
    ensures forall k, j :: 0 <= k < |ws| && 0 <= j < |ws[k].currencies| ==>
      && r[k].currencies[j].name == ws[k].currencies[j].name
      && r[k].currencies[j].code == ws[k].currencies[j].code
      && r[k].currencies[j].amount == Round2(ws[k].currencies[j].amount)
  {
    seq(|ws|, k requires 0 <= k < |ws| =>
      ws[k].(currencies := seq(|ws[k].currencies|, j requires 0 <= j < |ws[k].currencies| =>
        ws[k].currencies[j].(amount := Round2(ws[k].currencies[j].amount)))))
  }

  /** Update touches one wallet's currency list only: every id and name, and
      every other wallet, stay as they were. */
  lemma WithCurrenciesChangesOnlyTarget(ws: seq<WalletRecord>, id: int, cs: seq<Balance>)
    ensures |WithCurrencies(ws, id, cs)| == |ws|
    ensures forall k :: 0 <= k < |ws| ==>
      WithCurrencies(ws, id, cs)[k].id == ws[k].id && WithCurrencies(ws, id, cs)[k].name == ws[k].name
    ensures forall k :: 0 <= k < |ws| && Some(k) != FindWallet(ws, id) ==> WithCurrencies(ws, id, cs)[k] == ws[k]
    ensures FindWallet(ws, id).Some? ==> WithCurrencies(ws, id, cs)[FindWallet(ws, id).value].currencies == cs
  {
  }

  /** With ids equal to positions, lookup by id is lookup by position. */
  lemma {:induction false} FindWalletByIndex(ws: seq<WalletRecord>, id: int)
    requires IdsAreIndices(ws)
    ensures FindWallet(ws, id) == if 0 <= id < |ws| then Some(id) else None
  {
    if 0 <= id < |ws| {
      assert ws[id].id == id;
    }
  }

  /** Appending the wallet that CreateWalletAsync numbered keeps ids equal to
      positions, so ids 0, 1, 2, ... are handed out without repetition. */
  lemma CreateKeepsIdsAreIndices(ws: seq<WalletRecord>, w: WalletRecord)
    requires IdsAreIndices(ws) && w.id == |ws|
    ensures IdsAreIndices(ws + [w])
    ensures forall i, j :: 0 <= i < j < |ws + [w]| ==> (ws + [w])[i].id != (ws + [w])[j].id
  {
  }

  /** Numbering by count relies on ids being positions: after loading a file
      whose one wallet has id 1, the next wallet is numbered 1 as well, and a
      lookup of id 1 finds only the loaded one. */
  lemma LoadedIdsCanRepeat()
    ensures var ws := [WalletRecord(1, "loaded", [])];
      var w := WalletRecord(|ws|, "created", []);
      && !IdsAreIndices(ws)
      && w.id == ws[0].id
      && FindWallet(ws + [w], w.id) == Some(0)
  {
    var ws := [WalletRecord(1, "loaded", [])];
    FirstIndexOf(ws + [WalletRecord(1, "created", [])], HasId(1), 0);
  }

  /** Replacing currency lists never disturbs the numbering. */
  lemma UpdateKeepsIdsAreIndices(ws: seq<WalletRecord>, id: int, cs: seq<Balance>)
    requires IdsAreIndices(ws)
    ensures IdsAreIndices(WithCurrencies(ws, id, cs))
  {
    WithCurrenciesChangesOnlyTarget(ws, id, cs);
  }

  class FileWalletRepository {
    /** `_wallets` */
    var wallets: seq<WalletRecord>

    ghost predicate Valid()
      reads this
    {
      CacheValid(wallets)
    }

    /** Starts from the file's wallets; a missing file (which is then created),
        an unreadable or unparsable file, or one holding `null` gives an empty
        cache. */
    constructor (file: WalletsFile)
      ensures Valid()
      ensures wallets == if file.Parsed? && file.content.Some? then Deserialized(file.content.value) else []
    {
      match file
      case NoFile => wallets := [];
      case Unreadable => wallets := [];
      case Parsed(content) =>
        wallets := if content.Some? then Deserialized(content.value) else [];
    }

    /** CreateWalletAsync: numbers the caller's wallet with the current count
        (even when the save then fails) and, only once the save succeeded,
        makes the cache the old cache followed by a copy of that wallet. */
    method CreateWallet(w: Wallet, persisted: bool) returns (r: Result<(), StoreError>)
      requires Valid() && w.Valid()
      modifies this, w`id
      ensures Valid() && w.Valid()
      ensures w.id == old(|wallets|)
      ensures w.Entries() == old(w.Entries()) && w.name == old(w.name)
      ensures r.Success? <==> persisted
      ensures wallets == if persisted then old(wallets) + [w.Value()] else old(wallets)
    {
      var walletId := |wallets|;
      w.id := walletId;
      var walletsToSave := wallets + [w.Value()];
      if !persisted {
        return Failure(WalletRepositoryException);
      }
      wallets := walletsToSave;
      assert w.Value() == walletsToSave[walletId];
      return Success(());
    }

    /** GetWalletsAsync: a fresh copy of every cached wallet, in cache order. */
    method GetWallets() returns (ws: seq<Wallet>)
      requires Valid()
      ensures |ws| == |wallets|
      ensures forall k :: 0 <= k < |ws| ==> fresh(ws[k].Repr) && ws[k].Valid() && ws[k].Value() == wallets[k]
    {
      ws := [];
      var i := 0;
      while i < |wallets|
        invariant 0 <= i <= |wallets| && |ws| == i
        invariant forall k :: 0 <= k < i ==> fresh(ws[k].Repr) && ws[k].Valid() && ws[k].Value() == wallets[k]
      {
        var w := Wallet.FromRecord(wallets[i]);
        ws := ws + [w];
        i := i + 1;
      }
    }

    /** GetWalletAsync: a fresh copy of the first wallet with that id, or null. */
    method GetWallet(id: int) returns (w: Wallet?)
      requires Valid()
      ensures w == null <==> StoredWallet(wallets, id).None?
      ensures w != null ==> fresh(w.Repr) && w.Valid() && Some(w.Value()) == StoredWallet(wallets, id)
    {
      var k := FirstOrDefault(wallets, HasId(id));
      if k.None? {
        return null;
      }
      w := Wallet.FromRecord(wallets[k.value]);
    }

    /** UpdateWalletAsync: replaces the currency list of the first wallet with
        the caller's id, keeping its Id and Name and every other wallet; an
        unknown id fails before anything is saved, and a failed save leaves
        the cache as it was. */
    method UpdateWallet(w: Wallet, persisted: bool) returns (r: Result<(), StoreError>)
      requires Valid() && w.Valid()
      modifies this
      ensures Valid()
      ensures FindWallet(old(wallets), old(w.id)).None? ==> r == Failure(NullReference)
      ensures FindWallet(old(wallets), old(w.id)).Some? ==> (r.Success? <==> persisted)
      ensures wallets == if r.Success? then WithCurrencies(old(wallets), old(w.id), old(w.Entries())) else old(wallets)
    {
      var k := FirstOrDefault(wallets, HasId(w.id));
      if k.None? {
        return Failure(NullReference);
      }
      var walletsToSave := wallets[k.value := wallets[k.value].(currencies := w.Entries())];
      if !persisted {
        return Failure(WalletRepositoryException);
      }
      wallets := walletsToSave;
      return Success(());
    }
  }
}
