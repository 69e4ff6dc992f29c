/** The rate table kept in memory by the file-backed exchange-rates
    repository (Repositories/FileRepositories/FileExchangeRatesRepository.cs). */
module ExchangeRates {
  import opened Wrappers

  /** One published rate: the currency's display name, its code and its mid
      rate against the reference currency. */
  datatype RateEntry = RateEntry(currency: string, code: string, mid: real)

  /** What a lookup gives: the first entry with the code, no such entry, or an
      error because no table was ever loaded. */
  datatype Lookup = Found(entry: RateEntry) | NotListed | NoTable

  /** The rates file as the constructor finds it. An empty or malformed file
      is Unreadable (deserialisation throws); a file holding `null` is
      Parsed(None). */
  datatype RatesFile = NoFile | Unreadable | Parsed(content: Option<seq<RateEntry>>)

  /** The error SaveDataAsync raises when the file write fails. */
  datatype SaveFailed = ExchangeRatesRepositoryException

  /** The entry-matching test of `FirstOrDefault(r => r.Code == code)`. */
  function RateCodeIs(code: string): RateEntry -> bool {
    (e: RateEntry) => e.code == code
  }

  /** The first entry whose code equals `code` exactly. */
  ghost function FirstRate(entries: seq<RateEntry>, code: string): (r: Option<RateEntry>)
    ensures r.Some? ==> r.value in entries && r.value.code == code
    ensures r.Some? ==> exists k :: 0 <= k < |entries| && entries[k] == r.value &&
                                    forall j :: 0 <= j < k ==> entries[j].code != code
    ensures r.None? <==> forall k :: 0 <= k < |entries| ==> entries[k].code != code
  {
    match FirstIndex(entries, RateCodeIs(code))
    case None => None
    case Some(k) => Some(entries[k])
  }

  /** GetCurrencyDataAsync on the table `table` (None when nothing was
      loaded): FirstOrDefault over a null list throws. */
  ghost function LookupIn(table: Option<seq<RateEntry>>, code: string): (r: Lookup)
    ensures r.NoTable? <==> table.None?
    ensures r.Found? ==> table.Some? && FirstRate(table.value, code) == Some(r.entry)
    ensures r.NotListed? ==> table.Some? && FirstRate(table.value, code) == None
  {
    match table
    case None => NoTable
    case Some(entries) =>
      match FirstRate(entries, code)
      case None => NotListed
      case Some(e) => Found(e)
  }

  /** A lookup that finds something finds an entry with exactly that code. */
  lemma LookupFindsCode(table: Option<seq<RateEntry>>, code: string)
    ensures LookupIn(table, code).Found? ==> LookupIn(table, code).entry.code == code
  {
  }

  /** With the table in place, two entries with the same code resolve to the
      earlier one: a later duplicate is never seen. */
  lemma LookupPrefersEarlier(entries: seq<RateEntry>, i: nat, j: nat)
    requires i < j < |entries| && entries[i].code == entries[j].code
    requires forall k :: 0 <= k < i ==> entries[k].code != entries[i].code
    ensures LookupIn(Some(entries), entries[j].code) == Found(entries[i])
  {
    var r := FirstRate(entries, entries[j].code);
    var k :| 0 <= k < |entries| && entries[k] == r.value &&
             forall m :: 0 <= m < k ==> entries[m].code != entries[j].code;
    assert k == i;
  }

  class FileExchangeRatesRepository {
    /** `_currentExchangeRates`; None stands for the null list. */
    var table: Option<seq<RateEntry>>

    /** The table is whatever the file held; a missing file (which is then
        created empty), an unreadable or malformed file and a file holding
        `null` all leave no table. */
    constructor (file: RatesFile)
      ensures table.Some? <==> file.Parsed? && file.content.Some?
      ensures file.Parsed? ==> table == file.content
    {
      match file
      case NoFile => table := None;
      case Unreadable => table := None;
      case Parsed(content) => table := content;
    }

    /** SaveDataAsync: the new table replaces the old one in memory first;
        `written` is the outcome of the file write that follows. A failed
        write surfaces as an error, but memory already holds the new table. */
    method SaveData(rates: seq<RateEntry>, written: bool) returns (r: Result<(), SaveFailed>)
      modifies this
      ensures table == Some(rates)
      ensures r.Success? <==> written
      ensures forall code ::
                LookupIn(table, code) == (if FirstRate(rates, code).Some? then Found(FirstRate(rates, code).value) else NotListed)
    {
      table := Some(rates);
      if !written {
        return Failure(ExchangeRatesRepositoryException);
      }
      return Success(());
    }

    /** GetCurrencyDataAsync: reads the table and changes nothing. */
    method GetCurrencyData(code: string) returns (r: Lookup)
      ensures r == LookupIn(table, code)
      ensures r.Found? ==> r.entry.code == code
    {
      match table
      case None =>
        r := NoTable;
      case Some(entries) =>
        var k := FirstOrDefault(entries, RateCodeIs(code));
        if k.None? {
          r := NotListed;
        } else {
          r := Found(entries[k.value]);
        }
    }
  }
}
