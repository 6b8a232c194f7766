/** `loadState`: the store rebuilt from what browser storage held, each
    missing or malformed part replaced by its default. Reading and writing
    the storage itself is outside the model; the parsed object is the input
    and `saveState` is the inverse view `Save`. */
module Persistence {
  import opened Wrappers
  import opened Records

  /** A parsed stored object. A field is `None` when it is absent or null,
      and, for the three lists, also when it is not an array. */
  datatype Stored = Stored(
    session: Option<Session>,
    vehicles: Option<seq<Vehicle>>,
    customers: Option<seq<Customer>>,
    transactions: Option<seq<Transaction>>,
    invoices: Option<map<string, string>>,
    settings: Option<Settings>)

  /** `parsed` is `None` when storage is empty, is not JSON, or holds no
      object. */
  function LoadState(parsed: Option<Stored>): (r: Snapshot)
    ensures parsed.None? ==> r == EmptySnapshot
    ensures parsed.Some? ==>
              (parsed.value.vehicles.Some? ==> r.vehicles == parsed.value.vehicles.value)
              && (parsed.value.customers.Some? ==> r.customers == parsed.value.customers.value)
              && (parsed.value.transactions.Some? ==> r.transactions == parsed.value.transactions.value)
              && (parsed.value.invoices.Some? ==> r.invoices == parsed.value.invoices.value)
              && (parsed.value.settings.Some? ==> r.settings == parsed.value.settings.value)
              && r.session == parsed.value.session
    ensures parsed.Some? ==>
              (parsed.value.vehicles.None? ==> r.vehicles == [])
              && (parsed.value.customers.None? ==> r.customers == [])
              && (parsed.value.transactions.None? ==> r.transactions == [])
              && (parsed.value.invoices.None? ==> r.invoices == map[])
              && (parsed.value.settings.None? ==> r.settings == DefaultSettings)
  {
    match parsed
    case None => EmptySnapshot
    case Some(p) =>
      Snapshot(p.session, p.vehicles.GetOr([]), p.customers.GetOr([]), p.transactions.GetOr([]),
               p.invoices.GetOr(map[]), p.settings.GetOr(DefaultSettings))
  }

  /** What `saveState` writes: every field present. */
  function Save(s: Snapshot): Stored {
    Stored(s.session, Some(s.vehicles), Some(s.customers), Some(s.transactions), Some(s.invoices), Some(s.settings))
  }

  /** Saving and loading gives back the same store. */
  lemma LoadSaveRoundTrip(s: Snapshot)
    ensures LoadState(Some(Save(s))) == s
  {
  }

  /** A stored object with every field missing loads as a first visit does. */
  lemma EmptyObjectLoadsDefaults()
    ensures LoadState(Some(Stored(None, None, None, None, None, None))) == LoadState(None)
    ensures LoadState(None).settings.discountRule == Some(DefaultDiscountRule)
  {
  }

  /** Loading normalises: saving what was loaded and loading again changes
      nothing. */
  lemma LoadIsNormalising(parsed: Option<Stored>)
    ensures LoadState(Some(Save(LoadState(parsed)))) == LoadState(parsed)
  {
  }
}
