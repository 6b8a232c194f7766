/** The in-memory `state` object of the front end as a mutable store, with
    one method per operation that changes it. Each method does what the
    source does step by step and is proved to leave exactly the state the
    corresponding pure function describes. */
module DealerStore {
  import opened Wrappers
  import opened Text
  import opened Seqs
  import opened Records
  import Catalog
  import opened Reports
  import opened Invoice
  import Transactions
  import opened Persistence

  class Store {
    var session: Option<Session>
    var vehicles: seq<Vehicle>
    var customers: seq<Customer>
    var transactions: seq<Transaction>
    var invoices: map<string, string>
    var settings: Settings

    function State(): Snapshot
      reads this
    {
      Snapshot(session, vehicles, customers, transactions, invoices, settings)
    }

    /** The store invariant of the model. */
    ghost predicate Valid()
      reads this
    {
      Transactions.Consistent(State())
    }

    /** `let state = loadState()`. */
    constructor (parsed: Option<Stored>)
      ensures State() == LoadState(parsed)
      ensures parsed.None? ==> Valid()
    {
      var s := LoadState(parsed);
      session, vehicles, customers := s.session, s.vehicles, s.customers;
      transactions, invoices, settings := s.transactions, s.invoices, s.settings;
      if parsed.None? {
        Transactions.ConsistentEmpty();
      }
    }

    /** `upsertVehicle`, with the stored identifier kept (see Findings). */
    method UpsertVehicle(input: Catalog.VehicleInput, freshId: string) returns (err: Option<Error>)
      modifies this
      ensures var r := Catalog.UpsertVehicle(old(vehicles), input, freshId);
              (r.Err? ==> err == Some(r.error) && State() == old(State()))
              && (r.Ok? ==> err.None? && State() == old(State()).(vehicles := r.value))
      ensures old(Valid()) ==> Valid()
    {
      ghost var s0 := State();
      var vin := Trim(input.vin);
      if vin == "" {
        return Some(VinRequired);
      }
      match VehicleIndexByVin(vehicles, vin) {
        case Some(i) =>
          vehicles := vehicles[i := Catalog.MergeVehicle(vehicles[i], input, vin)];
        case None =>
          vehicles := vehicles + [Catalog.NewVehicle(input, freshId, vin)];
      }
      err := None;
      assert vehicles == Catalog.UpsertVehicle(s0.vehicles, input, freshId).value;
      if Transactions.Consistent(s0) {
        UpsertVehicleKeepsConsistent(s0, input, freshId);
      }
    }

    /** `deleteVehicle`. */
    method DeleteVehicle(vin: string)
      modifies this
      ensures State() == old(State()).(vehicles := Catalog.DeleteVehicle(old(vehicles), vin))
      ensures old(Valid()) ==> Valid()
    {
      if Valid() {
        Catalog.DeleteVehicleKeepsVinsUnique(vehicles, vin);
      }
      vehicles := Catalog.DeleteVehicle(vehicles, vin);
    }

    /** `upsertCustomer`, with the stored identifier kept (see Findings). */
    method UpsertCustomer(input: Catalog.CustomerInput, freshId: string) returns (err: Option<Error>)
      modifies this
      ensures var r := Catalog.UpsertCustomer(old(customers), input, freshId);
              (r.Err? ==> err == Some(r.error) && State() == old(State()))
              && (r.Ok? ==> err.None? && State() == old(State()).(customers := r.value))
      ensures old(Valid()) ==> Valid()
    {
      ghost var s0 := State();
      var license := Trim(input.license);
      if license == "" {
        return Some(LicenseRequired);
      }
      match Catalog.LicenseIndex(customers, license) {
        case Some(i) =>
          customers := customers[i := Catalog.MergeCustomer(customers[i], input, license)];
        case None =>
          customers := customers + [Catalog.NewCustomer(input, freshId, license)];
      }
      err := None;
      assert customers == Catalog.UpsertCustomer(s0.customers, input, freshId).value;
      if Transactions.Consistent(s0) {
        UpsertCustomerKeepsConsistent(s0, input, freshId);
      }
    }

    /** `deleteCustomer`. */
    method DeleteCustomer(license: string)
      modifies this
      ensures State() == old(State()).(customers := Catalog.DeleteCustomer(old(customers), license))
      ensures old(Valid()) ==> Valid()
    {
      if Valid() {
        Catalog.DeleteCustomerKeepsLicensesUnique(customers, license);
      }
      customers := Catalog.DeleteCustomer(customers, license);
    }

    /** `createTransaction`: the checks first, then the in-place updates in
        the source's order. On an error nothing changes. */
    method CreateTransaction(input: Transactions.TxInput, gen: Transactions.Fresh, fmt: real -> string)
      returns (res: Result<Transaction, Error>)
      modifies this
      ensures var r := Transactions.CreateTransaction(old(State()), input, gen, fmt);
              (r.Err? ==> res == Err(r.error) && State() == old(State()))
              && (r.Ok? ==> res == Ok(r.value.1) && State() == r.value.0)
      ensures (old(Valid()) && !HasVin(old(vehicles), Transactions.TradeVin(gen.tradeClock))
               && !Transactions.IsTxId(old(transactions), gen.txId)) ==> Valid()
    {
      ghost var s0 := State();
      Transactions.CreateTransactionErrors(s0, input, gen, fmt);
      var ci := CustomerIndexById(customers, input.customerId);
      var vi := VehicleIndexByVin(vehicles, input.vehicleVinBuy);
      if ci.None? {
        return Err(CustomerNotFound);
      }
      if vi.None? {
        return Err(VehicleNotFound);
      }
      var invalid := Transactions.ValidateCustomerForPurchase(customers[ci.value]);
      if invalid.Some? {
        return Err(invalid.value);
      }
      if vehicles[vi.value].stock <= 0 {
        return Err(OutOfStock);
      }
      ResolveSucceeds(s0, input, ci.value, vi.value);
      var tx := CompletePurchase(ci.value, vi.value, input, gen, fmt);
      res := Ok(tx);
      if Transactions.Consistent(s0) && !HasVin(s0.vehicles, Transactions.TradeVin(gen.tradeClock))
         && !Transactions.IsTxId(s0.transactions, gen.txId) {
        Transactions.CreateTransactionKeepsConsistent(s0, input, gen, fmt);
      }
    }

    /** `createTransaction` once the lookups and checks have passed: record
        the sale, then build and store its invoice. */
    method CompletePurchase(ci: nat, vi: nat, input: Transactions.TxInput, gen: Transactions.Fresh, fmt: real -> string)
      returns (tx: Transaction)
      requires Transactions.Resolve(State(), input) == Ok((ci, vi))
      modifies this
      ensures var r := Transactions.CreateTransaction(old(State()), input, gen, fmt);
              r.Ok? && tx == r.value.1 && State() == r.value.0
    {
      ghost var s0 := State();
      Transactions.CreateTransactionSucceeds(s0, input, gen, fmt, ci, vi);
      tx := Transactions.NewTransaction(input, vehicles[vi], gen);
      RecordPurchase(ci, vi, input, tx, gen);
      StoreInvoice(tx, fmt);
    }

    /** Builds the invoice of a recorded transaction and files it under the
        transaction's identifier. */
    method StoreInvoice(tx: Transaction, fmt: real -> string)
      requires BuildInvoiceText(State(), tx, fmt).Ok?
      modifies this
      ensures State() == old(State()).(invoices := old(invoices)[tx.id := BuildInvoiceText(old(State()), tx, fmt).value])
    {
      var text := BuildInvoiceText(State(), tx, fmt);
      invoices := invoices[tx.id := text.value];
    }

    /** Steps 7 to 10 of `createTransaction`, in place: prepend the
        transaction, take one unit of stock, prepend the trade-in vehicle if
        there is one, prepend the customer's history entry. */
    method RecordPurchase(ci: nat, vi: nat, input: Transactions.TxInput, tx: Transaction, gen: Transactions.Fresh)
      requires ci < |customers| && vi < |vehicles| && tx.txType == input.txType
      modifies this
      ensures State() == Transactions.ApplyPurchase(old(State()), ci, vi, input, tx, gen)
    {
      ghost var s0 := State();
      var vehicle := vehicles[vi];
      var customer := customers[ci];
      transactions := [tx] + transactions;
      vehicles := vehicles[vi := vehicle.(stock := vehicle.stock - 1)];
      if tx.txType == TradeInType && input.tradeIn.Some? {
        vehicles := [Transactions.TradeInVehicle(input.tradeIn.value, gen)] + vehicles;
      }
      customers := customers[ci := customer.(txHistory := [Transactions.HistoryEntryOf(tx)] + customer.txHistory)];
      AfterPurchaseSteps(s0, State(), ci, vi, input, tx, gen);
    }

    /** The `delTx` action. */
    method DeleteTransaction(txId: string)
      modifies this
      ensures State() == Transactions.DeleteTransaction(old(State()), txId)
      ensures old(Valid()) ==> Valid()
    {
      if Valid() {
        Transactions.DeleteTransactionKeepsConsistent(State(), txId);
      }
      transactions := Filter(transactions, Transactions.OtherThan(txId));
      invoices := invoices - {txId};
    }

    /** The "clear invoices" button. */
    method ClearInvoices()
      modifies this
      ensures State() == Transactions.ClearInvoices(old(State()))
      ensures old(Valid()) ==> Valid()
    {
      if Valid() {
        Transactions.ClearInvoicesKeepsConsistent(State());
      }
      invoices := map[];
    }

    /** The discount form. */
    method SetDiscountRule(thresholdUSD: real, perkText: string)
      modifies this
      ensures State() == Transactions.SetDiscountRule(old(State()), thresholdUSD, perkText)
      ensures old(Valid()) ==> Valid()
    {
      if Valid() {
        Transactions.SetDiscountRuleKeepsConsistent(State(), thresholdUSD, perkText);
      }
      settings := settings.(discountRule := Some(DiscountRule(thresholdUSD, Trim(perkText))));
    }

    /** The accumulation loop of `renderReports`: the grand total and the
        per-salesperson entries, sorted largest first. */
    method SalesOverview() returns (grand: real, entries: Totals)
      ensures grand == SumFinal(transactions)
      ensures entries == SalesOverviewEntries(transactions)
    {
      var totals: Totals := [];
      grand := 0.0;
      var i := 0;
      while i < |transactions|
        invariant 0 <= i <= |transactions|
        invariant grand == SumFinal(transactions[..i])
        invariant totals == SalesTotals(transactions[..i])
      {
        var tx := transactions[i];
        assert transactions[..i + 1] == transactions[..i] + [tx];
        assert transactions[..i + 1][..i] == transactions[..i];
        SumFinalConcat(transactions[..i], [tx]);
        assert SumFinal([tx]) == tx.finalPurchaseUSD by {
          assert [tx][1..] == [];
        }
        grand := grand + tx.finalPurchaseUSD;
        totals := AddTo(totals, tx.salesperson, tx.finalPurchaseUSD);
        i := i + 1;
      }
      assert transactions[..i] == transactions;
      entries := SortByKey(totals, AmountDescending);
    }
  }

  lemma UpsertVehicleKeepsConsistent(s: Snapshot, input: Catalog.VehicleInput, freshId: string)
    requires Transactions.Consistent(s)
    ensures var r := Catalog.UpsertVehicle(s.vehicles, input, freshId);
            r.Ok? ==> Transactions.Consistent(s.(vehicles := r.value))
  {
    Catalog.UpsertVehicleKeepsVinsUnique(s.vehicles, input, freshId);
  }

  lemma UpsertCustomerKeepsConsistent(s: Snapshot, input: Catalog.CustomerInput, freshId: string)
    requires Transactions.Consistent(s)
    ensures var r := Catalog.UpsertCustomer(s.customers, input, freshId);
            r.Ok? ==> Transactions.Consistent(s.(customers := r.value))
  {
    Catalog.UpsertCustomerKeepsLicensesUnique(s.customers, input, freshId);
  }

  /** Checks that all pass resolve to the indices found. */
  lemma ResolveSucceeds(s: Snapshot, input: Transactions.TxInput, ci: nat, vi: nat)
    requires CustomerIndexById(s.customers, input.customerId) == Some(ci)
    requires VehicleIndexByVin(s.vehicles, input.vehicleVinBuy) == Some(vi)
    requires Transactions.ValidateCustomerForPurchase(s.customers[ci]).None? && s.vehicles[vi].stock > 0
    ensures Transactions.Resolve(s, input) == Ok((ci, vi))
  {
  }

  /** The in-place steps of the method give the state `ApplyPurchase`
      describes. */
  lemma AfterPurchaseSteps(s0: Snapshot, s: Snapshot, ci: nat, vi: nat, input: Transactions.TxInput, tx: Transaction, gen: Transactions.Fresh)
    requires ci < |s0.customers| && vi < |s0.vehicles|
    requires s.session == s0.session && s.invoices == s0.invoices && s.settings == s0.settings
    requires s.transactions == [tx] + s0.transactions
    requires var v := s0.vehicles[vi];
             var vs := s0.vehicles[vi := v.(stock := v.stock - 1)];
             s.vehicles == if tx.txType == TradeInType && input.tradeIn.Some?
                           then [Transactions.TradeInVehicle(input.tradeIn.value, gen)] + vs else vs
    requires var c := s0.customers[ci];
             s.customers == s0.customers[ci := c.(txHistory := [Transactions.HistoryEntryOf(tx)] + c.txHistory)]
    requires tx.txType == input.txType
    ensures s == Transactions.ApplyPurchase(s0, ci, vi, input, tx, gen)
  {
    var v := s0.vehicles[vi];
    var vs := s0.vehicles[vi := v.(stock := v.stock - 1)];
    if Transactions.AddsTradeInVehicle(input) {
      assert Transactions.TradeInFront(input, gen) == [Transactions.TradeInVehicle(input.tradeIn.value, gen)];
    } else {
      assert Transactions.TradeInFront(input, gen) + vs == vs;
    }
  }
}
