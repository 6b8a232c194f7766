/** The transaction engine `createTransaction` and the store edits made by
    the transaction list (delete one transaction), the invoice panel (clear
    all invoices) and the settings form (replace the discount rule). */
module Transactions {
  import opened Wrappers
  import opened Text
  import opened Seqs
  import opened Records
  import opened Catalog
  import opened Reports
  import opened Invoice

  /** What the transaction form submits. */
  datatype TxInput = TxInput(
    txType: string,
    date: string,
    customerId: string,
    salesperson: string,
    vehicleVinBuy: string,
    priceOverrideUSD: Option<real>,
    tradeInValueUSD: real,
    tradeIn: Option<TradeIn>)

  /** The values the source draws from `uid`, `Date.now()` and the calendar:
      the new transaction's identifier, the clock reading behind its invoice
      number, the trade-in vehicle's identifier, the clock reading behind its
      VIN, and the current year. */
  datatype Fresh = Fresh(txId: string, invoiceClock: nat, tradeVehicleId: string, tradeClock: nat, currentYear: int)

  /** `n.toString(36).toUpperCase()`. */
  function Base36Upper(n: nat): string {
    ToUpper(Radix(n, 36))
  }

  function InvoiceNumber(clock: nat): string {
    "INV-" + Base36Upper(clock)
  }

  function TradeVin(clock: nat): string {
    "TRADE-" + Base36Upper(clock)
  }

  lemma Base36UpperInjective(a: nat, b: nat)
    ensures Base36Upper(a) == Base36Upper(b) ==> a == b
  {
    RadixRoundTrip(a, 36);
    RadixRoundTrip(b, 36);
    ParseUpperRadix(Radix(a, 36), 36);
    ParseUpperRadix(Radix(b, 36), 36);
  }

  /** Two different clock readings never give the same invoice number, nor
      the same trade-in VIN. */
  lemma ClockDerivedKeysInjective(a: nat, b: nat)
    ensures InvoiceNumber(a) == InvoiceNumber(b) ==> a == b
    ensures TradeVin(a) == TradeVin(b) ==> a == b
  {
    Base36UpperInjective(a, b);
    if InvoiceNumber(a) == InvoiceNumber(b) {
      assert Base36Upper(a) == InvoiceNumber(a)[4..] && Base36Upper(b) == InvoiceNumber(b)[4..];
    }
    if TradeVin(a) == TradeVin(b) {
      assert Base36Upper(a) == TradeVin(a)[6..] && Base36Upper(b) == TradeVin(b)[6..];
    }
  }

  /** `validateCustomerForPurchase`: a licence of fewer than three characters
      after trimming (an empty one included) is refused. */
  function ValidateCustomerForPurchase(c: Customer): (r: Option<Error>)
    ensures r.None? <==> |Trim(c.license)| >= 3
    ensures r.Some? ==> r.value == InvalidLicense
  {
    if c.license == "" || |Trim(c.license)| < 3 then Some(InvalidLicense) else None
  }

  /** Steps 1 to 3: resolve the customer and the vehicle, then check the
      licence and the stock, in the source's order. */
  function Resolve(s: Snapshot, input: TxInput): (r: Result<(nat, nat), Error>)
    ensures r.Ok? ==> r.value.0 < |s.customers| && r.value.1 < |s.vehicles|
    ensures r.Ok? ==> CustomerIndexById(s.customers, input.customerId) == Some(r.value.0)
                      && VehicleIndexByVin(s.vehicles, input.vehicleVinBuy) == Some(r.value.1)
    ensures r.Ok? ==> s.vehicles[r.value.1].stock > 0 && |Trim(s.customers[r.value.0].license)| >= 3
  {
    var ci := CustomerIndexById(s.customers, input.customerId);
    var vi := VehicleIndexByVin(s.vehicles, input.vehicleVinBuy);
    if ci.None? then Err(CustomerNotFound)
    else if vi.None? then Err(VehicleNotFound)
    else if ValidateCustomerForPurchase(s.customers[ci.value]).Some? then Err(InvalidLicense)
    else if s.vehicles[vi.value].stock <= 0 then Err(OutOfStock)
    else Ok((ci.value, vi.value))
  }

  /** `txInput.priceOverrideUSD ?? Number(vehicle.price)`. */
  function VehiclePrice(input: TxInput, v: Vehicle): real {
    input.priceOverrideUSD.GetOr(v.price)
  }

  function TradeInValue(input: TxInput): real {
    if input.txType == TradeInType then input.tradeInValueUSD else 0.0
  }

  /** `Math.max(0, price - tradeIn)`. */
  function FinalPurchase(price: real, tradeIn: real): (r: real)
    ensures r >= 0.0 && r >= price - tradeIn
    ensures r == 0.0 || r == price - tradeIn
  {
    if price - tradeIn > 0.0 then price - tradeIn else 0.0
  }

  function NewTransaction(input: TxInput, v: Vehicle, gen: Fresh): Transaction {
    var price := VehiclePrice(input, v);
    var tradeIn := TradeInValue(input);
    Transaction(gen.txId, input.txType, input.date, input.customerId, input.salesperson, v.vin,
                price, if input.txType == TradeInType then input.tradeIn else None,
                tradeIn, FinalPurchase(price, tradeIn), InvoiceNumber(gen.invoiceClock))
  }

  /** The vehicle a trade-in adds to the catalog. */
  function TradeInVehicle(t: TradeIn, gen: Fresh): Vehicle {
    Vehicle(Some(gen.tradeVehicleId), TradeVin(gen.tradeClock),
            if t.make != "" then t.make else "Unknown",
            if t.model != "" then t.model else "Unknown",
            if t.year != 0 then t.year else gen.currentYear,
            "family", "trade-in", t.mileage, t.estimatedResaleUSD, 1)
  }

  function HistoryEntryOf(tx: Transaction): HistoryEntry {
    HistoryEntry(tx.id, tx.date, tx.txType, tx.finalPurchaseUSD)
  }

  /** Whether a trade-in vehicle is added to the catalog. */
  predicate AddsTradeInVehicle(input: TxInput) {
    input.txType == TradeInType && input.tradeIn.Some?
  }

  /** The vehicles a purchase prepends to the catalog: the trade-in vehicle,
      or none. */
  function TradeInFront(input: TxInput, gen: Fresh): (r: seq<Vehicle>)
    ensures |r| == if AddsTradeInVehicle(input) then 1 else 0
    ensures forall k :: 0 <= k < |r| ==> r[k] == TradeInVehicle(input.tradeIn.value, gen)
  {
    if AddsTradeInVehicle(input) then [TradeInVehicle(input.tradeIn.value, gen)] else []
  }

  /** Steps 7 to 10: prepend the transaction, take one unit of stock, prepend
      the trade-in vehicle if there is one, prepend the history entry. */
  function ApplyPurchase(s: Snapshot, ci: nat, vi: nat, input: TxInput, tx: Transaction, gen: Fresh): Snapshot
    requires ci < |s.customers| && vi < |s.vehicles|
  {
    var v := s.vehicles[vi];
    var vs := s.vehicles[vi := v.(stock := v.stock - 1)];
    var c := s.customers[ci];
    s.(transactions := [tx] + s.transactions,
       vehicles := TradeInFront(input, gen) + vs,
       customers := s.customers[ci := c.(txHistory := [HistoryEntryOf(tx)] + c.txHistory)])
  }

  /** Resolution reads only the customers and the vehicles. */
  lemma ResolveReadsCatalog(s: Snapshot, s': Snapshot, input: TxInput)
    requires s'.customers == s.customers && s'.vehicles == s.vehicles
    ensures Resolve(s', input) == Resolve(s, input)
  {
  }

  /** What steps 7 to 9 do to the catalog. */
  lemma ApplyPurchaseVehicles(s: Snapshot, ci: nat, vi: nat, input: TxInput, tx: Transaction, gen: Fresh)
    requires ci < |s.customers| && vi < |s.vehicles|
    ensures var vs := ApplyPurchase(s, ci, vi, input, tx, gen).vehicles;
            var shift := if AddsTradeInVehicle(input) then 1 else 0;
            |vs| == |s.vehicles| + shift
            && vs[vi + shift] == s.vehicles[vi].(stock := s.vehicles[vi].stock - 1)
            && (forall j :: 0 <= j < |s.vehicles| && j != vi ==> vs[j + shift] == s.vehicles[j])
            && (shift == 1 ==> vs[0] == TradeInVehicle(input.tradeIn.value, gen))
  {
    var v := s.vehicles[vi];
    var vs0 := s.vehicles[vi := v.(stock := v.stock - 1)];
    var vs := ApplyPurchase(s, ci, vi, input, tx, gen).vehicles;
    var front := TradeInFront(input, gen);
    assert vs == front + vs0;
    assert forall j :: 0 <= j < |vs0| ==> vs[j + |front|] == vs0[j];
  }

  /** What step 10 does to the customers. */
  lemma ApplyPurchaseCustomers(s: Snapshot, ci: nat, vi: nat, input: TxInput, tx: Transaction, gen: Fresh)
    requires ci < |s.customers| && vi < |s.vehicles|
    ensures var cs := ApplyPurchase(s, ci, vi, input, tx, gen).customers;
            |cs| == |s.customers|
            && cs[ci] == s.customers[ci].(txHistory := [HistoryEntryOf(tx)] + s.customers[ci].txHistory)
            && (forall j :: 0 <= j < |s.customers| && j != ci ==> cs[j] == s.customers[j])
  {
  }

  /** Steps 1 to 10 of `createTransaction`: everything but the invoice. */
  function Purchase(s: Snapshot, input: TxInput, gen: Fresh): (r: Result<(Snapshot, Transaction), Error>)
    ensures r.Err? <==> Resolve(s, input).Err?
    ensures r.Err? ==> r.error == Resolve(s, input).error
    ensures r.Ok? ==> r.value.0.invoices == s.invoices && r.value.0.session == s.session
                      && r.value.0.settings == s.settings
  {
    match Resolve(s, input)
    case Err(e) => Err(e)
    case Ok((ci, vi)) =>
      var tx := NewTransaction(input, s.vehicles[vi], gen);
      Ok((ApplyPurchase(s, ci, vi, input, tx, gen), tx))
  }

  /** The referents of a transaction just applied are both in the store, so
      its first invoice cannot fail. */
  lemma PurchaseLeavesInvoiceResolvable(s: Snapshot, input: TxInput, gen: Fresh)
    requires Purchase(s, input, gen).Ok?
    ensures var (s1, tx) := Purchase(s, input, gen).value;
            CustomerIndexById(s1.customers, tx.customerId).Some? && HasVin(s1.vehicles, tx.vehicleVinBuy)
  {
    var (ci, vi) := Resolve(s, input).value;
    var (s1, tx) := Purchase(s, input, gen).value;
    assert s1.customers[ci].id == Some(tx.customerId);
    var k := if AddsTradeInVehicle(input) then vi + 1 else vi;
    assert s1.vehicles[k].vin == tx.vehicleVinBuy;
  }

  /** `createTransaction`: on success the new store and the transaction. */
  function CreateTransaction(s: Snapshot, input: TxInput, gen: Fresh, fmt: real -> string): (r: Result<(Snapshot, Transaction), Error>)
    ensures r.Err? <==> Purchase(s, input, gen).Err?
    ensures r.Err? ==> r.error == Purchase(s, input, gen).error
    ensures r.Ok? ==> var (s1, tx) := Purchase(s, input, gen).value;
                      r.value.1 == tx && r.value.0 == s1.(invoices := r.value.0.invoices)
                      && BuildInvoiceText(s1, tx, fmt).Ok?
                      && r.value.0.invoices == s1.invoices[tx.id := BuildInvoiceText(s1, tx, fmt).value]
  {
    match Purchase(s, input, gen)
    case Err(e) => Err(e)
    case Ok((s1, tx)) =>
      PurchaseLeavesInvoiceResolvable(s, input, gen);
      var text := BuildInvoiceText(s1, tx, fmt).value;
      Ok((s1.(invoices := s1.invoices[tx.id := text]), tx))
  }

  lemma ResolveErrors(s: Snapshot, input: TxInput)
    ensures var r := Resolve(s, input);
            var ci := CustomerIndexById(s.customers, input.customerId);
            var vi := VehicleIndexByVin(s.vehicles, input.vehicleVinBuy);
            (ci.None? ==> r == Err(CustomerNotFound))
            && (ci.Some? && vi.None? ==> r == Err(VehicleNotFound))
            && (ci.Some? && vi.Some? && |Trim(s.customers[ci.value].license)| < 3 ==> r == Err(InvalidLicense))
            && ((ci.Some? && vi.Some? && |Trim(s.customers[ci.value].license)| >= 3
                 && s.vehicles[vi.value].stock <= 0) ==> r == Err(OutOfStock))
            && ((ci.Some? && vi.Some? && |Trim(s.customers[ci.value].license)| >= 3
                 && s.vehicles[vi.value].stock > 0) ==> r.Ok?)
  {
  }

  /** A purchase that resolves succeeds with the state of steps 7 to 10
      plus its invoice. */
  lemma CreateTransactionSucceeds(s: Snapshot, input: TxInput, gen: Fresh, fmt: real -> string, ci: nat, vi: nat)
    requires Resolve(s, input) == Ok((ci, vi))
    ensures var tx := NewTransaction(input, s.vehicles[vi], gen);
            var s1 := ApplyPurchase(s, ci, vi, input, tx, gen);
            BuildInvoiceText(s1, tx, fmt).Ok?
            && CreateTransaction(s, input, gen, fmt) == Ok((s1.(invoices := s1.invoices[tx.id := BuildInvoiceText(s1, tx, fmt).value]), tx))
  {
    var tx := NewTransaction(input, s.vehicles[vi], gen);
    var s1 := ApplyPurchase(s, ci, vi, input, tx, gen);
    assert Purchase(s, input, gen) == Ok((s1, tx));
    var r := CreateTransaction(s, input, gen, fmt);
    assert r.Ok? && r.value.1 == tx;
    var s' := s1.(invoices := s1.invoices[tx.id := BuildInvoiceText(s1, tx, fmt).value]);
    assert r.value.0 == s';
    assert r.value == (s', tx);
  }

  /** The four ways a purchase is refused, checked in this order, and nothing
      else refuses it. */
  lemma CreateTransactionErrors(s: Snapshot, input: TxInput, gen: Fresh, fmt: real -> string)
    ensures var r := CreateTransaction(s, input, gen, fmt);
            var ci := CustomerIndexById(s.customers, input.customerId);
            var vi := VehicleIndexByVin(s.vehicles, input.vehicleVinBuy);
            (ci.None? ==> r == Err(CustomerNotFound))
            && (ci.Some? && vi.None? ==> r == Err(VehicleNotFound))
            && (ci.Some? && vi.Some? && |Trim(s.customers[ci.value].license)| < 3 ==> r == Err(InvalidLicense))
            && ((ci.Some? && vi.Some? && |Trim(s.customers[ci.value].license)| >= 3
                 && s.vehicles[vi.value].stock <= 0) ==> r == Err(OutOfStock))
            && ((ci.Some? && vi.Some? && |Trim(s.customers[ci.value].license)| >= 3
                 && s.vehicles[vi.value].stock > 0) ==> r.Ok?)
  {
    ResolveErrors(s, input);
  }

  /** The recorded transaction: its price is the override or the catalog
      price, its trade-in value is zero unless it is a trade-in, and its final
      amount is `max(0, price - tradeIn)`, never negative. */
  lemma CreateTransactionPricing(s: Snapshot, input: TxInput, gen: Fresh, fmt: real -> string)
    ensures var r := CreateTransaction(s, input, gen, fmt);
            r.Ok? ==>
              var tx := r.value.1;
              var v := s.vehicles[VehicleIndexByVin(s.vehicles, input.vehicleVinBuy).value];
              tx.vehiclePriceUSD == (if input.priceOverrideUSD.Some? then input.priceOverrideUSD.value else v.price)
              && tx.tradeInValueUSD == (if input.txType == TradeInType then input.tradeInValueUSD else 0.0)
              && tx.finalPurchaseUSD >= 0.0
              && tx.finalPurchaseUSD == (if tx.vehiclePriceUSD > tx.tradeInValueUSD then tx.vehiclePriceUSD - tx.tradeInValueUSD else 0.0)
              && tx.id == gen.txId && tx.invoiceNo == InvoiceNumber(gen.invoiceClock)
              && tx.vehicleVinBuy == v.vin && tx.customerId == input.customerId
              && tx.salesperson == input.salesperson && tx.date == input.date && tx.txType == input.txType
              && tx.tradeIn == (if input.txType == TradeInType then input.tradeIn else None)
  {
    var r := CreateTransaction(s, input, gen, fmt);
    if r.Ok? {
      var (ci, vi) := Resolve(s, input).value;
      assert r.value.1 == NewTransaction(input, s.vehicles[vi], gen);
    }
  }

  /** On success: the transaction is the new head of the list; the purchased
      vehicle has exactly one unit less and no negative stock; a trade-in with
      details prepends exactly one vehicle (stock 1, condition "trade-in",
      category "family"); every other vehicle is unchanged. */
  lemma CreateTransactionInventory(s: Snapshot, input: TxInput, gen: Fresh, fmt: real -> string)
    ensures var r := CreateTransaction(s, input, gen, fmt);
            r.Ok? ==>
              var s' := r.value.0;
              var tx := r.value.1;
              var vi := VehicleIndexByVin(s.vehicles, input.vehicleVinBuy).value;
              var shift := if AddsTradeInVehicle(input) then 1 else 0;
              s'.transactions == [tx] + s.transactions
              && |s'.vehicles| == |s.vehicles| + shift
              && s'.vehicles[vi + shift] == s.vehicles[vi].(stock := s.vehicles[vi].stock - 1)
              && s'.vehicles[vi + shift].stock >= 0
              && (forall j :: 0 <= j < |s.vehicles| && j != vi ==> s'.vehicles[j + shift] == s.vehicles[j])
              && (shift == 1 ==> var t := s'.vehicles[0];
                                 t == TradeInVehicle(input.tradeIn.value, gen)
                                 && t.stock == 1 && t.condition == "trade-in" && t.category == "family"
                                 && t.vin == TradeVin(gen.tradeClock))
  {
    var r := CreateTransaction(s, input, gen, fmt);
    if r.Ok? {
      var (ci, vi) := Resolve(s, input).value;
      var (s1, tx) := Purchase(s, input, gen).value;
      assert tx == NewTransaction(input, s.vehicles[vi], gen);
      assert s1 == ApplyPurchase(s, ci, vi, input, tx, gen);
      assert r.value.0.vehicles == s1.vehicles && r.value.0.transactions == s1.transactions;
      ApplyPurchaseVehicles(s, ci, vi, input, tx, gen);
    }
  }

  /** On success: the buying customer gains exactly one history entry, at the
      front, carrying the final amount; no other customer changes. */
  lemma CreateTransactionHistory(s: Snapshot, input: TxInput, gen: Fresh, fmt: real -> string)
    ensures var r := CreateTransaction(s, input, gen, fmt);
            r.Ok? ==>
              var s' := r.value.0;
              var tx := r.value.1;
              var ci := CustomerIndexById(s.customers, input.customerId).value;
              |s'.customers| == |s.customers|
              && s'.customers[ci] == s.customers[ci].(txHistory := s'.customers[ci].txHistory)
              && s'.customers[ci].txHistory == [HistoryEntry(tx.id, tx.date, tx.txType, tx.finalPurchaseUSD)] + s.customers[ci].txHistory
              && (forall j :: 0 <= j < |s.customers| && j != ci ==> s'.customers[j] == s.customers[j])
  {
    var r := CreateTransaction(s, input, gen, fmt);
    if r.Ok? {
      var (ci, vi) := Resolve(s, input).value;
      var (s1, tx) := Purchase(s, input, gen).value;
      assert tx == NewTransaction(input, s.vehicles[vi], gen);
      assert s1 == ApplyPurchase(s, ci, vi, input, tx, gen);
      assert r.value.0.customers == s1.customers;
    }
  }

  /** On success: the invoice stored under the transaction's identifier is
      what building it from the new store gives; no other invoice, the
      session and the settings are untouched. */
  lemma CreateTransactionInvoice(s: Snapshot, input: TxInput, gen: Fresh, fmt: real -> string)
    ensures var r := CreateTransaction(s, input, gen, fmt);
            r.Ok? ==>
              var s' := r.value.0;
              var tx := r.value.1;
              tx.id in s'.invoices
              && BuildInvoiceText(s', tx, fmt) == Ok(s'.invoices[tx.id])
              && (forall k :: k in s.invoices && k != tx.id ==> k in s'.invoices && s'.invoices[k] == s.invoices[k])
              && s'.invoices.Keys == s.invoices.Keys + {tx.id}
              && s'.session == s.session && s'.settings == s.settings
  {
    var r := CreateTransaction(s, input, gen, fmt);
    if r.Ok? {
      var s1 := Purchase(s, input, gen).value.0;
      var tx := r.value.1;
      var s' := r.value.0;
      var text := BuildInvoiceText(s1, tx, fmt).value;
      assert s'.invoices == s.invoices[tx.id := text];
      assert s'.customers == s1.customers && s'.vehicles == s1.vehicles && s'.settings == s1.settings;
      InvoiceIgnoresInvoices(s1, s', tx, fmt);
    }
  }

  /** Updating a customer's history does not change which customer an
      identifier finds. */
  lemma HistoryUpdateKeepsIndex(cs: seq<Customer>, ci: nat, h: seq<HistoryEntry>, id: string)
    requires ci < |cs| && CustomerIndexById(cs, id) == Some(ci)
    ensures CustomerIndexById(cs[ci := cs[ci].(txHistory := h)], id) == Some(ci)
  {
    var ds := cs[ci := cs[ci].(txHistory := h)];
    forall j | 0 <= j < ci ensures ds[j].id != Some(id) {
      assert ds[j] == cs[j];
    }
    CustomerIndexAt(ds, id, ci);
  }

  /** Changing a vehicle's stock and prepending vehicles with other VINs
      moves the first vehicle with a VIN by the number prepended. */
  lemma StockUpdateKeepsIndex(vs: seq<Vehicle>, vi: nat, stock: int, front: seq<Vehicle>, vin: string)
    requires vi < |vs| && VehicleIndexByVin(vs, vin) == Some(vi)
    requires forall k :: 0 <= k < |front| ==> front[k].vin != vin
    ensures VehicleIndexByVin(front + vs[vi := vs[vi].(stock := stock)], vin) == Some(|front| + vi)
  {
    var ws := front + vs[vi := vs[vi].(stock := stock)];
    forall j | 0 <= j < |front| + vi ensures ws[j].vin != vin {
      if j >= |front| {
        assert ws[j] == vs[j - |front|];
      }
    }
    VehicleIndexAt(ws, vin, |front| + vi);
  }

  /** The purchased vehicle is still the first with its VIN afterwards. */
  lemma ApplyPurchaseKeepsVehicleIndex(s: Snapshot, ci: nat, vi: nat, input: TxInput, tx: Transaction, gen: Fresh)
    requires ci < |s.customers| && vi < |s.vehicles|
    requires VehicleIndexByVin(s.vehicles, input.vehicleVinBuy) == Some(vi)
    requires AddsTradeInVehicle(input) ==> TradeVin(gen.tradeClock) != input.vehicleVinBuy
    ensures var shift := if AddsTradeInVehicle(input) then 1 else 0;
            VehicleIndexByVin(ApplyPurchase(s, ci, vi, input, tx, gen).vehicles, input.vehicleVinBuy) == Some(vi + shift)
  {
    var v := s.vehicles[vi];
    StockUpdateKeepsIndex(s.vehicles, vi, v.stock - 1, TradeInFront(input, gen), input.vehicleVinBuy);
  }

  lemma ApplyPurchaseEmptiesLastUnit(s: Snapshot, ci: nat, vi: nat, input: TxInput, tx: Transaction, gen: Fresh, again: TxInput)
    requires ci < |s.customers| && vi < |s.vehicles|
    requires CustomerIndexById(s.customers, input.customerId) == Some(ci)
    requires VehicleIndexByVin(s.vehicles, input.vehicleVinBuy) == Some(vi)
    requires |Trim(s.customers[ci].license)| >= 3 && s.vehicles[vi].stock == 1
    requires AddsTradeInVehicle(input) ==> TradeVin(gen.tradeClock) != input.vehicleVinBuy
    requires again.customerId == input.customerId && again.vehicleVinBuy == input.vehicleVinBuy
    ensures Resolve(ApplyPurchase(s, ci, vi, input, tx, gen), again) == Err(OutOfStock)
  {
    var s1 := ApplyPurchase(s, ci, vi, input, tx, gen);
    var shift := if AddsTradeInVehicle(input) then 1 else 0;
    ApplyPurchaseVehicles(s, ci, vi, input, tx, gen);
    ApplyPurchaseKeepsVehicleIndex(s, ci, vi, input, tx, gen);
    HistoryUpdateKeepsIndex(s.customers, ci, [HistoryEntryOf(tx)] + s.customers[ci].txHistory, input.customerId);
    assert s1.customers[ci].license == s.customers[ci].license;
    assert s1.vehicles[vi + shift].stock == 0;
  }

  /** After the purchase of a last unit, resolving the same customer and VIN
      again ends at the stock check. */
  lemma PurchaseEmptiesLastUnit(s: Snapshot, input: TxInput, gen: Fresh, again: TxInput)
    requires Resolve(s, input).Ok? && s.vehicles[Resolve(s, input).value.1].stock == 1
    requires AddsTradeInVehicle(input) ==> TradeVin(gen.tradeClock) != input.vehicleVinBuy
    requires again.customerId == input.customerId && again.vehicleVinBuy == input.vehicleVinBuy
    ensures Resolve(Purchase(s, input, gen).value.0, again) == Err(OutOfStock)
  {
    var ci := Resolve(s, input).value.0;
    var vi := Resolve(s, input).value.1;
    var tx := NewTransaction(input, s.vehicles[vi], gen);
    assert Purchase(s, input, gen).value.0 == ApplyPurchase(s, ci, vi, input, tx, gen);
    ApplyPurchaseEmptiesLastUnit(s, ci, vi, input, tx, gen, again);
  }

  /** A vehicle with one unit left can be sold once: the next purchase of
      the same VIN by the same customer is refused as out of stock (unless
      the trade-in vehicle just added happens to carry that VIN). */
  lemma LastUnitSellsOnce(s: Snapshot, input: TxInput, gen: Fresh, fmt: real -> string, again: TxInput, gen2: Fresh)
    requires Resolve(s, input).Ok? && s.vehicles[Resolve(s, input).value.1].stock == 1
    requires AddsTradeInVehicle(input) ==> TradeVin(gen.tradeClock) != input.vehicleVinBuy
    requires again.customerId == input.customerId && again.vehicleVinBuy == input.vehicleVinBuy
    ensures CreateTransaction(CreateTransaction(s, input, gen, fmt).value.0, again, gen2, fmt) == Err(OutOfStock)
  {
    PurchaseEmptiesLastUnit(s, input, gen, again);
    var s1 := Purchase(s, input, gen).value.0;
    var s' := CreateTransaction(s, input, gen, fmt).value.0;
    assert s'.customers == s1.customers && s'.vehicles == s1.vehicles;
    ResolveReadsCatalog(s1, s', again);
  }

  /* ---- Store invariant ---- */

  /** The recorded amounts obey the pricing rule. */
  predicate PricedCorrectly(tx: Transaction) {
    tx.finalPurchaseUSD == FinalPurchase(tx.vehiclePriceUSD, tx.tradeInValueUSD)
  }

  predicate AllPriced(txs: seq<Transaction>) {
    forall i :: 0 <= i < |txs| ==> PricedCorrectly(txs[i])
  }

  predicate IsTxId(txs: seq<Transaction>, id: string) {
    exists i :: 0 <= i < |txs| && txs[i].id == id
  }

  predicate TxIdsUnique(txs: seq<Transaction>) {
    forall i, j :: 0 <= i < j < |txs| ==> txs[i].id != txs[j].id
  }

  /** Every stored invoice belongs to a recorded transaction. */
  predicate InvoicesRecorded(s: Snapshot) {
    forall k :: k in s.invoices ==> IsTxId(s.transactions, k)
  }

  /** What the store keeps true: unique VINs, unique licences, unique
      transaction identifiers, every transaction priced by the rule (so every
      final amount is non-negative), and no invoice without its transaction. */
  predicate Consistent(s: Snapshot) {
    VinsUnique(s.vehicles) && LicensesUnique(s.customers)
    && AllPriced(s.transactions) && TxIdsUnique(s.transactions) && InvoicesRecorded(s)
  }

  /** Every final amount of a consistent store is non-negative. */
  lemma ConsistentAmountsNonNegative(s: Snapshot, i: nat)
    requires Consistent(s) && i < |s.transactions|
    ensures s.transactions[i].finalPurchaseUSD >= 0.0
  {
    assert PricedCorrectly(s.transactions[i]);
  }

  lemma PrependKeepsTxIds(txs: seq<Transaction>, tx: Transaction)
    requires TxIdsUnique(txs) && !IsTxId(txs, tx.id)
    ensures TxIdsUnique([tx] + txs)
    ensures forall k :: IsTxId([tx] + txs, k) <==> IsTxId(txs, k) || k == tx.id
  {
    var us := [tx] + txs;
    forall i, j | 0 <= i < j < |us| ensures us[i].id != us[j].id {
      assert us[j] == txs[j - 1];
      if i > 0 {
        assert us[i] == txs[i - 1];
      }
    }
    forall k ensures IsTxId(us, k) <==> IsTxId(txs, k) || k == tx.id {
      if IsTxId(txs, k) {
        var i :| 0 <= i < |txs| && txs[i].id == k;
        assert us[i + 1] == txs[i];
      }
      if IsTxId(us, k) && k != tx.id {
        var i :| 0 <= i < |us| && us[i].id == k;
        assert us[i] == txs[i - 1];
      }
      assert us[0] == tx;
    }
  }

  lemma ConsistentEmpty()
    ensures Consistent(EmptySnapshot)
  {
  }

  lemma StockUpdateKeepsVinsUnique(vs: seq<Vehicle>, i: nat, stock: int)
    requires i < |vs| && VinsUnique(vs)
    ensures VinsUnique(vs[i := vs[i].(stock := stock)])
  {
    var ws := vs[i := vs[i].(stock := stock)];
    assert forall k :: 0 <= k < |vs| ==> ws[k].vin == vs[k].vin;
  }

  lemma PrependKeepsVinsUnique(vs: seq<Vehicle>, v: Vehicle)
    requires VinsUnique(vs) && !HasVin(vs, v.vin)
    ensures VinsUnique([v] + vs)
  {
    var ws := [v] + vs;
    forall i, j | 0 <= i < j < |ws| ensures ws[i].vin != ws[j].vin {
      assert ws[j] == vs[j - 1];
      if i > 0 {
        assert ws[i] == vs[i - 1];
      }
    }
  }

  lemma HistoryUpdateKeepsLicensesUnique(cs: seq<Customer>, i: nat, h: seq<HistoryEntry>)
    requires i < |cs| && LicensesUnique(cs)
    ensures LicensesUnique(cs[i := cs[i].(txHistory := h)])
  {
    var ds := cs[i := cs[i].(txHistory := h)];
    assert forall k :: 0 <= k < |cs| ==> ds[k].license == cs[k].license;
  }

  lemma PurchaseKeepsConsistent(s: Snapshot, input: TxInput, gen: Fresh)
    requires Consistent(s)
    requires !HasVin(s.vehicles, TradeVin(gen.tradeClock)) && !IsTxId(s.transactions, gen.txId)
    ensures Purchase(s, input, gen).Ok? ==>
              var s1 := Purchase(s, input, gen).value.0;
              VinsUnique(s1.vehicles) && LicensesUnique(s1.customers) && AllPriced(s1.transactions)
              && TxIdsUnique(s1.transactions)
              && forall k :: IsTxId(s1.transactions, k) <==> IsTxId(s.transactions, k) || k == gen.txId
  {
    if Purchase(s, input, gen).Ok? {
      var (ci, vi) := Resolve(s, input).value;
      var tx := NewTransaction(input, s.vehicles[vi], gen);
      var s1 := ApplyPurchase(s, ci, vi, input, tx, gen);
      assert Purchase(s, input, gen).value.0 == s1;
      var vs := s.vehicles[vi := s.vehicles[vi].(stock := s.vehicles[vi].stock - 1)];
      StockUpdateKeepsVinsUnique(s.vehicles, vi, s.vehicles[vi].stock - 1);
      if AddsTradeInVehicle(input) {
        var t := TradeInVehicle(input.tradeIn.value, gen);
        assert s1.vehicles == [t] + vs;
        forall k | 0 <= k < |vs| ensures vs[k].vin != t.vin {
          assert vs[k].vin == s.vehicles[k].vin;
        }
        PrependKeepsVinsUnique(vs, t);
      } else {
        assert s1.vehicles == vs;
      }
      var h := [HistoryEntryOf(tx)] + s.customers[ci].txHistory;
      assert s1.customers == s.customers[ci := s.customers[ci].(txHistory := h)];
      HistoryUpdateKeepsLicensesUnique(s.customers, ci, h);
      assert s1.transactions == [tx] + s.transactions;
      PrependKeepsTxIds(s.transactions, tx);
      forall i | 0 <= i < |s1.transactions| ensures PricedCorrectly(s1.transactions[i]) {
        if i > 0 {
          assert s1.transactions[i] == s.transactions[i - 1];
        }
      }
    }
  }

  /** A purchase keeps the store consistent as long as the identifier and
      the trade-in VIN it is given are not in use. */
  lemma CreateTransactionKeepsConsistent(s: Snapshot, input: TxInput, gen: Fresh, fmt: real -> string)
    requires Consistent(s)
    requires !HasVin(s.vehicles, TradeVin(gen.tradeClock)) && !IsTxId(s.transactions, gen.txId)
    ensures var r := CreateTransaction(s, input, gen, fmt);
            r.Ok? ==> Consistent(r.value.0)
  {
    PurchaseKeepsConsistent(s, input, gen);
    var r := CreateTransaction(s, input, gen, fmt);
    if r.Ok? {
      var s1 := Purchase(s, input, gen).value.0;
      var s' := r.value.0;
      assert s'.vehicles == s1.vehicles && s'.customers == s1.customers && s'.transactions == s1.transactions;
      assert r.value.1.id == gen.txId by {
        CreateTransactionPricing(s, input, gen, fmt);
      }
      forall k | k in s'.invoices ensures IsTxId(s'.transactions, k) {
        if k != gen.txId {
          assert k in s.invoices;
        }
      }
    }
  }

  /** A successful purchase adds its final amount to its salesperson's total
      for its month, and to no other total. */
  lemma CreateTransactionMonthlySales(s: Snapshot, input: TxInput, gen: Fresh, fmt: real -> string, username: string, yyyyMM: string)
    ensures var r := CreateTransaction(s, input, gen, fmt);
            r.Ok? ==>
              var tx := r.value.1;
              MonthlySales(r.value.0.transactions, username, yyyyMM)
                == MonthlySales(s.transactions, username, yyyyMM)
                   + (if InMonthFor(tx, username, yyyyMM) then tx.finalPurchaseUSD else 0.0)
  {
    var r := CreateTransaction(s, input, gen, fmt);
    if r.Ok? {
      CreateTransactionInventory(s, input, gen, fmt);
      MonthlySalesConcat([r.value.1], s.transactions, username, yyyyMM);
      MonthlySalesSingle(r.value.1, username, yyyyMM);
    }
  }

  /* ---- Edits made by the user interface ---- */

  /** The `delTx` action: drop the transaction and its invoice. Stock and
      customer histories are not restored. */
  function OtherThan(txId: string): Transaction -> bool {
    (t: Transaction) => t.id != txId
  }

  function DeleteTransaction(s: Snapshot, txId: string): Snapshot {
    s.(transactions := Filter(s.transactions, OtherThan(txId)),
       invoices := s.invoices - {txId})
  }

  lemma DeleteTransactionSpec(s: Snapshot, txId: string)
    ensures var s' := DeleteTransaction(s, txId);
            (forall t :: t in s'.transactions <==> t in s.transactions && t.id != txId)
            && IsSubsequence(s'.transactions, s.transactions)
            && txId !in s'.invoices
            && (forall k :: k in s.invoices && k != txId ==> k in s'.invoices && s'.invoices[k] == s.invoices[k])
            && s'.vehicles == s.vehicles && s'.customers == s.customers
            && s'.settings == s.settings && s'.session == s.session
  {
    var p := OtherThan(txId);
    forall t ensures t in Filter(s.transactions, p) <==> t in s.transactions && t.id != txId {
      FilterMembers(s.transactions, p, t);
    }
    FilterIsSubsequence(s.transactions, p);
  }

  lemma {:induction false} FilterKeepsTxIdsUnique(txs: seq<Transaction>, p: Transaction -> bool)
    requires TxIdsUnique(txs)
    ensures TxIdsUnique(Filter(txs, p))
    decreases |txs|
  {
    if txs != [] {
      FilterKeepsTxIdsUnique(txs[1..], p);
      var rest := Filter(txs[1..], p);
      if p(txs[0]) {
        var f := Filter(txs, p);
        assert f == [txs[0]] + rest;
        forall i | 0 <= i < |rest| ensures rest[i].id != txs[0].id {
          FilterMembers(txs[1..], p, rest[i]);
          var j :| 0 <= j < |txs[1..]| && txs[1..][j] == rest[i];
          assert txs[j + 1] == rest[i];
        }
        forall i, j | 0 <= i < j < |f| ensures f[i].id != f[j].id {
          assert f[j] == rest[j - 1];
          if i > 0 {
            assert f[i] == rest[i - 1];
          }
        }
      }
    }
  }

  /** Deleting a transaction keeps the store consistent. */
  lemma DeleteTransactionKeepsConsistent(s: Snapshot, txId: string)
    requires Consistent(s)
    ensures Consistent(DeleteTransaction(s, txId))
  {
    var p := OtherThan(txId);
    var f := Filter(s.transactions, p);
    forall i | 0 <= i < |f| ensures PricedCorrectly(f[i]) {
      FilterMembers(s.transactions, p, f[i]);
    }
    FilterKeepsTxIdsUnique(s.transactions, p);
    forall k | k in s.invoices - {txId} ensures IsTxId(f, k) {
      var i :| 0 <= i < |s.transactions| && s.transactions[i].id == k;
      FilterMembers(s.transactions, p, s.transactions[i]);
      var j :| 0 <= j < |f| && f[j] == s.transactions[i];
    }
  }

  /** The "clear invoices" button. */
  function ClearInvoices(s: Snapshot): (r: Snapshot)
    ensures r.invoices == map[]
    ensures r == s.(invoices := map[])
  {
    s.(invoices := map[])
  }

  /** The discount form: the rule is replaced wholesale, perk text trimmed. */
  function SetDiscountRule(s: Snapshot, thresholdUSD: real, perkText: string): (r: Snapshot)
    ensures r.settings.discountRule == Some(DiscountRule(thresholdUSD, Trim(perkText)))
    ensures r == s.(settings := r.settings)
  {
    s.(settings := s.settings.(discountRule := Some(DiscountRule(thresholdUSD, Trim(perkText)))))
  }

  /** Clearing the invoices keeps the store consistent. */
  lemma ClearInvoicesKeepsConsistent(s: Snapshot)
    requires Consistent(s)
    ensures Consistent(ClearInvoices(s))
  {
    var r := ClearInvoices(s);
    assert r.vehicles == s.vehicles && r.customers == s.customers && r.transactions == s.transactions;
  }

  /** Replacing the discount rule keeps the store consistent. */
  lemma SetDiscountRuleKeepsConsistent(s: Snapshot, thresholdUSD: real, perkText: string)
    requires Consistent(s)
    ensures Consistent(SetDiscountRule(s, thresholdUSD, perkText))
  {
    var r := SetDiscountRule(s, thresholdUSD, perkText);
    assert r.vehicles == s.vehicles && r.customers == s.customers;
    assert r.transactions == s.transactions && r.invoices == s.invoices;
  }
}
