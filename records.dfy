/** The records of the dealership store, the store snapshot that is saved as
    one unit, and the errors its operations throw. */
module Records {
  import opened Wrappers
  import opened Seqs

  /** A catalog vehicle, keyed by its VIN. The identifier is optional because
      a record merged from a form without an identifier loses it. */
  datatype Vehicle = Vehicle(
    id: Option<string>,
    vin: string,
    make: string,
    model: string,
    year: int,
    category: string,
    condition: string,
    mileage: int,
    price: real,
    stock: int)

  /** The compact entry a purchase leaves in its customer's history. */
  datatype HistoryEntry = HistoryEntry(txId: string, date: string, txType: string, amountUSD: real)

  /** A customer, keyed by the driver's licence; history is most recent first. */
  datatype Customer = Customer(
    id: Option<string>,
    first: string,
    middle: string,
    last: string,
    address: string,
    phone1: string,
    phone2: string,
    license: string,
    creditScore: int,
    txHistory: seq<HistoryEntry>)

  /** The vehicle a customer hands in on a trade-in purchase. */
  datatype TradeIn = TradeIn(
    make: string,
    model: string,
    year: int,
    mileage: int,
    conditionNote: string,
    estimatedResaleUSD: real)

  datatype Transaction = Transaction(
    id: string,
    txType: string,
    date: string,
    customerId: string,
    salesperson: string,
    vehicleVinBuy: string,
    vehiclePriceUSD: real,
    tradeIn: Option<TradeIn>,
    tradeInValueUSD: real,
    finalPurchaseUSD: real,
    invoiceNo: string)

  datatype DiscountRule = DiscountRule(thresholdUSD: real, perkText: string)

  datatype Settings = Settings(discountRule: Option<DiscountRule>)

  datatype Session = Session(username: string, role: string)

  /** The whole store: what is loaded from and flushed to browser storage. */
  datatype Snapshot = Snapshot(
    session: Option<Session>,
    vehicles: seq<Vehicle>,
    customers: seq<Customer>,
    transactions: seq<Transaction>,
    invoices: map<string, string>,
    settings: Settings)

  /** The transaction type that carries a trade-in. */
  const TradeInType: string := "tradein"

  const DefaultDiscountRule: DiscountRule :=
    DiscountRule(50000.0, "Eligible for the monthly car wash discount (purchase over $50k).")

  const DefaultSettings: Settings := Settings(Some(DefaultDiscountRule))

  /** The store a first visit starts from. */
  const EmptySnapshot: Snapshot := Snapshot(None, [], [], [], map[], DefaultSettings)

  /** The errors the store's operations throw, one per message in the source. */
  datatype Error =
    | VinRequired
    | LicenseRequired
    | CustomerNotFound
    | VehicleNotFound
    | InvalidLicense
    | OutOfStock
    | InvoiceCustomerMissing
    | InvoiceVehicleMissing
  {
    function Message(): string {
      match this
      case VinRequired => "VIN is required."
      case LicenseRequired => "Driver's license is required."
      case CustomerNotFound => "Customer not found."
      case VehicleNotFound => "Vehicle not found."
      case InvalidLicense => "Customer must have a valid driver's license to purchase."
      case OutOfStock => "Vehicle is out of stock."
      case InvoiceCustomerMissing => "Invoice error: customer missing."
      case InvoiceVehicleMissing => "Invoice error: vehicle missing."
    }
  }

  /* ---- Keys ---- */

  predicate HasVin(vs: seq<Vehicle>, vin: string) {
    exists i :: 0 <= i < |vs| && vs[i].vin == vin
  }

  /** `customers.find(c => c.id === id)`, as an index. */
  function CustomerIndexById(cs: seq<Customer>, id: string): (r: Option<nat>)
    ensures r.Some? ==> r.value < |cs| && cs[r.value].id == Some(id)
    ensures r.Some? ==> forall j :: 0 <= j < r.value ==> cs[j].id != Some(id)
    ensures r.None? <==> forall j :: 0 <= j < |cs| ==> cs[j].id != Some(id)
  {
    FindIndex(cs, (c: Customer) => c.id == Some(id))
  }

  /** `vehicles.findIndex(v => v.vin === vin)`; the `find` of the same
      predicate is the vehicle at this index. */
  function VehicleIndexByVin(vs: seq<Vehicle>, vin: string): (r: Option<nat>)
    ensures r.Some? ==> r.value < |vs| && vs[r.value].vin == vin
    ensures r.Some? ==> forall j :: 0 <= j < r.value ==> vs[j].vin != vin
    ensures r.None? <==> !HasVin(vs, vin)
  {
    FindIndex(vs, (v: Vehicle) => v.vin == vin)
  }

  /** The first customer carrying the identifier is the one found. */
  lemma CustomerIndexAt(cs: seq<Customer>, id: string, k: nat)
    requires k < |cs| && cs[k].id == Some(id)
    requires forall j :: 0 <= j < k ==> cs[j].id != Some(id)
    ensures CustomerIndexById(cs, id) == Some(k)
  {
    var r := CustomerIndexById(cs, id);
    assert r.Some? && cs[r.value].id == Some(id);
  }

  /** The first vehicle carrying the VIN is the one found. */
  lemma VehicleIndexAt(vs: seq<Vehicle>, vin: string, k: nat)
    requires k < |vs| && vs[k].vin == vin
    requires forall j :: 0 <= j < k ==> vs[j].vin != vin
    ensures VehicleIndexByVin(vs, vin) == Some(k)
  {
    var r := VehicleIndexByVin(vs, vin);
    assert HasVin(vs, vin);
    assert vs[r.value].vin == vin;
  }

  /** No two vehicles share a VIN. */
  predicate VinsUnique(vs: seq<Vehicle>) {
    forall i, j :: 0 <= i < j < |vs| ==> vs[i].vin != vs[j].vin
  }

  /** No two customers share a licence. */
  predicate LicensesUnique(cs: seq<Customer>) {
    forall i, j :: 0 <= i < j < |cs| ==> cs[i].license != cs[j].license
  }

  /** Replacing a vehicle by one with the same VIN keeps VINs unique. */
  lemma ReplaceKeepsVinsUnique(vs: seq<Vehicle>, i: nat, v: Vehicle)
    requires i < |vs| && VinsUnique(vs) && v.vin == vs[i].vin
    ensures VinsUnique(vs[i := v])
  {
    var ws := vs[i := v];
    assert forall k :: 0 <= k < |vs| ==> ws[k].vin == vs[k].vin;
  }

  /** Appending a vehicle whose VIN is new keeps VINs unique. */
  lemma AppendKeepsVinsUnique(vs: seq<Vehicle>, v: Vehicle)
    requires VinsUnique(vs) && !HasVin(vs, v.vin)
    ensures VinsUnique(vs + [v])
  {
    var ws := vs + [v];
    forall i, j | 0 <= i < j < |ws| ensures ws[i].vin != ws[j].vin {
      assert ws[i] == vs[i];
      if j < |vs| {
        assert ws[j] == vs[j];
      }
    }
  }

  /** Replacing a customer by one with the same licence keeps licences
      unique. */
  lemma ReplaceKeepsLicensesUnique(cs: seq<Customer>, i: nat, c: Customer)
    requires i < |cs| && LicensesUnique(cs) && c.license == cs[i].license
    ensures LicensesUnique(cs[i := c])
  {
    var ds := cs[i := c];
    assert forall k :: 0 <= k < |cs| ==> ds[k].license == cs[k].license;
  }

  /** Appending a customer whose licence is new keeps licences unique. */
  lemma AppendKeepsLicensesUnique(cs: seq<Customer>, c: Customer)
    requires LicensesUnique(cs) && forall k :: 0 <= k < |cs| ==> cs[k].license != c.license
    ensures LicensesUnique(cs + [c])
  {
    var ds := cs + [c];
    forall i, j | 0 <= i < j < |ds| ensures ds[i].license != ds[j].license {
      assert ds[i] == cs[i];
      if j < |cs| {
        assert ds[j] == cs[j];
      }
    }
  }
}
