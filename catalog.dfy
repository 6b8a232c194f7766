/** Catalog operations: insert-or-update and delete for vehicles (keyed by
    the trimmed VIN) and customers (keyed by the trimmed driver's licence). */
module Catalog {
  import opened Wrappers
  import opened Text
  import opened Seqs
  import opened Records

  /** What the vehicle form submits: every field, the identifier only when
      the record was opened for editing. */
  datatype VehicleInput = VehicleInput(
    id: Option<string>,
    vin: string,
    make: string,
    model: string,
    year: int,
    category: string,
    condition: string,
    mileage: int,
    price: real,
    stock: int)

  /** What the customer form submits; it has no history field. */
  datatype CustomerInput = CustomerInput(
    id: Option<string>,
    first: string,
    middle: string,
    last: string,
    address: string,
    phone1: string,
    phone2: string,
    license: string,
    creditScore: int)

  /* ---- Vehicles ---- */

  /** `{ ...existing, ...input, vin }` as JavaScript evaluates it: every key
      of the input wins, the identifier included, even when it is undefined. */
  function MergeVehicleAsWritten(existing: Vehicle, input: VehicleInput, vin: string): Vehicle {
    Vehicle(input.id, vin, input.make, input.model, input.year, input.category,
            input.condition, input.mileage, input.price, input.stock)
  }

  /** The merge with the identifier the input does not carry kept from the
      stored record. */
  function MergeVehicle(existing: Vehicle, input: VehicleInput, vin: string): (r: Vehicle)
    ensures r.id == if input.id.Some? then input.id else existing.id
  {
    Vehicle(if input.id.Some? then input.id else existing.id, vin, input.make, input.model,
            input.year, input.category, input.condition, input.mileage, input.price, input.stock)
  }

  /** Re-entering a known VIN through the blank vehicle form (no identifier)
      erases the stored vehicle's identifier; the corrected merge keeps it. */
  lemma MergeVehicleAsWrittenLosesIdentity(v: Vehicle, input: VehicleInput)
    requires v.id.Some? && input.id.None?
    ensures MergeVehicleAsWritten(v, input, v.vin).id.None?
    ensures MergeVehicleAsWritten(v, input, v.vin).id != v.id
    ensures MergeVehicle(v, input, v.vin).id == v.id
  {
  }

  /** `{ ...input, id: uid("veh"), vin }`. */
  function NewVehicle(input: VehicleInput, freshId: string, vin: string): Vehicle {
    Vehicle(Some(freshId), vin, input.make, input.model, input.year, input.category,
            input.condition, input.mileage, input.price, input.stock)
  }

  /** The stored record carries the input's data under the given key. */
  predicate VehicleHolds(v: Vehicle, input: VehicleInput, vin: string) {
    v.vin == vin && v.make == input.make && v.model == input.model && v.year == input.year
    && v.category == input.category && v.condition == input.condition
    && v.mileage == input.mileage && v.price == input.price && v.stock == input.stock
  }

  /** `upsertVehicle` with the corrected merge: rejects a VIN that is blank
      after trimming; replaces the first vehicle with that VIN in place,
      keeping its identifier when the input carries none, or appends a new
      one. */
  function UpsertVehicle(vs: seq<Vehicle>, input: VehicleInput, freshId: string): (r: Result<seq<Vehicle>, Error>)
    ensures r.Err? <==> Trim(input.vin) == ""
    ensures r.Err? ==> r.error == VinRequired
    ensures r.Ok? && HasVin(vs, Trim(input.vin)) ==> |r.value| == |vs|
    ensures r.Ok? && !HasVin(vs, Trim(input.vin)) ==>
              |r.value| == |vs| + 1 && r.value[..|vs|] == vs && r.value[|vs|].id == Some(freshId)
    ensures r.Ok? ==> exists k :: 0 <= k < |r.value| && VehicleHolds(r.value[k], input, Trim(input.vin))
  {
    var vin := Trim(input.vin);
    if vin == "" then Err(VinRequired)
    else match VehicleIndexByVin(vs, vin)
      case Some(i) =>
        var r := vs[i := MergeVehicle(vs[i], input, vin)];
        assert VehicleHolds(r[i], input, vin);
        Ok(r)
      case None =>
        var r := vs + [NewVehicle(input, freshId, vin)];
        assert VehicleHolds(r[|vs|], input, vin);
        Ok(r)
  }

  /** An existing VIN is updated at the position it already had; every other
      vehicle is untouched. */
  lemma UpsertVehicleReplacesInPlace(vs: seq<Vehicle>, input: VehicleInput, freshId: string, i: nat)
    requires Trim(input.vin) != ""
    requires i < |vs| && vs[i].vin == Trim(input.vin)
    requires forall j :: 0 <= j < i ==> vs[j].vin != vs[i].vin
    ensures UpsertVehicle(vs, input, freshId).Ok?
    ensures var r := UpsertVehicle(vs, input, freshId).value;
            |r| == |vs| && VehicleHolds(r[i], input, vs[i].vin)
            && r[i].id == (if input.id.Some? then input.id else vs[i].id)
            && forall j :: 0 <= j < |vs| && j != i ==> r[j] == vs[j]
  {
    assert VehicleIndexByVin(vs, vs[i].vin) == Some(i);
  }

  /** After an upsert, looking the trimmed VIN up finds the record just
      written. */
  lemma {:induction false} UpsertVehicleThenLookup(vs: seq<Vehicle>, input: VehicleInput, freshId: string)
    requires Trim(input.vin) != ""
    ensures var r := UpsertVehicle(vs, input, freshId);
            var k := VehicleIndexByVin(r.value, Trim(input.vin));
            r.Ok? && k.Some? && VehicleHolds(r.value[k.value], input, Trim(input.vin))
  {
    var vin := Trim(input.vin);
    match VehicleIndexByVin(vs, vin)
    case Some(i) =>
      var r := vs[i := MergeVehicle(vs[i], input, vin)];
      VehicleIndexAt(r, vin, i);
    case None =>
      var r := vs + [NewVehicle(input, freshId, vin)];
      assert forall j :: 0 <= j < |vs| ==> r[j] == vs[j];
      VehicleIndexAt(r, vin, |vs|);
  }

  /** Upserting keeps VINs unique. */
  lemma UpsertVehicleKeepsVinsUnique(vs: seq<Vehicle>, input: VehicleInput, freshId: string)
    requires VinsUnique(vs)
    ensures var r := UpsertVehicle(vs, input, freshId);
            r.Ok? ==> VinsUnique(r.value)
  {
    var vin := Trim(input.vin);
    if vin != "" {
      match VehicleIndexByVin(vs, vin)
      case Some(i) =>
        ReplaceKeepsVinsUnique(vs, i, MergeVehicle(vs[i], input, vin));
      case None =>
        AppendKeepsVinsUnique(vs, NewVehicle(input, freshId, vin));
    }
  }

  /** `deleteVehicle`: keeps the vehicles whose VIN differs from `vin`. */
  function DeleteVehicle(vs: seq<Vehicle>, vin: string): seq<Vehicle> {
    Filter(vs, (v: Vehicle) => v.vin != vin)
  }

  /** Deleting removes exactly the vehicles with that VIN, keeps the rest in
      their order, and a second delete changes nothing. */
  lemma DeleteVehicleSpec(vs: seq<Vehicle>, vin: string)
    ensures forall v :: v in DeleteVehicle(vs, vin) <==> v in vs && v.vin != vin
    ensures !HasVin(DeleteVehicle(vs, vin), vin)
    ensures IsSubsequence(DeleteVehicle(vs, vin), vs)
    ensures DeleteVehicle(DeleteVehicle(vs, vin), vin) == DeleteVehicle(vs, vin)
    ensures !HasVin(vs, vin) ==> DeleteVehicle(vs, vin) == vs
    ensures forall v :: multiset(DeleteVehicle(vs, vin))[v] == if v.vin != vin then multiset(vs)[v] else 0
  {
    var p := (v: Vehicle) => v.vin != vin;
    forall v ensures v in Filter(vs, p) <==> v in vs && v.vin != vin { FilterMembers(vs, p, v); }
    forall v ensures multiset(Filter(vs, p))[v] == if v.vin != vin then multiset(vs)[v] else 0 {
      FilterMultiplicity(vs, p, v);
    }
    FilterIsSubsequence(vs, p);
    FilterIdempotent(vs, p);
    if !HasVin(vs, vin) { FilterAll(vs, p); }
  }

  lemma DeleteVehicleKeepsVinsUnique(vs: seq<Vehicle>, vin: string)
    requires VinsUnique(vs)
    ensures VinsUnique(DeleteVehicle(vs, vin))
  {
    FilterKeepsVinsUnique(vs, (v: Vehicle) => v.vin != vin);
  }

  lemma {:induction false} FilterKeepsVinsUnique(vs: seq<Vehicle>, p: Vehicle -> bool)
    requires VinsUnique(vs)
    ensures VinsUnique(Filter(vs, p))
    decreases |vs|
  {
    if vs != [] {
      FilterKeepsVinsUnique(vs[1..], p);
      var t := Filter(vs[1..], p);
      forall w | w in t ensures w.vin != vs[0].vin {
        FilterMembers(vs[1..], p, w);
      }
      if p(vs[0]) {
        var r := Filter(vs, p);
        assert r == [vs[0]] + t;
        forall i, j | 0 <= i < j < |r| ensures r[i].vin != r[j].vin {
          if i == 0 { assert r[j] == t[j - 1] && t[j - 1] in t; }
          else { assert r[i] == t[i - 1] && r[j] == t[j - 1]; }
        }
      }
    }
  }

  /* ---- Customers ---- */

  function LicenseIndex(cs: seq<Customer>, license: string): (r: Option<nat>)
    ensures r.Some? ==> r.value < |cs| && cs[r.value].license == license
    ensures r.Some? ==> forall j :: 0 <= j < r.value ==> cs[j].license != license
    ensures r.None? <==> forall j :: 0 <= j < |cs| ==> cs[j].license != license
  {
    FindIndex(cs, (c: Customer) => c.license == license)
  }

  /** `{ ...existing, ...input, license }` as JavaScript evaluates it: the
      input's undefined identifier overwrites the stored one. */
  function MergeCustomerAsWritten(existing: Customer, input: CustomerInput, license: string): Customer {
    Customer(input.id, input.first, input.middle, input.last, input.address, input.phone1,
             input.phone2, license, input.creditScore, existing.txHistory)
  }

  /** The merge with a missing input identifier keeping the stored one; the
      history is never part of the input and is kept. */
  function MergeCustomer(existing: Customer, input: CustomerInput, license: string): (r: Customer)
    ensures r.id == if input.id.Some? then input.id else existing.id
    ensures r.txHistory == existing.txHistory
  {
    Customer(if input.id.Some? then input.id else existing.id, input.first, input.middle,
             input.last, input.address, input.phone1, input.phone2, license,
             input.creditScore, existing.txHistory)
  }

  /** `{ ...input, id: uid("cust"), license, txHistory: [] }`. */
  function NewCustomer(input: CustomerInput, freshId: string, license: string): Customer {
    Customer(Some(freshId), input.first, input.middle, input.last, input.address, input.phone1,
             input.phone2, license, input.creditScore, [])
  }

  predicate CustomerHolds(c: Customer, input: CustomerInput, license: string) {
    c.license == license && c.first == input.first && c.middle == input.middle
    && c.last == input.last && c.address == input.address && c.phone1 == input.phone1
    && c.phone2 == input.phone2 && c.creditScore == input.creditScore
  }

  /** The source's `upsertCustomer`, with the merge as written. */
  function UpsertCustomerAsWritten(cs: seq<Customer>, input: CustomerInput, freshId: string): Result<seq<Customer>, Error> {
    var license := Trim(input.license);
    if license == "" then Err(LicenseRequired)
    else match LicenseIndex(cs, license)
      case Some(i) => Ok(cs[i := MergeCustomerAsWritten(cs[i], input, license)])
      case None => Ok(cs + [NewCustomer(input, freshId, license)])
  }

  /** Re-entering a known licence through the blank form (no identifier)
      erases the customer's identifier, so transactions that reference the
      customer by identifier no longer resolve to anyone. */
  lemma UpsertCustomerAsWrittenLosesIdentity(c: Customer, input: CustomerInput, freshId: string)
    requires c.id.Some? && input.id.None?
    requires Trim(input.license) == c.license && c.license != ""
    ensures var r := UpsertCustomerAsWritten([c], input, freshId);
            r.Ok? && |r.value| == 1 && r.value[0].id.None?
            && forall j :: 0 <= j < |r.value| ==> r.value[j].id != c.id
  {
    assert LicenseIndex([c], c.license) == Some(0);
  }

  /** `upsertCustomer` with the corrected merge: rejects a blank licence;
      replaces the first customer with that licence in place, keeping its
      history; otherwise appends a new customer with an empty history. */
  function UpsertCustomer(cs: seq<Customer>, input: CustomerInput, freshId: string): (r: Result<seq<Customer>, Error>)
    ensures r.Err? <==> Trim(input.license) == ""
    ensures r.Err? ==> r.error == LicenseRequired
    ensures r.Ok? ==> exists k :: 0 <= k < |r.value| && CustomerHolds(r.value[k], input, Trim(input.license))
  {
    var license := Trim(input.license);
    if license == "" then Err(LicenseRequired)
    else match LicenseIndex(cs, license)
      case Some(i) =>
        var r := cs[i := MergeCustomer(cs[i], input, license)];
        assert CustomerHolds(r[i], input, license);
        Ok(r)
      case None =>
        var r := cs + [NewCustomer(input, freshId, license)];
        assert CustomerHolds(r[|cs|], input, license);
        Ok(r)
  }

  /** An existing licence is updated in place with its history kept; an
      unknown one is appended with an empty history. */
  lemma UpsertCustomerPlacement(cs: seq<Customer>, input: CustomerInput, freshId: string)
    requires Trim(input.license) != ""
    ensures var key := Trim(input.license);
            var r := UpsertCustomer(cs, input, freshId).value;
            match LicenseIndex(cs, key)
            case Some(i) =>
              |r| == |cs| && CustomerHolds(r[i], input, key) && r[i].txHistory == cs[i].txHistory
              && forall j :: 0 <= j < |cs| && j != i ==> r[j] == cs[j]
            case None =>
              |r| == |cs| + 1 && r[..|cs|] == cs && CustomerHolds(r[|cs|], input, key)
              && r[|cs|].txHistory == [] && r[|cs|].id == Some(freshId)
  {
  }

  /** With the corrected merge, an edit that carries no identifier keeps the
      identifier of every customer already in the store. */
  lemma UpsertCustomerKeepsIdentity(cs: seq<Customer>, input: CustomerInput, freshId: string)
    requires input.id.None?
    ensures var r := UpsertCustomer(cs, input, freshId);
            r.Ok? ==> forall j :: 0 <= j < |cs| ==> r.value[j].id == cs[j].id
  {
  }

  lemma UpsertCustomerKeepsLicensesUnique(cs: seq<Customer>, input: CustomerInput, freshId: string)
    requires LicensesUnique(cs)
    ensures var r := UpsertCustomer(cs, input, freshId);
            r.Ok? ==> LicensesUnique(r.value)
  {
    var key := Trim(input.license);
    if key != "" {
      match LicenseIndex(cs, key)
      case Some(i) =>
        ReplaceKeepsLicensesUnique(cs, i, MergeCustomer(cs[i], input, key));
      case None =>
        AppendKeepsLicensesUnique(cs, NewCustomer(input, freshId, key));
    }
  }

  /** `deleteCustomer`: keeps the customers whose licence differs. */
  function DeleteCustomer(cs: seq<Customer>, license: string): seq<Customer> {
    Filter(cs, (c: Customer) => c.license != license)
  }

  lemma DeleteCustomerSpec(cs: seq<Customer>, license: string)
    ensures forall c :: c in DeleteCustomer(cs, license) <==> c in cs && c.license != license
    ensures IsSubsequence(DeleteCustomer(cs, license), cs)
    ensures DeleteCustomer(DeleteCustomer(cs, license), license) == DeleteCustomer(cs, license)
    ensures forall c :: multiset(DeleteCustomer(cs, license))[c] == if c.license != license then multiset(cs)[c] else 0
  {
    var p := (c: Customer) => c.license != license;
    forall c ensures c in Filter(cs, p) <==> c in cs && c.license != license { FilterMembers(cs, p, c); }
    forall c ensures multiset(Filter(cs, p))[c] == if c.license != license then multiset(cs)[c] else 0 {
      FilterMultiplicity(cs, p, c);
    }
    FilterIsSubsequence(cs, p);
    FilterIdempotent(cs, p);
  }

  lemma {:induction false} DeleteCustomerKeepsLicensesUnique(cs: seq<Customer>, license: string)
    requires LicensesUnique(cs)
    ensures LicensesUnique(DeleteCustomer(cs, license))
    decreases |cs|
  {
    if cs != [] {
      DeleteCustomerKeepsLicensesUnique(cs[1..], license);
      var p := (c: Customer) => c.license != license;
      var t := Filter(cs[1..], p);
      forall w | w in t ensures w.license != cs[0].license {
        FilterMembers(cs[1..], p, w);
      }
      if p(cs[0]) {
        var r := Filter(cs, p);
        assert r == [cs[0]] + t;
        forall i, j | 0 <= i < j < |r| ensures r[i].license != r[j].license {
          if i == 0 { assert r[j] == t[j - 1] && t[j - 1] in t; }
          else { assert r[i] == t[i - 1] && r[j] == t[j - 1]; }
        }
      }
    }
  }
}
