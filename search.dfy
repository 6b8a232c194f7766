/** `globalSearch`: a case-insensitive substring search over the text fields
    of vehicles, customers and transactions. */
module Search {
  import opened Text
  import opened Seqs
  import opened Records

  datatype SearchResult = SearchResult(vehicles: seq<Vehicle>, customers: seq<Customer>, transactions: seq<Transaction>)

  /** The searched fields of a vehicle; the year is searched as its decimal
      text. */
  function VehicleFields(v: Vehicle): seq<string> {
    [v.vin, v.make, v.model, v.category, v.condition, IntToString(v.year)]
  }

  function CustomerFields(c: Customer): seq<string> {
    [c.first, c.middle, c.last, c.license, c.phone1, c.phone2, c.address]
  }

  function TransactionFields(t: Transaction): seq<string> {
    [t.id, t.invoiceNo, t.salesperson, t.date, t.txType, t.vehicleVinBuy]
  }

  /** Some field, lower-cased, contains the (already lower-cased) query. */
  predicate AnyFieldMatches(fields: seq<string>, q: string) {
    exists i :: 0 <= i < |fields| && Contains(ToLower(fields[i]), q)
  }

  function VehicleFilter(q: string): Vehicle -> bool {
    (v: Vehicle) => AnyFieldMatches(VehicleFields(v), q)
  }

  function CustomerFilter(q: string): Customer -> bool {
    (c: Customer) => AnyFieldMatches(CustomerFields(c), q)
  }

  function TransactionFilter(q: string): Transaction -> bool {
    (t: Transaction) => AnyFieldMatches(TransactionFields(t), q)
  }

  /** The normalised query: trimmed, then lower-cased. */
  function NormalQuery(query: string): (q: string)
    ensures |q| == |Trim(query)|
  {
    ToLower(Trim(query))
  }

  function GlobalSearch(s: Snapshot, query: string): SearchResult {
    var q := NormalQuery(query);
    if q == [] then SearchResult([], [], [])
    else SearchResult(Filter(s.vehicles, VehicleFilter(q)),
                      Filter(s.customers, CustomerFilter(q)),
                      Filter(s.transactions, TransactionFilter(q)))
  }

  /** A query that is blank after trimming finds nothing. */
  lemma BlankQueryFindsNothing(s: Snapshot, query: string)
    ensures NormalQuery(query) == [] <==> forall i :: 0 <= i < |query| ==> IsSpace(query[i])
    ensures NormalQuery(query) == [] ==> GlobalSearch(s, query) == SearchResult([], [], [])
  {
  }

  /** For a non-blank query each list holds exactly the records with a
      matching field, in the store's order. */
  lemma GlobalSearchSpec(s: Snapshot, query: string)
    requires NormalQuery(query) != []
    ensures var r := GlobalSearch(s, query);
            var q := NormalQuery(query);
            (forall v :: v in r.vehicles <==> v in s.vehicles && AnyFieldMatches(VehicleFields(v), q))
            && (forall c :: c in r.customers <==> c in s.customers && AnyFieldMatches(CustomerFields(c), q))
            && (forall t :: t in r.transactions <==> t in s.transactions && AnyFieldMatches(TransactionFields(t), q))
            && IsSubsequence(r.vehicles, s.vehicles)
            && IsSubsequence(r.customers, s.customers)
            && IsSubsequence(r.transactions, s.transactions)
  {
    var q := NormalQuery(query);
    forall v ensures v in Filter(s.vehicles, VehicleFilter(q)) <==> v in s.vehicles && AnyFieldMatches(VehicleFields(v), q) {
      FilterMembers(s.vehicles, VehicleFilter(q), v);
    }
    forall c ensures c in Filter(s.customers, CustomerFilter(q)) <==> c in s.customers && AnyFieldMatches(CustomerFields(c), q) {
      FilterMembers(s.customers, CustomerFilter(q), c);
    }
    forall t ensures t in Filter(s.transactions, TransactionFilter(q)) <==> t in s.transactions && AnyFieldMatches(TransactionFields(t), q) {
      FilterMembers(s.transactions, TransactionFilter(q), t);
    }
    FilterIsSubsequence(s.vehicles, VehicleFilter(q));
    FilterIsSubsequence(s.customers, CustomerFilter(q));
    FilterIsSubsequence(s.transactions, TransactionFilter(q));
  }

  /** An occurrence inside an occurrence is an occurrence. */
  lemma OccursWithin(a: string, b: string, s: string, i: nat, j: nat)
    requires OccursAt(a, b, i) && OccursAt(b, s, j)
    ensures OccursAt(a, s, j + i)
  {
    forall k | 0 <= k < |a| ensures s[j + i..j + i + |a|][k] == a[k] {
      assert s[j + i + k] == s[j..j + |b|][i + k];
      assert b[i..i + |a|][k] == b[i + k];
    }
  }

  lemma ContainsTransitive(s: string, b: string, a: string)
    requires Contains(s, b) && Contains(b, a)
    ensures Contains(s, a)
  {
    var j: nat :| OccursAt(b, s, j);
    var i: nat :| OccursAt(a, b, i);
    OccursWithin(a, b, s, i, j);
  }

  lemma FieldsMatchWeaker(fields: seq<string>, q: string, q': string)
    requires AnyFieldMatches(fields, q') && Contains(q', q)
    ensures AnyFieldMatches(fields, q)
  {
    var i :| 0 <= i < |fields| && Contains(ToLower(fields[i]), q');
    ContainsTransitive(ToLower(fields[i]), q', q);
  }

  /** Narrowing a query never finds more: whatever a query finds, any
      non-blank part of it finds as well. */
  lemma NarrowingQueryFindsLess(s: Snapshot, query: string, longer: string)
    requires NormalQuery(query) != [] && Contains(NormalQuery(longer), NormalQuery(query))
    ensures var r := GlobalSearch(s, query);
            var r' := GlobalSearch(s, longer);
            (forall v :: v in r'.vehicles ==> v in r.vehicles)
            && (forall c :: c in r'.customers ==> c in r.customers)
            && (forall t :: t in r'.transactions ==> t in r.transactions)
  {
    var q := NormalQuery(query);
    var q' := NormalQuery(longer);
    assert q' != [] by {
      var i: nat :| OccursAt(q, q', i);
    }
    GlobalSearchSpec(s, query);
    GlobalSearchSpec(s, longer);
    forall v | AnyFieldMatches(VehicleFields(v), q') ensures AnyFieldMatches(VehicleFields(v), q) {
      FieldsMatchWeaker(VehicleFields(v), q, q');
    }
    forall c | AnyFieldMatches(CustomerFields(c), q') ensures AnyFieldMatches(CustomerFields(c), q) {
      FieldsMatchWeaker(CustomerFields(c), q, q');
    }
    forall t | AnyFieldMatches(TransactionFields(t), q') ensures AnyFieldMatches(TransactionFields(t), q) {
      FieldsMatchWeaker(TransactionFields(t), q, q');
    }
  }

  lemma ToyIsNormal()
    ensures NormalQuery("toy") == "toy"
  {
    var t := "toy";
    assert TrimmedAt(t, t, 0);
    assert Trim(t) == t;
    assert ToLower(t) == t;
  }

  /** A vehicle made by "Toyota" is found by the query "toy". */
  lemma ToyFindsToyota(s: Snapshot, v: Vehicle)
    requires v in s.vehicles && v.make == "Toyota"
    ensures v in GlobalSearch(s, "toy").vehicles
  {
    ToyIsNormal();
    var m := ToLower(v.make);
    assert m[..3] == "toy";
    assert OccursAt("toy", m, 0);
    assert Contains(ToLower(VehicleFields(v)[1]), "toy");
    GlobalSearchSpec(s, "toy");
  }
}
