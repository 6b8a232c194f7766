/** Discount perks, the tiered commission, monthly sales, and the two report
    aggregations (sales by salesperson, low-stock vehicles). */
module Reports {
  import opened Wrappers
  import opened Text
  import opened Seqs
  import opened Records

  /** `getDiscountPerks`: the active rule (the default one when the settings
      hold none) yields its perk exactly when the amount reaches the
      threshold. */
  function DiscountPerks(settings: Settings, finalPurchaseUSD: real): (r: seq<string>)
    ensures var rule := settings.discountRule.GetOr(DefaultDiscountRule);
            (r == [rule.perkText] <==> finalPurchaseUSD >= rule.thresholdUSD)
            && (r == [] <==> finalPurchaseUSD < rule.thresholdUSD)
  {
    var rule := settings.discountRule.GetOr(DefaultDiscountRule);
    if finalPurchaseUSD >= rule.thresholdUSD then [rule.perkText] else []
  }

  /** `commissionRateForMonthlySales`: 5% up to and including 100000, 7% up
      to and including 200000, 10% beyond. */
  function CommissionRate(totalSalesUSD: real): (r: real)
    ensures r == 0.05 <==> totalSalesUSD <= 100000.0
    ensures r == 0.07 <==> 100000.0 < totalSalesUSD <= 200000.0
    ensures r == 0.10 <==> 200000.0 < totalSalesUSD
  {
    if totalSalesUSD <= 100000.0 then 0.05
    else if totalSalesUSD <= 200000.0 then 0.07
    else 0.10
  }

  /** A larger total never earns a smaller rate, nor a smaller commission. */
  lemma CommissionMonotone(a: real, b: real)
    requires 0.0 <= a <= b
    ensures CommissionRate(a) <= CommissionRate(b)
    ensures a * CommissionRate(a) <= b * CommissionRate(b)
  {
    var ra, rb := CommissionRate(a), CommissionRate(b);
    assert a * ra <= b * ra;
    assert b * ra <= b * rb;
  }

  /** The sum of the final amounts of `txs`, summed front to back. */
  function SumFinal(txs: seq<Transaction>): real {
    if txs == [] then 0.0 else txs[0].finalPurchaseUSD + SumFinal(txs[1..])
  }

  lemma {:induction false} SumFinalConcat(a: seq<Transaction>, b: seq<Transaction>)
    ensures SumFinal(a + b) == SumFinal(a) + SumFinal(b)
    decreases |a|
  {
    if a == [] {
      assert a + b == b;
    } else {
      assert (a + b)[0] == a[0] && (a + b)[1..] == a[1..] + b;
      SumFinalConcat(a[1..], b);
    }
  }

  lemma {:induction false} SumFinalNonNegative(txs: seq<Transaction>)
    requires forall i :: 0 <= i < |txs| ==> txs[i].finalPurchaseUSD >= 0.0
    ensures SumFinal(txs) >= 0.0
    decreases |txs|
  {
    if txs != [] { SumFinalNonNegative(txs[1..]); }
  }

  /** The filter of `monthlySalesForUser`: an exact salesperson match and a
      date that starts with the `yyyy-MM` text. */
  predicate InMonthFor(tx: Transaction, username: string, yyyyMM: string) {
    tx.salesperson == username && IsPrefix(yyyyMM, tx.date)
  }

  function MonthFilter(txs: seq<Transaction>, username: string, yyyyMM: string): seq<Transaction> {
    Filter(txs, (tx: Transaction) => InMonthFor(tx, username, yyyyMM))
  }

  /** `monthlySalesForUser`: the final amounts of the matching transactions,
      summed. */
  function MonthlySales(txs: seq<Transaction>, username: string, yyyyMM: string): real {
    SumFinal(MonthFilter(txs, username, yyyyMM))
  }

  /** Monthly sales add up over a split of the transaction list, and a single
      transaction contributes its final amount exactly when it matches. */
  lemma MonthlySalesConcat(a: seq<Transaction>, b: seq<Transaction>, username: string, yyyyMM: string)
    ensures MonthlySales(a + b, username, yyyyMM) == MonthlySales(a, username, yyyyMM) + MonthlySales(b, username, yyyyMM)
  {
    FilterConcat(a, b, (tx: Transaction) => InMonthFor(tx, username, yyyyMM));
    SumFinalConcat(MonthFilter(a, username, yyyyMM), MonthFilter(b, username, yyyyMM));
  }

  lemma MonthlySalesSingle(tx: Transaction, username: string, yyyyMM: string)
    ensures MonthlySales([tx], username, yyyyMM) == if InMonthFor(tx, username, yyyyMM) then tx.finalPurchaseUSD else 0.0
  {
    var f := MonthFilter([tx], username, yyyyMM);
    assert [tx][1..] == [];
    assert f == if InMonthFor(tx, username, yyyyMM) then [tx] else [];
    if f == [tx] {
      assert SumFinal(f) == tx.finalPurchaseUSD + SumFinal([]);
    }
  }

  /** The monthly total is never negative when no final amount is. */
  lemma MonthlySalesNonNegative(txs: seq<Transaction>, username: string, yyyyMM: string)
    requires forall i :: 0 <= i < |txs| ==> txs[i].finalPurchaseUSD >= 0.0
    ensures MonthlySales(txs, username, yyyyMM) >= 0.0
  {
    var p := (tx: Transaction) => InMonthFor(tx, username, yyyyMM);
    var f := Filter(txs, p);
    forall i | 0 <= i < |f| ensures f[i].finalPurchaseUSD >= 0.0 {
      FilterMembers(txs, p, f[i]);
    }
    SumFinalNonNegative(f);
  }

  datatype Commission = Commission(totalSalesUSD: real, rate: real, commissionUSD: real)

  /** `calculateCommission`: the month's total, the tier rate for that total,
      and their product, unrounded. */
  function CalculateCommission(txs: seq<Transaction>, username: string, yyyyMM: string): (r: Commission)
    ensures r.totalSalesUSD == MonthlySales(txs, username, yyyyMM)
    ensures r.rate == CommissionRate(r.totalSalesUSD)
    ensures r.commissionUSD == r.totalSalesUSD * r.rate
    ensures r.totalSalesUSD >= 0.0 ==> 0.05 * r.totalSalesUSD <= r.commissionUSD <= 0.10 * r.totalSalesUSD
  {
    var total := MonthlySales(txs, username, yyyyMM);
    var rate := CommissionRate(total);
    Commission(total, rate, total * rate)
  }

  /* ---- Sales by salesperson ---- */

  /** The `totals` object of `renderReports`, as a list of (salesperson,
      amount) entries in the order the salespersons first appear. */
  type Totals = seq<(string, real)>

  function EntryIndex(t: Totals, name: string): (r: Option<nat>)
    ensures r.Some? ==> r.value < |t| && t[r.value].0 == name
    ensures r.Some? ==> forall j :: 0 <= j < r.value ==> t[j].0 != name
    ensures r.None? <==> forall j :: 0 <= j < |t| ==> t[j].0 != name
  {
    FindIndex(t, (e: (string, real)) => e.0 == name)
  }

  /** `totals[name] = (totals[name] || 0) + amount`. */
  function AddTo(t: Totals, name: string, amount: real): Totals {
    match EntryIndex(t, name)
    case Some(i) => t[i := (name, t[i].1 + amount)]
    case None => t + [(name, amount)]
  }

  /** The totals after the first `|txs|` iterations of the loop. */
  function SalesTotals(txs: seq<Transaction>): Totals
    decreases |txs|
  {
    if txs == [] then []
    else
      var last := txs[|txs| - 1];
      AddTo(SalesTotals(txs[..|txs| - 1]), last.salesperson, last.finalPurchaseUSD)
  }

  predicate NamesUnique(t: Totals) {
    forall i, j :: 0 <= i < j < |t| ==> t[i].0 != t[j].0
  }

  function SumAmounts(t: Totals): real {
    if t == [] then 0.0 else t[0].1 + SumAmounts(t[1..])
  }

  lemma {:induction false} SumAmountsUpdate(t: Totals, i: nat, e: (string, real))
    requires i < |t|
    ensures SumAmounts(t[i := e]) == SumAmounts(t) - t[i].1 + e.1
    decreases |t|
  {
    if i > 0 {
      SumAmountsUpdate(t[1..], i - 1, e);
      assert t[i := e][1..] == t[1..][i - 1 := e];
    } else {
      assert t[i := e][1..] == t[1..];
    }
  }

  lemma {:induction false} SumAmountsAppend(t: Totals, e: (string, real))
    ensures SumAmounts(t + [e]) == SumAmounts(t) + e.1
    decreases |t|
  {
    if t == [] {
      assert [e][1..] == [];
    } else {
      assert (t + [e])[1..] == t[1..] + [e];
      SumAmountsAppend(t[1..], e);
    }
  }

  /** The amount the totals hold for `name`, 0 when there is no entry. */
  function AmountOf(t: Totals, name: string): real {
    match EntryIndex(t, name)
    case Some(i) => t[i].1
    case None => 0.0
  }

  function SumFor(txs: seq<Transaction>, name: string): real {
    SumFinal(Filter(txs, (tx: Transaction) => tx.salesperson == name))
  }

  predicate IsSalesperson(txs: seq<Transaction>, name: string) {
    exists k :: 0 <= k < |txs| && txs[k].salesperson == name
  }

  lemma AddToKeys(t: Totals, name: string, amount: real)
    requires NamesUnique(t)
    ensures NamesUnique(AddTo(t, name, amount))
    ensures forall n :: EntryIndex(AddTo(t, name, amount), n).Some? <==> EntryIndex(t, n).Some? || n == name
  {
    var r := AddTo(t, name, amount);
    match EntryIndex(t, name)
    case Some(i) =>
      assert forall j :: 0 <= j < |t| ==> r[j].0 == t[j].0;
      forall n ensures EntryIndex(r, n).Some? <==> EntryIndex(t, n).Some? {
        if EntryIndex(t, n).Some? { assert r[EntryIndex(t, n).value].0 == n; }
        if EntryIndex(r, n).Some? { assert t[EntryIndex(r, n).value].0 == n; }
      }
    case None =>
      assert forall j :: 0 <= j < |t| ==> r[j] == t[j];
      forall n ensures EntryIndex(r, n).Some? <==> EntryIndex(t, n).Some? || n == name {
        if EntryIndex(t, n).Some? { assert r[EntryIndex(t, n).value].0 == n; }
        assert r[|t|].0 == name;
        if EntryIndex(r, n).Some? && n != name { assert t[EntryIndex(r, n).value].0 == n; }
      }
  }

  /** With unique names, the entry carrying a name is the one found. */
  lemma EntryIndexAt(t: Totals, name: string, k: nat)
    requires NamesUnique(t) && k < |t| && t[k].0 == name
    ensures EntryIndex(t, name) == Some(k)
  {
    assert EntryIndex(t, name).Some?;
  }

  lemma AddToAmount(t: Totals, name: string, amount: real, n: string)
    requires NamesUnique(t)
    ensures AmountOf(AddTo(t, name, amount), n) == AmountOf(t, n) + (if n == name then amount else 0.0)
  {
    var r := AddTo(t, name, amount);
    AddToKeys(t, name, amount);
    var k := EntryIndex(t, n);
    match EntryIndex(t, name)
    case Some(i) =>
      if n == name {
        EntryIndexAt(r, n, i);
      } else if k.Some? {
        EntryIndexAt(r, n, k.value);
      }
    case None =>
      if n == name {
        EntryIndexAt(r, n, |t|);
      } else if k.Some? {
        EntryIndexAt(r, n, k.value);
      }
  }

  lemma AddToSum(t: Totals, name: string, amount: real)
    ensures SumAmounts(AddTo(t, name, amount)) == SumAmounts(t) + amount
  {
    match EntryIndex(t, name)
    case Some(i) => SumAmountsUpdate(t, i, (name, t[i].1 + amount));
    case None => SumAmountsAppend(t, (name, amount));
  }

  lemma SumForSnoc(front: seq<Transaction>, last: Transaction, n: string)
    ensures SumFor(front + [last], n) == SumFor(front, n) + (if n == last.salesperson then last.finalPurchaseUSD else 0.0)
  {
    var p := (tx: Transaction) => tx.salesperson == n;
    FilterConcat(front, [last], p);
    assert [last][1..] == [];
    assert Filter([last], p) == if p(last) then [last] else [];
    SumFinalConcat(Filter(front, p), Filter([last], p));
  }

  /** The totals hold one entry per salesperson who made a sale. */
  lemma {:induction false} SalesTotalsNames(txs: seq<Transaction>)
    ensures NamesUnique(SalesTotals(txs))
    ensures forall n :: EntryIndex(SalesTotals(txs), n).Some? <==> IsSalesperson(txs, n)
    decreases |txs|
  {
    if txs != [] {
      var front, last := txs[..|txs| - 1], txs[|txs| - 1];
      SalesTotalsNames(front);
      AddToKeys(SalesTotals(front), last.salesperson, last.finalPurchaseUSD);
      forall n ensures IsSalesperson(txs, n) <==> IsSalesperson(front, n) || n == last.salesperson {
        if IsSalesperson(front, n) { var k :| 0 <= k < |front| && front[k].salesperson == n; assert txs[k] == front[k]; }
        if IsSalesperson(txs, n) { var k :| 0 <= k < |txs| && txs[k].salesperson == n; if k < |front| { assert front[k] == txs[k]; } }
      }
    }
  }

  /** Each salesperson's entry is the sum of that salesperson's final
      amounts. */
  lemma {:induction false} SalesTotalsAmounts(txs: seq<Transaction>, n: string)
    ensures AmountOf(SalesTotals(txs), n) == SumFor(txs, n)
    decreases |txs|
  {
    if txs == [] {
    } else {
      var front, last := txs[..|txs| - 1], txs[|txs| - 1];
      assert txs == front + [last];
      SalesTotalsAmounts(front, n);
      SalesTotalsNames(front);
      AddToAmount(SalesTotals(front), last.salesperson, last.finalPurchaseUSD, n);
      SumForSnoc(front, last, n);
    }
  }

  /** The entries add up to the grand total of the same loop. */
  lemma {:induction false} SalesTotalsSum(txs: seq<Transaction>)
    ensures SumAmounts(SalesTotals(txs)) == SumFinal(txs)
    decreases |txs|
  {
    if txs != [] {
      var front, last := txs[..|txs| - 1], txs[|txs| - 1];
      assert txs == front + [last];
      SalesTotalsSum(front);
      AddToSum(SalesTotals(front), last.salesperson, last.finalPurchaseUSD);
      SumFinalConcat(front, [last]);
      assert [last][1..] == [];
    }
  }

  /** The "By salesperson" lines: the totals sorted by amount, largest first,
      ties in first-appearance order. */
  /** The sort key of `(a, b) => b[1] - a[1]`: larger amounts first. */
  function AmountDescending(e: (string, real)): real {
    -e.1
  }

  function SalesOverviewEntries(txs: seq<Transaction>): Totals {
    SortByKey(SalesTotals(txs), AmountDescending)
  }

  lemma SalesOverviewEntriesOrdered(txs: seq<Transaction>)
    ensures var es := SalesOverviewEntries(txs);
            (forall i, j :: 0 <= i < j < |es| ==> es[i].1 >= es[j].1)
            && multiset(es) == multiset(SalesTotals(txs))
  {
    var key := AmountDescending;
    SortByKeySortsAndPermutes(SalesTotals(txs), key);
    var es := SalesOverviewEntries(txs);
    assert forall i, j :: 0 <= i < j < |es| ==> key(es[i]) <= key(es[j]);
  }

  /* ---- Inventory health ---- */

  /** The "Inventory health" table: the vehicles sorted by stock, lowest
      first, at most twelve of them. */
  function LowStock(vs: seq<Vehicle>): seq<Vehicle> {
    var sorted := SortByKey(vs, (v: Vehicle) => v.stock as real);
    sorted[..if |sorted| < 12 then |sorted| else 12]
  }

  /** The low-stock list has `min(12, |vs|)` vehicles in ascending stock
      order, each taken from the catalog, and no vehicle left out has less
      stock than one that was listed. */
  lemma LowStockSpec(vs: seq<Vehicle>)
    ensures var low := LowStock(vs);
            |low| == (if |vs| < 12 then |vs| else 12)
            && (forall i, j :: 0 <= i < j < |low| ==> low[i].stock <= low[j].stock)
            && multiset(low) <= multiset(vs)
            && (forall v, w :: v in low && w in multiset(vs) - multiset(low) ==> v.stock <= w.stock)
  {
    var key := (v: Vehicle) => v.stock as real;
    var sorted := SortByKey(vs, key);
    SortByKeySortsAndPermutes(vs, key);
    var n := if |sorted| < 12 then |sorted| else 12;
    SplitSorted(sorted, key, n);
    assert LowStock(vs) == sorted[..n];
  }

  /** Cutting a sorted sequence: the front is sorted, is part of the whole,
      and no key in the front exceeds a key in the back. */
  lemma SplitSorted(sorted: seq<Vehicle>, key: Vehicle -> real, n: nat)
    requires n <= |sorted| && SortedBy(sorted, key)
    requires forall v :: key(v) == v.stock as real
    ensures var low := sorted[..n];
            (forall i, j :: 0 <= i < j < |low| ==> low[i].stock <= low[j].stock)
            && multiset(low) <= multiset(sorted)
            && (forall v, w :: v in low && w in multiset(sorted) - multiset(low) ==> v.stock <= w.stock)
  {
    var low, rest := sorted[..n], sorted[n..];
    assert sorted == low + rest;
    assert multiset(sorted) == multiset(low) + multiset(rest);
    forall i, j | 0 <= i < j < |low| ensures low[i].stock <= low[j].stock {
      assert key(sorted[i]) <= key(sorted[j]);
    }
    forall v, w | v in low && w in multiset(sorted) - multiset(low) ensures v.stock <= w.stock {
      assert w in rest;
      CutOrdered(sorted, key, n, v, w);
    }
  }

  /** In a sorted sequence, no element before the cut has a larger key than
      one after it. */
  lemma CutOrdered(sorted: seq<Vehicle>, key: Vehicle -> real, n: nat, v: Vehicle, w: Vehicle)
    requires n <= |sorted| && SortedBy(sorted, key)
    requires v in sorted[..n] && w in sorted[n..]
    ensures key(v) <= key(w)
  {
    var i :| 0 <= i < n && sorted[..n][i] == v;
    var j :| 0 <= j < |sorted| - n && sorted[n..][j] == w;
    assert sorted[i] == v && sorted[n + j] == w;
  }
}
