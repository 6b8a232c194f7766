# Mr. Tucker's dealership store, modelled in Dafny

This project models the business core of the dealership front end `app.js`. That core is one in-memory store (`state`) holding:
- the vehicle catalog, keyed by VIN;
- the customers, keyed by driver's licence, each with a most-recent-first purchase history;
- the transactions, most recent first;
- the invoices, a map from transaction identifier to invoice text;
- the active discount rule.

Modules:
- `Records` holds the entities and the `find`/`findIndex` lookups. `Catalog` holds the insert-or-update and delete operations.
- `Transactions` holds the purchase engine `createTransaction` and the smaller store edits of the UI handlers:
  - delete a transaction;
  - clear the invoices;
  - replace the discount rule.
- `Invoice` builds the invoice document. `Reports` covers:
  - the discount perk rule;
  - the tiered commission;
  - the monthly sales sum;
  - the sales overview accumulation;
  - the low-stock list.
- `Search` is the case-insensitive substring search. `Html` is `escapeHtml`, and `Persistence` is the defaulting of `loadState`.
- `DealerStore.Store` is the mutable store itself, a class with one field per store collection. Each of its methods performs the source's in-place steps; the two upserts use the corrected merge of the Findings below, which keeps a stored identifier the form does not send. Each method is proved to leave exactly the state that the matching pure function of `Transactions`/`Catalog` describes.
- `Text`, `Seqs` and `Wrappers` hold:
  - trimming, case mapping and substring search on strings;
  - base-36 numerals;
  - `filter` and a stable sort on sequences;
  - `Option`/`Result`.

Dealing with the store's environment:
- Values the source draws from `uid`, `Date.now()` and the calendar are parameters (`Transactions.Fresh`, `freshId`).
- The currency formatter `formatUSD` is a parameter `fmt`.
- Money is an exact `real`.
- A store that is consistent (`Transactions.Consistent`) has:
  - unique VINs;
  - unique licences;
  - unique transaction identifiers;
  - every transaction priced by the rule;
  - no invoice without its transaction.

  Every store edit preserves consistency. A purchase needs one more condition: its fresh transaction identifier and trade-in VIN must not already be in use.

## Model

| member | source | states |
|---|---|---|
| Text.Trim | app.js:114 | the result is a slice of the input with only white space removed before and after it; neither end of a non-empty result is white space; the result is empty exactly when the input is all white space |
| Text.TrimIdempotent | app.js:114 | trimming a trimmed string changes nothing |
| Text.ToLower | app.js:281 | lower-casing keeps the length and maps every character on its own |
| Text.Contains | app.js:286 | `includes` holds exactly when the query occurs at some position |
| Text.RadixRoundTrip | app.js:250 | reading back the base-36 numeral of `n` gives `n` |
| Text.ParseUpperRadix | app.js:250 | upper-casing a lower-case numeral does not change its value |
| Transactions.ClockDerivedKeysInjective | app.js:250-260 | two different clock readings never give the same invoice number, nor the same trade-in VIN |
| Html.EscapeOne | app.js:38-45 | the five chained replacements turn each single character into its entity, or leave it alone |
| Html.EscapeHtmlConcat | app.js:38-45 | escaping distributes over concatenation |
| Html.EscapeHtmlIsPerCharacter | app.js:38-45 | the chain of `replaceAll` calls equals escaping every character independently, so `&amp;` written early is never escaped twice |
| Html.EscapeHtmlHasNoMarkup | app.js:38-45 | the escaped text contains no `<`, `>`, `"` or `'` |
| Html.EscapeHtmlRoundTrip | app.js:38-45 | decoding the five entities of the escaped text gives back the original text |
| Seqs.FilterMembers | app.js:125 | an element is kept by `filter` exactly when it is in the input and satisfies the predicate |
| Seqs.FilterMultiplicity | app.js:125 | `filter` keeps every occurrence of a kept element and no occurrence of a dropped one |
| Seqs.FilterIsSubsequence | app.js:125 | `filter` keeps the relative order of what it keeps |
| Seqs.SortByKeySortsAndPermutes | app.js:498 | the sort returns the input's elements, with multiplicity, in ascending key order |
| Records.CustomerIndexById | app.js:225 | `find` by identifier: the first customer with that identifier; none exactly when no customer has it |
| Records.VehicleIndexByVin | app.js:226 | `find` by VIN: the first vehicle with that VIN; none exactly when no vehicle has it |
| Catalog.UpsertVehicle | app.js:113-122 | a VIN that is blank after trimming is refused, and only then; a known VIN keeps the catalog's length; an unknown one appends a vehicle with the fresh identifier after the unchanged catalog; some vehicle then holds the input under the trimmed VIN |
| Catalog.MergeVehicle | app.js:118 | the merged vehicle keeps the stored identifier when the input has none |
| Catalog.MergeVehicleAsWrittenLosesIdentity | app.js:118 | the merge as written erases a stored identifier when the form sends none; the corrected merge keeps it |
| Catalog.UpsertVehicleReplacesInPlace | app.js:117-118 | a known VIN is rewritten at its own position, and every other vehicle is unchanged |
| Catalog.UpsertVehicleThenLookup | app.js:113-122 | looking the trimmed VIN up after an upsert finds the record just written |
| Catalog.UpsertVehicleKeepsVinsUnique | app.js:113-122 | upserting keeps VINs unique |
| Catalog.DeleteVehicleSpec | app.js:124-127 | deleting removes exactly the vehicles with that VIN; the rest keep their order and their multiplicity; a second delete changes nothing; an absent VIN changes nothing |
| Catalog.DeleteVehicleKeepsVinsUnique | app.js:124-127 | deleting keeps VINs unique |
| Catalog.LicenseIndex | app.js:133 | `findIndex` by licence: the first customer with that licence; none exactly when no customer has it |
| Catalog.MergeCustomer | app.js:134 | the merged customer keeps the stored identifier when the input has none, and always keeps the history |
| Catalog.UpsertCustomerAsWrittenLosesIdentity | app.js:134 | with the merge as written, re-saving a known licence from the blank form leaves no customer with the old identifier |
| Catalog.UpsertCustomer | app.js:129-138 | a licence that is blank after trimming is refused, and only then; otherwise some customer holds the input under the trimmed licence |
| Catalog.UpsertCustomerPlacement | app.js:133-135 | a known licence is rewritten at its own position with its history kept, and nothing else changes; an unknown one is appended with the fresh identifier and an empty history |
| Catalog.UpsertCustomerKeepsIdentity | app.js:134 | with the corrected merge, an edit without an identifier keeps every stored identifier |
| Catalog.UpsertCustomerKeepsLicensesUnique | app.js:129-138 | upserting keeps licences unique |
| Catalog.DeleteCustomerSpec | app.js:140-143 | deleting removes exactly the customers with that licence; the rest keep their order and their multiplicity; a second delete changes nothing |
| Catalog.DeleteCustomerKeepsLicensesUnique | app.js:140-143 | deleting keeps licences unique |
| Reports.DiscountPerks | app.js:145-148 | the active rule, or the default rule when none is set, yields its perk exactly when the amount reaches the threshold, and nothing otherwise |
| Reports.CommissionRate | app.js:150-155 | the rate is 5% exactly up to and including 100000, 7% exactly above 100000 up to and including 200000, and 10% exactly above 200000 |
| Reports.CommissionMonotone | app.js:150-155 | for non-negative totals, neither the rate nor the commission decreases as the total grows |
| Reports.MonthlySalesConcat | app.js:157-161 | the monthly sum adds up over any split of the transaction list |
| Reports.MonthlySalesSingle | app.js:157-161 | one transaction counts with its final amount exactly when the salesperson matches exactly and the date starts with the month |
| Reports.MonthlySalesNonNegative | app.js:157-161 | with non-negative amounts the monthly sum is non-negative |
| Reports.CalculateCommission | app.js:163-167 | the total is the monthly sum, the rate is the tier rate of that total, and the commission is their unrounded product, between 5% and 10% of the total |
| Reports.SalesTotalsNames | app.js:479-484 | the per-salesperson totals have one entry for each name that has sold something, and for no other name |
| Reports.SalesTotalsAmounts | app.js:479-484 | each salesperson's entry is the sum of that salesperson's final amounts |
| Reports.SalesTotalsSum | app.js:479-484 | the entries add up to the grand total |
| Reports.SalesOverviewEntriesOrdered | app.js:490 | the overview entries are the totals, with multiplicity, sorted by amount from largest to smallest |
| Reports.LowStockSpec | app.js:498 | the low-stock list has `min(12, n)` vehicles taken from the catalog in ascending stock order, and no vehicle left out has less stock than a listed one |
| DealerStore.Store.SalesOverview | app.js:479-490 | the loop computes the grand total of all final amounts and the sorted overview entries |
| Invoice.HeadLines | app.js:177-198 | the fixed part of the document has 20 lines, starts with the dealership title, shows the invoice number on line 4 and ends with the payment heading |
| Invoice.TradeLines | app.js:200-204 | the price, trade-in and rule lines exist exactly for a trade-in |
| Invoice.PerkLines | app.js:207-211 | a blank line and the perk heading come first, then one `- ` bullet per perk; with no perk, no line at all |
| Invoice.InvoiceLayout | app.js:177-205 | the document starts with the fixed part; a trade-in continues with the price and trade-in lines; the final purchase line is always present, at line 21 or 24 |
| Invoice.InvoiceClosing | app.js:205-214 | after the final purchase line comes the perk block exactly when the threshold is reached; the last two lines are the blank line and the thank-you line |
| Invoice.PriceLineOnlyForTradeIn | app.js:200-201 | some line after the heading is the price line exactly when the transaction is a trade-in |
| Invoice.DefaultRulePerkExamples | app.js:145-148 | under the default rule, a $60,000 sale lists the perk and a $40,000 sale does not |
| Invoice.BuildInvoiceText | app.js:169-216 | it fails exactly when the customer or the vehicle is missing, and the customer is checked first; otherwise it returns the lines joined by newlines, which start with the title |
| Invoice.InvoiceIgnoresInvoices | app.js:169-173 | an invoice depends on the customers, the vehicles and the settings alone |
| Transactions.ValidateCustomerForPurchase | app.js:218-222 | a licence is accepted exactly when it has at least three characters after trimming |
| Transactions.Resolve | app.js:225-233 | success yields the indices the two lookups find, with stock above zero and a valid licence |
| Transactions.FinalPurchase | app.js:237 | the final amount is `max(0, price - tradeIn)`, so it is never negative |
| Transactions.TradeInFront | app.js:257-270 | exactly one trade-in vehicle is added when the type is trade-in and details are present; otherwise none |
| Transactions.ApplyPurchaseVehicles | app.js:255-270 | the purchased vehicle loses exactly one unit of stock; the trade-in vehicle, if any, comes first; every other vehicle is unchanged |
| Transactions.ApplyPurchaseCustomers | app.js:272-273 | only the buyer changes, and only by a new history entry at the front |
| Transactions.Purchase | app.js:224-273 | it fails exactly when resolution fails, with the same error, and leaves the invoices, session and settings alone |
| Transactions.PurchaseLeavesInvoiceResolvable | app.js:225-275 | after the purchase steps, lookups of the customer and the vehicle succeed, so the first invoice cannot fail |
| Transactions.CreateTransaction | app.js:224-278 | it fails exactly when the purchase fails; on success the store is the purchase's plus the new invoice under the transaction id |
| Transactions.CreateTransactionErrors | app.js:225-233 | four errors are possible, checked in this order: unknown customer, unknown vehicle, licence under 3 characters, no stock; when none applies, the purchase succeeds |
| Transactions.CreateTransactionSucceeds | app.js:224-278 | when resolution succeeds, the result is the applied purchase together with its invoice |
| Transactions.CreateTransactionPricing | app.js:235-250 | price is the override or the catalog price; trade-in value is 0 unless the type is trade-in; final amount is `max(0, price - tradeIn)`, so it is at least 0; it also fixes the fresh identifier and invoice number |
| Transactions.CreateTransactionInventory | app.js:253-270 | the transaction is prepended; the purchased vehicle loses exactly one unit and stays at or above zero; other vehicles are unchanged; a trade-in prepends one vehicle (stock 1, condition "trade-in", category "family", the clock-derived VIN) |
| Transactions.CreateTransactionHistory | app.js:272-273 | exactly one history entry is prepended, to the buyer only; it carries the transaction's id, date, type and final amount |
| Transactions.CreateTransactionInvoice | app.js:275 | the new transaction's invoice is stored and equals the document built from the new store; other invoices and the settings are unchanged |
| Transactions.ApplyPurchaseKeepsVehicleIndex | app.js:255-270 | after the purchase, the sold VIN is found at its shifted position |
| Transactions.PurchaseEmptiesLastUnit | app.js:233-255 | after the last unit is sold, the same request is refused as out of stock |
| Transactions.LastUnitSellsOnce | app.js:224-278 | after a transaction sells the last unit, a second `createTransaction` for the same customer and VIN fails with out of stock |
| Transactions.CreateTransactionMonthlySales | app.js:253 | a new sale changes its salesperson's monthly sum by its final amount when it falls in that month, and changes no other monthly sum |
| Transactions.ConsistentEmpty | app.js:54-61 | a first visit starts consistent |
| Transactions.ConsistentAmountsNonNegative | app.js:237 | every final amount in a consistent store is non-negative |
| Transactions.PurchaseKeepsConsistent | app.js:224-273 | with a fresh transaction id and a fresh trade-in VIN, the purchase steps keep VINs, licences and transaction ids unique, keep every transaction priced by the rule, and add exactly the new id |
| Transactions.CreateTransactionKeepsConsistent | app.js:224-278 | with fresh keys, `createTransaction` keeps the store consistent |
| Transactions.DeleteTransactionSpec | app.js:801-806 | exactly the transactions with that id are removed, and the rest keep their order; that invoice is gone and the others stay; vehicles, customers (histories included) and settings are unchanged |
| Transactions.DeleteTransactionKeepsConsistent | app.js:801-806 | deleting a transaction keeps the store consistent |
| Transactions.ClearInvoices | app.js:778-784 | the invoice map becomes empty and nothing else changes |
| Transactions.ClearInvoicesKeepsConsistent | app.js:778-784 | clearing invoices keeps the store consistent |
| Transactions.SetDiscountRule | app.js:860-869 | the rule is replaced wholesale by the threshold and the trimmed perk text, and nothing else changes |
| Transactions.SetDiscountRuleKeepsConsistent | app.js:860-869 | replacing the rule keeps the store consistent |
| Search.NormalQuery | app.js:281 | the normalised query is as long as the trimmed query |
| Search.BlankQueryFindsNothing | app.js:281-282 | the normalised query is empty exactly when the query is all white space, and then all three results are empty |
| Search.GlobalSearchSpec | app.js:280-300 | each result holds exactly the records of its collection with some listed field containing the lower-cased query, in store order |
| Search.NarrowingQueryFindsLess | app.js:280-300 | a query containing another finds nothing the other does not |
| Search.ToyFindsToyota | app.js:284-287 | the query "toy" finds a vehicle made by "Toyota" |
| Persistence.LoadState | app.js:52-72 | nothing stored gives the empty store with the default rule; every field the stored object carries is taken as is, each missing one defaults on its own (`[]` for the three lists, an empty invoice map, the default rule), and the session is kept |
| Persistence.LoadSaveRoundTrip | app.js:52-76 | loading what was saved gives back the same store |
| Persistence.EmptyObjectLoadsDefaults | app.js:52-72 | an object with no fields loads like nothing stored, with the default discount rule |
| Persistence.LoadIsNormalising | app.js:52-76 | saving and reloading a loaded store changes nothing |
| DealerStore.Store.constructor | app.js:50 | the store starts as `loadState` describes, and a first visit starts consistent |
| DealerStore.Store.UpsertVehicle | app.js:113-122 | a refused VIN returns its error and changes nothing; otherwise only the vehicles change, to what `Catalog.UpsertVehicle` gives; consistency is kept |
| DealerStore.Store.DeleteVehicle | app.js:124-127 | only the vehicles change, to the filtered catalog; consistency is kept |
| DealerStore.Store.UpsertCustomer | app.js:129-138 | a refused licence returns its error and changes nothing; otherwise only the customers change, to what `Catalog.UpsertCustomer` gives; consistency is kept |
| DealerStore.Store.DeleteCustomer | app.js:140-143 | only the customers change, to the filtered list; consistency is kept |
| DealerStore.Store.CreateTransaction | app.js:224-278 | on an error nothing changes and the error is returned; on success the state is `Transactions.CreateTransaction`'s and the transaction is returned; with fresh keys, consistency is kept |
| DealerStore.Store.CompletePurchase | app.js:235-275 | once the checks pass, the in-place steps reach the successful result of `createTransaction` |
| DealerStore.Store.RecordPurchase | app.js:253-273 | the in-place prepends and the stock decrement give exactly `ApplyPurchase` |
| DealerStore.Store.StoreInvoice | app.js:275 | only the invoice under the transaction id changes, to the built document |
| DealerStore.Store.DeleteTransaction | app.js:801-806 | the state becomes `Transactions.DeleteTransaction`'s; consistency is kept |
| DealerStore.Store.ClearInvoices | app.js:778-784 | the state becomes `Transactions.ClearInvoices`'s; consistency is kept |
| DealerStore.Store.SetDiscountRule | app.js:860-869 | the state becomes `Transactions.SetDiscountRule`'s; consistency is kept |

Points where the code guarantees less than one might expect:
- The trade-in VIN is built from the clock (`TRADE-` plus the base-36 time, app.js:260) and is never checked against the catalog. The model proves that distinct clock readings give distinct VINs (`Transactions.ClockDerivedKeysInjective`). Its consistency lemmas require the fresh VIN and transaction id to be unused.
- The vehicle form accepts any stock (app.js:610), negative included. `Transactions.Consistent` therefore does not require stock at or above zero. The model proves only that a sold vehicle's stock stays at or above zero.
- An upsert's spread merge also copies the form's undefined identifier over the stored one; that is the finding below, and the store's upserts use the corrected merge instead.

## Left out

- DOM rendering, event listeners, `toast`, printing, the clipboard and page redirects (app.js:302-898) are user interface. Of the handler code, only the store edits are modelled: delete a transaction, clear invoices, set the discount rule.
- `localStorage`, `JSON.parse`/`safeJsonParse` and `saveState` (app.js:20-22, 52-76) are I/O. `Persistence.LoadState` receives the parsed store as an `Option`. A field that is missing or not an array arrives as `None`. Only values of the right shape are modelled: a present non-array value in `invoices` or `settings`, which `??` would accept, is not.
- Demo login/logout (app.js:80-104), backup and restore, reset, `downloadJson` and demo data (app.js:871-932) are out of scope. So is the `server/` directory, which is database plumbing with no logic.
- `uid`, `Math.random`, `Date.now()` and `new Date().getFullYear()` are non-deterministic. They are the parameters `freshId` and `Transactions.Fresh`.
- `formatUSD` calls the locale-dependent `toLocaleString`. It is the uninterpreted parameter `fmt`.
- Floating point, `NaN` and string-to-number coercions (`Number(...)`, `|| 0`) are out of scope. Money is an exact `real`, and numeric fields are always numbers. The `|| "Unknown"` and `year || currentYear` defaults of the trade-in vehicle are modelled: an empty string or a year of 0 takes the default.
- Fields that could be undefined in JavaScript are always present in the model: a customer's `txHistory` (`|| []`), a vehicle's `mileage` (`?? 0`), and the `String(x || "")` of search fields.
- Catalog.UpsertVehicle, Catalog.UpsertCustomer, DealerStore.Store.UpsertVehicle, DealerStore.Store.UpsertCustomer: they implement the corrected merge of the app.js:118 and app.js:134 findings, so an edit whose input carries no identifier keeps the stored one, where the code as written stores `undefined`; the as-written behaviour is `Catalog.MergeVehicleAsWritten` and `Catalog.UpsertCustomerAsWritten`.
- Transactions.ValidateCustomerForPurchase: counts the licence's length in Unicode characters, where JavaScript's `.length` (app.js:219) counts UTF-16 code units; a trimmed licence of two characters one of which lies outside the Basic Multilingual Plane is refused by the model but accepted by the code.
- Text.ToLower: maps only ASCII letters, not the full Unicode case mapping of `toLowerCase`/`toUpperCase`. The same holds for `Text.ToUpper`.
- Reports.SalesTotalsNames: the model keeps names in order of first sale. `Object.entries` would list integer-like names first.
- Reports.SalesOverviewEntriesOrdered: proves the descending order and the permutation. It does not prove that ties keep their order; `Seqs.SortByKey` is a stable insertion sort, but stability is not stated.
- The text and HTML that `renderReports` produces from the sums is out of scope. So is `escapeAttr`, which is `escapeHtml` under another name.
- The in-place `vehicle.stock` and `customer.txHistory` updates go through the object `find` returned. The model expresses them as updates at the found index. Aliasing between store entries is not modelled.

## Findings

| source | as written | input that shows it | evidently intended | confidence | as-written member | corrected member |
|---|---|---|---|---|---|---|
| app.js:134 | `{ ...state.customers[idx], ...customer, license }`; the customer form sends `id: $("#customerId").value \|\| undefined` (app.js:667) | a blank customer form saved with the licence of a stored customer whose id is `cust_1`: the merged record's `id` is `undefined`, so the purchases that point to `cust_1` no longer resolve | keep the stored identifier when the input carries none | not executed | Catalog.UpsertCustomerAsWrittenLosesIdentity | Catalog.UpsertCustomerKeepsIdentity |
| app.js:118 | `{ ...state.vehicles[idx], ...vehicle, vin }`; the vehicle form sends `id: $("#vehicleId").value \|\| undefined` (app.js:601) | a blank vehicle form saved with the VIN of a stored vehicle whose id is `veh_1`: the merged record's `id` is `undefined` | keep the stored identifier when the input carries none | not executed | Catalog.MergeVehicleAsWrittenLosesIdentity | Catalog.MergeVehicle |
