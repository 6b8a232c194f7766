/** `buildInvoiceText`: the invoice document for a transaction, built from
    the store's current customer and vehicle records and the active discount
    rule; the currency formatter (`formatUSD`) is a parameter. */
module Invoice {
  import opened Wrappers
  import opened Text
  import opened Seqs
  import opened Records
  import opened Reports

  /* The fixed text of the document. */
  const Title: string := "MR. TUCKER'S CAR DEALERSHIP"
  const Heading: string := "INVOICE"
  const WideRule: string := "------------------------------------------------------------"
  const NarrowRule: string := "----------------------------------------"
  const NumberLabel: string := "Invoice #: "
  const DateLabel: string := "Date:      "
  const TypeLabel: string := "Type:      "
  const SalespersonLabel: string := "Salesperson: "
  const CustomerHeading: string := "CUSTOMER"
  const NameLabel: string := "Name: "
  const AddressLabel: string := "Address: "
  const PhoneLabel: string := "Phone: "
  const LicenseLabel: string := "Driver's License: "
  const VehicleHeading: string := "VEHICLE"
  const VinLabel: string := "VIN: "
  const MileageLabel: string := "Mileage: "
  const PaymentHeading: string := "PAYMENT SUMMARY"
  const PriceLabel: string := "Vehicle price:       "
  const TradeInLabel: string := "Trade-in value:     -"
  const FinalLabel: string := "Final purchase:      "
  const PerkHeading: string := "DISCOUNTS / PERKS"
  const ThankYou: string := "Thank you for your business!"

  function NameLine(c: Customer): string {
    NameLabel + c.first + " " + (if c.middle != "" then c.middle + ". " else "") + c.last
  }

  function PhoneLine(c: Customer): string {
    PhoneLabel + c.phone1 + (if c.phone2 != "" then " | " + c.phone2 else "")
  }

  /** The lines down to the payment summary heading. */
  function HeadLines(tx: Transaction, c: Customer, v: Vehicle): (r: seq<string>)
    ensures |r| == 20
    ensures r[0] == Title && r[3] == NumberLabel + tx.invoiceNo
    ensures r[19] == PaymentHeading
  {
    [ Title,
      Heading,
      WideRule,
      NumberLabel + tx.invoiceNo,
      DateLabel + tx.date,
      TypeLabel + ToUpper(tx.txType),
      SalespersonLabel + tx.salesperson,
      "",
      CustomerHeading,
      NameLine(c),
      AddressLabel + c.address,
      PhoneLine(c),
      LicenseLabel + c.license,
      "",
      VehicleHeading,
      IntToString(v.year) + " " + v.make + " " + v.model + " (" + v.condition + ")",
      VinLabel + v.vin,
      MileageLabel + IntToString(v.mileage),
      "",
      PaymentHeading ]
  }

  function PriceLine(tx: Transaction, fmt: real -> string): string {
    PriceLabel + fmt(tx.vehiclePriceUSD)
  }

  function TradeInLine(tx: Transaction, fmt: real -> string): string {
    TradeInLabel + fmt(tx.tradeInValueUSD)
  }

  function FinalLine(tx: Transaction, fmt: real -> string): string {
    FinalLabel + fmt(tx.finalPurchaseUSD)
  }

  const Footer: seq<string> := ["", ThankYou]

  /** The price and trade-in deduction, shown only for a trade-in. */
  function TradeLines(tx: Transaction, fmt: real -> string): (r: seq<string>)
    ensures |r| == if tx.txType == TradeInType then 3 else 0
  {
    if tx.txType == TradeInType then [PriceLine(tx, fmt), TradeInLine(tx, fmt), NarrowRule] else []
  }

  /** The perk block: a heading and one bullet per perk, if there are perks. */
  function PerkLines(perks: seq<string>): (r: seq<string>)
    ensures |r| == if |perks| > 0 then 2 + |perks| else 0
    ensures |perks| > 0 ==> r[..2] == ["", PerkHeading]
    ensures forall i :: 0 <= i < |perks| ==> r[2 + i] == "- " + perks[i]
  {
    if |perks| > 0 then ["", PerkHeading] + seq(|perks|, i requires 0 <= i < |perks| => "- " + perks[i]) else []
  }

  /** The line list of the document, before joining. */
  function InvoiceLines(tx: Transaction, c: Customer, v: Vehicle, settings: Settings, fmt: real -> string): seq<string> {
    HeadLines(tx, c, v) + TradeLines(tx, fmt) + [FinalLine(tx, fmt)]
      + PerkLines(DiscountPerks(settings, tx.finalPurchaseUSD)) + Footer
  }

  /** The layout the document promises, down to the final purchase line:
      the payment block follows the fixed heading; the price and trade-in
      lines come first, and only for a trade-in; the final purchase line is
      always there, followed by five lines, or by two when no perk applies. */
  lemma InvoiceLayout(tx: Transaction, c: Customer, v: Vehicle, settings: Settings, fmt: real -> string)
    ensures var r := InvoiceLines(tx, c, v, settings, fmt);
            var trade := tx.txType == TradeInType;
            var f := if trade then 23 else 20;
            var rule := settings.discountRule.GetOr(DefaultDiscountRule);
            var perk := tx.finalPurchaseUSD >= rule.thresholdUSD;
            |r| == f + 1 + (if perk then 3 else 0) + 2
            && r[..20] == HeadLines(tx, c, v)
            && (trade ==> r[20] == PriceLine(tx, fmt) && r[21] == TradeInLine(tx, fmt))
            && r[f] == FinalLine(tx, fmt)
  {
    var head, trade := HeadLines(tx, c, v), TradeLines(tx, fmt);
    var pl := PerkLines(DiscountPerks(settings, tx.finalPurchaseUSD));
    ConcatParts(head, trade, [FinalLine(tx, fmt)], pl, Footer);
  }

  /** The end of the document: the perk block follows the final purchase
      line exactly when the active rule's threshold is reached, and the
      thank-you line closes the document. */
  lemma InvoiceClosing(tx: Transaction, c: Customer, v: Vehicle, settings: Settings, fmt: real -> string)
    ensures var r := InvoiceLines(tx, c, v, settings, fmt);
            var f := if tx.txType == TradeInType then 23 else 20;
            var rule := settings.discountRule.GetOr(DefaultDiscountRule);
            var perk := tx.finalPurchaseUSD >= rule.thresholdUSD;
            |r| >= f + 3
            && (perk ==> |r| == f + 6 && r[f + 1..f + 4] == ["", PerkHeading, "- " + rule.perkText])
            && (!perk ==> |r| == f + 3)
            && r[|r| - 2..] == Footer
  {
    var head, trade := HeadLines(tx, c, v), TradeLines(tx, fmt);
    var perks := DiscountPerks(settings, tx.finalPurchaseUSD);
    var pl := PerkLines(perks);
    ConcatParts(head, trade, [FinalLine(tx, fmt)], pl, Footer);
    if |perks| > 0 {
      assert pl == ["", PerkHeading, "- " + perks[0]];
    }
  }

  /** Against the default rule, a $60,000 purchase lists the perk and a
      $40,000 one does not. */
  lemma DefaultRulePerkExamples(tx: Transaction, c: Customer, v: Vehicle, fmt: real -> string)
    requires tx.txType != TradeInType
    ensures var r := InvoiceLines(tx, c, v, DefaultSettings, fmt);
            tx.finalPurchaseUSD == 60000.0 ==> |r| == 26 && r[23] == "- " + DefaultDiscountRule.perkText
    ensures var r := InvoiceLines(tx, c, v, DefaultSettings, fmt);
            tx.finalPurchaseUSD == 40000.0 ==> |r| == 23 && r[21..] == Footer
  {
    InvoiceClosing(tx, c, v, DefaultSettings, fmt);
  }

  /** No line after the heading is the price line unless the transaction is
      a trade-in. */
  lemma {:induction false} PriceLineOnlyForTradeIn(tx: Transaction, c: Customer, v: Vehicle, settings: Settings, fmt: real -> string)
    ensures var r := InvoiceLines(tx, c, v, settings, fmt);
            (exists k :: 20 <= k < |r| && r[k] == PriceLine(tx, fmt)) <==> tx.txType == TradeInType
  {
    var r := InvoiceLines(tx, c, v, settings, fmt);
    var p := PriceLine(tx, fmt);
    InvoiceLayout(tx, c, v, settings, fmt);
    if tx.txType == TradeInType {
      assert r[20] == p;
    } else {
      assert p[0] == 'V';
      var perks := DiscountPerks(settings, tx.finalPurchaseUSD);
      forall k | 20 <= k < |r| ensures r[k] != p {
        assert r[k] == "" || r[k][0] != 'V';
      }
    }
  }

  /** `buildInvoiceText`: fails when the transaction's customer or vehicle is
      no longer in the store (customer checked first); otherwise the lines
      joined with newlines. */
  function BuildInvoiceText(s: Snapshot, tx: Transaction, fmt: real -> string): (r: Result<string, Error>)
    ensures r.Err? <==> CustomerIndexById(s.customers, tx.customerId).None? || !HasVin(s.vehicles, tx.vehicleVinBuy)
    ensures r.Err? && CustomerIndexById(s.customers, tx.customerId).None? ==> r.error == InvoiceCustomerMissing
    ensures r.Err? && CustomerIndexById(s.customers, tx.customerId).Some? ==> r.error == InvoiceVehicleMissing
    ensures r.Ok? ==> var c := s.customers[CustomerIndexById(s.customers, tx.customerId).value];
                      var v := s.vehicles[VehicleIndexByVin(s.vehicles, tx.vehicleVinBuy).value];
                      r.value == Join(InvoiceLines(tx, c, v, s.settings, fmt), "\n")
                      && IsPrefix(Title, r.value)
  {
    var ci := CustomerIndexById(s.customers, tx.customerId);
    var vi := VehicleIndexByVin(s.vehicles, tx.vehicleVinBuy);
    if ci.None? then Err(InvoiceCustomerMissing)
    else if vi.None? then Err(InvoiceVehicleMissing)
    else
      var lines := InvoiceLines(tx, s.customers[ci.value], s.vehicles[vi.value], s.settings, fmt);
      assert lines[0] == HeadLines(tx, s.customers[ci.value], s.vehicles[vi.value])[0];
      JoinStartsWith(lines, "\n");
      Ok(Join(lines, "\n"))
  }

  /** An invoice is built from the customers, the vehicles and the settings
      alone. */
  lemma InvoiceIgnoresInvoices(s: Snapshot, s': Snapshot, tx: Transaction, fmt: real -> string)
    requires s'.customers == s.customers && s'.vehicles == s.vehicles && s'.settings == s.settings
    ensures BuildInvoiceText(s', tx, fmt) == BuildInvoiceText(s, tx, fmt)
  {
  }
}
