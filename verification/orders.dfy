/** The order export: the payment classification, the order list with its paging defaults and
    per-order fields, the positions of one order with the synthetic shipping line, and the status
    update. */
module Orders {
  import opened Wrappers
  import opened Strings
  import opened Languages
  import opened Customers

  // ---------------------------------------------------------------------------------------
  // Payment classification

  /** The shop's payment means and the hub's payment codes. */
  const PaymentMap: map<string, string> := map[
    "debit" := "L", "sepa" := "LSCORE", "cash" := "NN", "invoice" := "U", "prepayment" := "VK",
    "debituos" := "L", "credituos" := "KK", "giropayuos" := "GP", "uos_ut" := "UT", "uos_ut_gp" := "GP",
    "uos_ut_kk" := "KK", "uos_ut_ls" := "L", "uos_ut_vk" := "VK", "prepaiduos" := "VK", "invoiceuos" := "U",
    "paypal" := "PP", "paypalexpress" := "PP", "ipayment" := "KK", "cashExpress" := "NN",
    "FinanzkaufBySantander" := "FZ", "sofortueberweisung" := "SU"]

  /** The codes the table can produce, and the default. */
  const PaymentCodes: set<string> := {"L", "LSCORE", "NN", "U", "VK", "KK", "GP", "UT", "PP", "FZ", "SU"}

  /** `verf`: the code of the payment means, or "VK" (prepayment) for any other name. */
  function PaymentCode(name: string): string {
    if name in PaymentMap then PaymentMap[name] else "VK"
  }

  /** The payment code is one of the table's codes; a name outside the table gets the code of
      prepayment ("VK"). */
  lemma PaymentCodeSpec(name: string)
    ensures PaymentCode(name) in PaymentCodes
    ensures name !in PaymentMap ==> PaymentCode(name) == PaymentMap["prepayment"]
  {
  }

  // ---------------------------------------------------------------------------------------
  // List paging and sorting

  /** The list request's paging and sorting; an absent text field is the empty string. */
  datatype ListRequest = ListRequest(sortColName: string, sortOrder: string, start: Option<int>, limit: Option<int>)

  /** The paging and sorting the order list is read with. */
  datatype ListParams = ListParams(start: int, limit: int, sortColName: string, sortOrder: string)

  /** The only sortable hub field and its shop property. */
  const OrderColumnMap: map<string, string> := map["order_id" := "id"]

  /** `getList`'s defaults: a sort column is translated through the column map and cleared when
      it has no entry; then start 0, limit 50, column "id" and direction "DESC" fill what is
      missing. */
  function OrderListParams(f: ListRequest): (r: ListParams)
    ensures r.start == if f.start.Some? then f.start.value else 0
    ensures r.limit == if f.limit.Some? then f.limit.value else 50
    ensures r.sortOrder == if PhpEmpty(f.sortOrder) then "DESC" else f.sortOrder
    ensures !PhpEmpty(f.sortColName) && f.sortColName in OrderColumnMap ==> r.sortColName == OrderColumnMap[f.sortColName]
    ensures PhpEmpty(f.sortColName) || f.sortColName !in OrderColumnMap ==> r.sortColName == "id"
  {
    var col := if PhpEmpty(f.sortColName) then f.sortColName
      else if f.sortColName in OrderColumnMap then OrderColumnMap[f.sortColName] else "";
    ListParams(
      if f.start.Some? then f.start.value else 0,
      if f.limit.Some? then f.limit.value else 50,
      if PhpEmpty(col) then "id" else col,
      if PhpEmpty(f.sortOrder) then "DESC" else f.sortOrder)
  }

  /** Whatever column is asked for, the orders are sorted by id. */
  lemma OrdersSortById(f: ListRequest)
    ensures OrderListParams(f).sortColName == "id"
  {
    if !PhpEmpty(f.sortColName) && f.sortColName in OrderColumnMap {
      assert f.sortColName == "order_id";
    }
  }

  // ---------------------------------------------------------------------------------------
  // Discount

  /** A discount line of an order: its price and tax rate. */
  datatype Rebate = Rebate(price: real, taxRate: real)

  /** A discount line's net price: the price divided by 1 + rate/100 when the rate is positive. */
  function NetRebate(r: Rebate): real {
    if r.taxRate > 0.0 then r.price / (1.0 + r.taxRate / 100.0) else r.price
  }

  /** The sum of the net prices of the discount lines. */
  function RebateSum(rs: seq<Rebate>): real {
    if rs == [] then 0.0 else RebateSum(rs[..|rs| - 1]) + NetRebate(rs[|rs| - 1])
  }

  function Abs(x: real): (r: real)
    ensures r >= 0.0 && (r == x || r == -x)
  {
    if x < 0.0 then -x else x
  }

  /** The discount accumulation loop: `rabatt_betrag` is the absolute value of the summed net
      discount prices. */
  method Discount(rebates: seq<Rebate>) returns (amount: real)
    ensures amount >= 0.0
    ensures amount == Abs(RebateSum(rebates))
  {
    amount := 0.0;
    var k := 0;
    while k < |rebates|
      invariant 0 <= k <= |rebates|
      invariant amount == RebateSum(rebates[..k])
    {
      assert rebates[..k + 1][..k] == rebates[..k];
      var price := rebates[k].price;
      if rebates[k].taxRate > 0.0 {
        price := price / (1.0 + rebates[k].taxRate / 100.0);
      }
      amount := amount + price;
      k := k + 1;
    }
    assert rebates[..k] == rebates;
    amount := Abs(amount);
  }

  /** The sum of the absolute net prices. */
  function AbsRebateSum(rs: seq<Rebate>): real {
    if rs == [] then 0.0 else AbsRebateSum(rs[..|rs| - 1]) + Abs(NetRebate(rs[|rs| - 1]))
  }

  /** Discount lines carry negative prices; as long as none is positive, the absolute value of the
      sum is the sum of the absolute values. */
  lemma {:induction false} DiscountOfNegatives(rs: seq<Rebate>)
    requires forall k :: 0 <= k < |rs| ==> rs[k].price <= 0.0
    ensures RebateSum(rs) <= 0.0
    ensures Abs(RebateSum(rs)) == AbsRebateSum(rs)
  {
    if rs != [] {
      var init := rs[..|rs| - 1];
      var last := rs[|rs| - 1];
      DiscountOfNegatives(init);
      if last.taxRate > 0.0 {
        NegativeQuotient(last.price, 1.0 + last.taxRate / 100.0);
      }
    }
  }

  lemma NegativeQuotient(a: real, b: real)
    requires a <= 0.0 && b > 0.0
    ensures a / b <= 0.0
  {
    var q := a / b;
    assert q * b == a;
    PositiveProduct(q, b);
  }

  lemma PositiveProduct(x: real, y: real)
    ensures x > 0.0 && y > 0.0 ==> x * y > 0.0
  {
  }

  // ---------------------------------------------------------------------------------------
  // Debit account fields

  predicate Letter(c: char) { 'a' <= c <= 'z' || 'A' <= c <= 'Z' }
  predicate Digit(c: char) { '0' <= c <= '9' }

  /** Fifteen characters starting at `i` have the shape of an IBAN's head: two letters, two
      digits, four letters or digits and seven digits. */
  predicate IbanAt(s: string, i: nat)
    requires i + 15 <= |s|
  {
    Letter(s[i]) && Letter(s[i + 1]) && Digit(s[i + 2]) && Digit(s[i + 3])
    && (forall j :: i + 4 <= j < i + 8 ==> Letter(s[j]) || Digit(s[j]))
    && (forall j :: i + 8 <= j < i + 15 ==> Digit(s[j]))
  }

  /** The unanchored IBAN pattern matches somewhere in the account; the optional tail of the
      pattern can match nothing, so the head decides. */
  predicate IbanShaped(s: string) {
    exists i: nat :: i + 15 <= |s| && IbanAt(s, i)
  }

  /** The account fields of a debit customer. */
  datatype DebitInfo = DebitInfo(iban: Option<string>, swift: Option<string>, blz: Option<string>, kto: Option<string>,
                                 ktoInhaber: Option<string>)

  /** An account holder is exported unless it is empty or the placeholder "Inhaber". */
  function Holder(holder: string): (r: Option<string>)
    ensures r.Some? <==> holder != "" && holder != "Inhaber"
    ensures r.Some? ==> r.value == holder
  {
    if holder == "" || holder == "Inhaber" then None else Some(holder)
  }

  /** Debit (`L`): an IBAN-shaped account fills IBAN and SWIFT, any other fills the bank code,
      without spaces, dashes and slashes, and the account number. */
  function DebitFields(account: string, bankCode: string, holder: string): (r: DebitInfo)
    ensures r.iban.Some? <==> IbanShaped(account)
    ensures r.iban.Some? ==> r.iban == Some(account) && r.swift == Some(bankCode) && r.blz.None? && r.kto.None?
    ensures r.iban.None? ==> r.swift.None? && r.kto == Some(account) && r.blz.Some?
    ensures r.blz.Some? ==> forall c :: c in r.blz.value <==> c in bankCode && c !in {' ', '-', '/'}
    ensures r.ktoInhaber == Holder(holder)
  {
    if IbanShaped(account) then DebitInfo(Some(account), Some(bankCode), None, None, Holder(holder))
    else DebitInfo(None, None, Some(RemoveChars(bankCode, {' ', '-', '/'})), Some(account), Holder(holder))
  }

  /** A SEPA mandate stored with the customer. */
  datatype PaymentData = PaymentData(iban: string, bic: string, accountHolder: string)

  /** The first mandate with both an IBAN and a BIC. */
  function FirstMandate(ps: seq<PaymentData>): (r: Option<nat>)
    ensures r.None? <==> forall k :: 0 <= k < |ps| ==> PhpEmpty(ps[k].bic) || PhpEmpty(ps[k].iban)
    ensures r.Some? ==> r.value < |ps| && !PhpEmpty(ps[r.value].bic) && !PhpEmpty(ps[r.value].iban)
    ensures r.Some? ==> forall k :: 0 <= k < r.value ==> PhpEmpty(ps[k].bic) || PhpEmpty(ps[k].iban)
  {
    if ps == [] then None
    else if !PhpEmpty(ps[0].bic) && !PhpEmpty(ps[0].iban) then Some(0)
    else match FirstMandate(ps[1..])
      case None => None
      case Some(i) => Some(i + 1)
  }

  /** SEPA (`LSCORE`): the first complete mandate fills IBAN, SWIFT and the holder. */
  function SepaFields(ps: seq<PaymentData>): (r: DebitInfo)
    ensures r.blz.None? && r.kto.None?
    ensures r.iban.Some? <==> FirstMandate(ps).Some?
    ensures r.iban.Some? ==> var m := ps[FirstMandate(ps).value];
      r.iban == Some(m.iban) && r.swift == Some(m.bic) && r.ktoInhaber == Holder(m.accountHolder)
    ensures r.iban.None? ==> r == DebitInfo(None, None, None, None, None)
  {
    match FirstMandate(ps)
    case None => DebitInfo(None, None, None, None, None)
    case Some(i) => DebitInfo(Some(ps[i].iban), Some(ps[i].bic), None, None, Holder(ps[i].accountHolder))
  }

  /** The account fields by payment code; every other code exports none. */
  function AccountFields(code: string, account: string, bankCode: string, holder: string, ps: seq<PaymentData>): (r: DebitInfo)
    ensures code == "L" ==> r == DebitFields(account, bankCode, holder)
    ensures code == "LSCORE" ==> r == SepaFields(ps)
    ensures code != "L" && code != "LSCORE" ==> r == DebitInfo(None, None, None, None, None)
  {
    if code == "L" then DebitFields(account, bankCode, holder)
    else if code == "LSCORE" then SepaFields(ps)
    else DebitInfo(None, None, None, None, None)
  }

  // ---------------------------------------------------------------------------------------
  // The order list

  /** What the list loop reads of one order: its header, the customer lookup, the billing and
      shipping country ids (no shipping address means the billing one), the payment means, the
      locale of its language shop, the account data and its discount lines. */
  datatype OrderRow = OrderRow(
    id: int, statusId: int, customerFound: bool, paymentName: Option<string>, net: bool,
    languageIso: string, locale: Option<string>,
    company: string, lastName: string, firstName: string, street: string, streetNumber: string,
    billingCountryId: int, shippingCountryId: Option<int>,
    account: string, bankCode: string, accountHolder: string, mandates: seq<PaymentData>,
    rebates: seq<Rebate>)

  /** The fields of an exported order this model keeps. `langcode` is the top-level field;
      `customerLangcode` is the customer's `langcode`, which is set only in some cases. */
  datatype OrderRecord = OrderRecord(
    orderId: int, ordersStatus: int, paymentMethod: string, verf: string, kurzname: string, adresse: string,
    land: string, deliveryLand: string, langcode: string, customerLangcode: Option<string>, printBrutto: int,
    account: DebitInfo, rabattBetrag: real)

  /** A country id resolves to its ISO code, and an unknown one to "de". */
  function CountryIso(countries: map<int, string>, id: int): (r: string)
    ensures id in countries ==> r == countries[id]
    ensures id !in countries ==> r == "de"
  {
    if id in countries then countries[id] else "de"
  }

  /** The customer's document language: set to the language shop's locale's head, lower-cased,
      only when the locale is not empty and its head has exactly two characters. */
  function CustomerLangcode(locale: Option<string>): (r: Option<string>)
    ensures r.Some? <==> locale.Some? && !PhpEmpty(locale.value) && |LanguageCode(locale.value)| == 2
    ensures r.Some? ==> |r.value| == 2 && r.value == ToLower(LanguageCode(locale.value))
  {
    if locale.Some? && !PhpEmpty(locale.value) && |LanguageCode(locale.value)| == 2
    then Some(ToLower(LanguageCode(locale.value)))
    else None
  }

  /** The payment means' name, or the empty string when the payment means cannot be read. */
  function PaymentMethod(o: OrderRow): string {
    if o.paymentName.Some? then o.paymentName.value else ""
  }

  /** The export of one order. */
  function OrderRecordOf(o: OrderRow, countries: map<int, string>): (r: OrderRecord)
    ensures r.orderId == o.id && r.ordersStatus == o.statusId
    ensures r.paymentMethod == PaymentMethod(o) && r.verf == PaymentCode(PaymentMethod(o))
    ensures r.kurzname == ShortName(o.company, o.lastName, o.firstName)
    ensures r.adresse == Address(o.street, o.streetNumber)
    ensures r.land == CountryIso(countries, o.billingCountryId)
    ensures r.deliveryLand == CountryIso(countries, if o.shippingCountryId.Some? then o.shippingCountryId.value else o.billingCountryId)
    ensures r.langcode == o.languageIso && r.customerLangcode == CustomerLangcode(o.locale)
    ensures r.printBrutto == if o.net then 0 else 1
    ensures r.account == AccountFields(PaymentCode(PaymentMethod(o)), o.account, o.bankCode, o.accountHolder, o.mandates)
    ensures r.rabattBetrag == Abs(RebateSum(o.rebates)) && r.rabattBetrag >= 0.0
  {
    var verf := PaymentCode(PaymentMethod(o));
    OrderRecord(
      o.id, o.statusId, PaymentMethod(o), verf, ShortName(o.company, o.lastName, o.firstName), Address(o.street, o.streetNumber),
      CountryIso(countries, o.billingCountryId),
      CountryIso(countries, if o.shippingCountryId.Some? then o.shippingCountryId.value else o.billingCountryId),
      o.languageIso, CustomerLangcode(o.locale), if o.net then 0 else 1,
      AccountFields(verf, o.account, o.bankCode, o.accountHolder, o.mandates),
      Abs(RebateSum(o.rebates)))
  }

  /** Only a payment means the table names as debit or SEPA exports account fields. */
  lemma AccountOnlyForDebit(o: OrderRow, countries: map<int, string>)
    ensures OrderRecordOf(o, countries).account != DebitInfo(None, None, None, None, None) ==>
      PaymentMethod(o) in PaymentMap && PaymentMap[PaymentMethod(o)] in {"L", "LSCORE"}
  {
  }

  /** An order is exported unless its status is negative or its customer cannot be read. */
  predicate Exported(o: OrderRow) {
    o.statusId >= 0 && o.customerFound
  }

  /** The records of the exported orders of a page, in page order. */
  function OrderRecords(orders: seq<OrderRow>, countries: map<int, string>): (r: seq<OrderRecord>)
    ensures |r| <= |orders|
  {
    if orders == [] then []
    else
      var o := orders[|orders| - 1];
      OrderRecords(orders[..|orders| - 1], countries) + (if Exported(o) then [OrderRecordOf(o, countries)] else [])
  }

  /** The orders of a page that are exported, in page order. */
  function ExportedOrders(orders: seq<OrderRow>): (r: seq<OrderRow>)
    ensures forall k :: 0 <= k < |r| ==> Exported(r[k]) && r[k] in orders
  {
    if orders == [] then []
    else
      var o := orders[|orders| - 1];
      ExportedOrders(orders[..|orders| - 1]) + (if Exported(o) then [o] else [])
  }

  /** The list holds one record per exported order, in page order; so no record has a negative
      status. */
  lemma {:induction false} RecordsOfExported(orders: seq<OrderRow>, countries: map<int, string>)
    ensures |OrderRecords(orders, countries)| == |ExportedOrders(orders)|
    ensures forall k :: 0 <= k < |ExportedOrders(orders)| ==>
      OrderRecords(orders, countries)[k] == OrderRecordOf(ExportedOrders(orders)[k], countries)
    ensures forall k :: 0 <= k < |OrderRecords(orders, countries)| ==> OrderRecords(orders, countries)[k].ordersStatus >= 0
  {
    if orders != [] {
      RecordsOfExported(orders[..|orders| - 1], countries);
    }
  }

  /** Every exported order of the page is in the list. */
  lemma {:induction false} ExportedOrdersListed(orders: seq<OrderRow>, j: nat)
    requires j < |orders| && Exported(orders[j])
    ensures orders[j] in ExportedOrders(orders)
  {
    var init := orders[..|orders| - 1];
    if j < |orders| - 1 {
      assert init[j] == orders[j];
      ExportedOrdersListed(init, j);
    }
  }

  /** One exported order: the record, with the discount summed by the discount loop. */
  method ExportOrder(o: OrderRow, countries: map<int, string>) returns (record: OrderRecord)
    ensures record == OrderRecordOf(o, countries)
  {
    var rabatt := Discount(o.rebates);
    record := OrderRecordOf(o, countries).(rabattBetrag := rabatt);
  }

  /** One turn of the list loop: an exported order appends its record. */
  method ListTurn(orders: seq<OrderRow>, k: nat, countries: map<int, string>, response: seq<OrderRecord>)
    returns (next: seq<OrderRecord>)
    requires k < |orders| && response == OrderRecords(orders[..k], countries)
    ensures next == OrderRecords(orders[..k + 1], countries)
  {
    assert orders[..k + 1][..k] == orders[..k];
    var o := orders[k];
    next := response;
    if o.statusId >= 0 && o.customerFound {
      var record := ExportOrder(o, countries);
      next := next + [record];
    }
  }

  /** `getList`: no order at all is an error; otherwise the page's orders are exported in order,
      skipping those with a negative status and those whose customer cannot be read. */
  method GetList(total: int, orders: seq<OrderRow>, countries: map<int, string>) returns (r: Result<seq<OrderRecord>>)
    ensures r.Err? <==> total == 0
    ensures r.Ok? ==> r.value == OrderRecords(orders, countries)
  {
    if total == 0 {
      return Err("Could not find any orders");
    }
    var response: seq<OrderRecord> := [];
    var k := 0;
    while k < |orders|
      invariant 0 <= k <= |orders|
      invariant response == OrderRecords(orders[..k], countries)
    {
      response := ListTurn(orders, k, countries, response);
      k := k + 1;
    }
    assert orders[..k] == orders;
    r := Ok(response);
  }

  // ---------------------------------------------------------------------------------------
  // Positions

  /** A line of an order: its article, price, tax rate, mode (0 article, 1 premium, 2 voucher,
      3 discount, 4 payment surcharge, 10 bundle rebate) and quantity. */
  datatype Position = Position(articleNumber: string, articleName: string, price: real, taxRate: real, mode: int, quantity: int)

  /** The shipping method of the order. */
  datatype Dispatch = Dispatch(id: int, name: string, description: string)

  /** An exported position line. */
  datatype PositionLine = PositionLine(artNr: string, artName: string, preis: real, isBrutto: int, lineType: string,
                                       mwst: real, menge: int, langtext: string)

  /** The long text of a premium article, character for character as the connector writes it:
      the German umlaut of "Prämienartikel" appears as the two characters U+221A U+00A7. */
  const PremiumText: string := "<p><i>Pr\U{221A}\U{00A7}mienartikel</i></p>"

  /** The line of one article position: a delivery ("Lief") exactly for modes 0 and 1, a service
      ("NLeist") for every other mode; the article name is HTML-decoded and premium articles
      carry a marker text. */
  function LineOf(p: Position, net: bool): (r: PositionLine)
    ensures r.lineType == "Lief" <==> p.mode == 0 || p.mode == 1
    ensures r.lineType == "NLeist" <==> p.mode != 0 && p.mode != 1
    ensures r.artNr == p.articleNumber && r.preis == p.price && r.mwst == p.taxRate && r.menge == p.quantity
    ensures r.langtext == if p.mode == 1 then PremiumText else ""
    ensures r.artName == HtmlDecode(p.articleName) && |r.artName| <= |p.articleName|
  {
    PositionLine(p.articleNumber, HtmlDecode(p.articleName), p.price, if net then 0 else 1,
                 if p.mode == 0 || p.mode == 1 then "Lief" else "NLeist", p.taxRate, p.quantity,
                 if p.mode == 1 then PremiumText else "")
  }

  /** A name shop stored HTML-escaped is exported as it was entered; one without an ampersand as stored. */
  lemma LineNameUnescaped(p: Position, net: bool, entered: string)
    ensures p.articleName == HtmlEscape(entered) ==> LineOf(p, net).artName == entered
    ensures '&' !in p.articleName ==> LineOf(p, net).artName == p.articleName
  {
    if p.articleName == HtmlEscape(entered) { HtmlRoundTrip(entered); }
    if '&' !in p.articleName { HtmlDecodePlain(p.articleName); }
  }

  /** The lines of every position that is not a discount, in order. */
  function Lines(ps: seq<Position>, net: bool): (r: seq<PositionLine>)
    ensures |r| <= |ps|
  {
    if ps == [] then []
    else
      var last := ps[|ps| - 1];
      Lines(ps[..|ps| - 1], net) + (if last.mode == 3 then [] else [LineOf(last, net)])
  }

  /** The positions that are not discounts. */
  function NonDiscounts(ps: seq<Position>): (r: seq<Position>)
    ensures forall k :: 0 <= k < |r| ==> r[k].mode != 3 && r[k] in ps
  {
    if ps == [] then []
    else
      var last := ps[|ps| - 1];
      NonDiscounts(ps[..|ps| - 1]) + (if last.mode == 3 then [] else [last])
  }

  /** The lines are those of the non-discount positions, one for one and in order. */
  lemma {:induction false} LinesOfNonDiscounts(ps: seq<Position>, net: bool)
    ensures |Lines(ps, net)| == |NonDiscounts(ps)|
    ensures forall k :: 0 <= k < |NonDiscounts(ps)| ==> Lines(ps, net)[k] == LineOf(NonDiscounts(ps)[k], net)
  {
    if ps != [] {
      LinesOfNonDiscounts(ps[..|ps| - 1], net);
    }
  }

  /** The highest tax rate over all positions, discounts included, and at least 0. */
  function MaxTaxRate(ps: seq<Position>): (r: real)
    ensures r >= 0.0
    ensures forall k :: 0 <= k < |ps| ==> ps[k].taxRate <= r
    ensures r == 0.0 || exists k :: 0 <= k < |ps| && ps[k].taxRate == r
  {
    if ps == [] then 0.0
    else
      var m := MaxTaxRate(ps[..|ps| - 1]);
      var t := ps[|ps| - 1].taxRate;
      assert forall k :: 0 <= k < |ps| - 1 ==> ps[..|ps| - 1][k] == ps[k];
      if t > m then t else m
  }

  /** `sprintf('%d', n)`. */
  function IntString(n: int): string {
    if n < 0 then "-" + DecimalString(-n) else DecimalString(n)
  }

  /** The shipping line: one unit of the dispatch's costs at the highest tax rate. */
  function ShippingLine(ps: seq<Position>, net: bool, dispatch: Dispatch, shippingNet: real, shipping: real): (r: PositionLine)
    ensures r.menge == 1 && r.lineType == "NLeist" && r.mwst == MaxTaxRate(ps)
    ensures r.artNr == "SHIPPING" + IntString(dispatch.id)
    ensures r.preis == if net then shippingNet else shipping
  {
    PositionLine("SHIPPING" + IntString(dispatch.id), dispatch.name, if net then shippingNet else shipping,
                 if net then 0 else 1, "NLeist", MaxTaxRate(ps), 1, dispatch.description)
  }

  /** `list_positions`: one line per position that is not a discount, then the shipping line. */
  method ListPositions(ps: seq<Position>, net: bool, dispatch: Dispatch, shippingNet: real, shipping: real)
    returns (response: seq<PositionLine>)
    ensures response == Lines(ps, net) + [ShippingLine(ps, net, dispatch, shippingNet, shipping)]
  {
    response := [];
    var maxTaxRate := 0.0;
    var k := 0;
    while k < |ps|
      invariant 0 <= k <= |ps|
      invariant maxTaxRate == MaxTaxRate(ps[..k])
      invariant response == Lines(ps[..k], net)
    {
      assert ps[..k + 1][..k] == ps[..k];
      var position := ps[k];
      maxTaxRate := if position.taxRate > maxTaxRate then position.taxRate else maxTaxRate;
      if position.mode != 3 {
        response := response + [LineOf(position, net)];
      }
      k := k + 1;
    }
    assert ps[..k] == ps;
    response := response + [PositionLine("SHIPPING" + IntString(dispatch.id), dispatch.name,
                                         if net then shippingNet else shipping, if net then 0 else 1, "NLeist",
                                         maxTaxRate, 1, dispatch.description)];
  }

  // ---------------------------------------------------------------------------------------
  // Status update

  /** The reply of `set_status`. */
  datatype Reply = Reply(ok: bool, error: string)

  /** The order table's status and comment columns, and the known order states. */
  class OrderStore {
    const states: set<int>
    var status: map<int, int>
    var comment: map<int, string>

    constructor(states: set<int>, status: map<int, int>, comment: map<int, string>)
      ensures this.states == states && this.status == status && this.comment == comment
    {
      this.states := states;
      this.status := status;
      this.comment := comment;
    }

    /** `set_status`: an unknown state is refused before anything is written; otherwise the
        order's status and comment are written (an unknown order id writes nothing), and a
        requested notification that fails turns the reply into an error after the write.
        Whether the mail fails is the parameter `mailFails`. */
    method SetStatus(orderId: int, newStatus: int, newComment: string, notifyCustomer: bool, mailFails: bool)
      returns (reply: Reply)
      modifies this
      ensures newStatus !in states ==> !reply.ok && status == old(status) && comment == old(comment)
      ensures newStatus in states && orderId in old(status) ==>
        status == old(status)[orderId := newStatus] && comment == old(comment)[orderId := newComment]
      ensures newStatus in states && orderId !in old(status) ==> status == old(status) && comment == old(comment)
      ensures newStatus in states ==> (reply.ok <==> !(notifyCustomer && mailFails))
    {
      if newStatus !in states {
        return Reply(false, "could not find order status with id " + IntString(newStatus));
      }
      if orderId in status {
        status := status[orderId := newStatus];
        comment := comment[orderId := newComment];
      }
      if notifyCustomer && mailFails {
        return Reply(false, "error sending status email to customer: ");
      }
      reply := Reply(true, "");
    }
  }
}
