/** The customer export: the flat record the hub receives for each customer, built from the
    customer's billing row and shipping address rows, and the query the list is read with. */
module Customers {
  import opened Wrappers
  import opened Strings
  import opened Salutation
  import opened QueryFilters
  import opened Sorting

  /** The hub fields a customer list may be filtered by, and their shop columns. */
  const CustomerColumnMapping: map<string, string> := map[
    "_customers_id" := "`su`.`id`",
    "deb_kred_id" := "`sub`.`customernumber`",
    "vorname" := "`sub`.`firstname`",
    "name" := "`sub`.`lastname`",
    "firma" := "`sub`.`company`",
    "land" := "`scc`.`countryiso`",
    "email" := "`su`.`email`"]

  /** The ordering every customer query ends with. */
  const IdDescending: string := "`su`.`id` DESC"

  // ---------------------------------------------------------------------------------------
  // Field rules shared with the order export

  /** `deb_kred_id`: the customer number when it is positive, 0 otherwise. */
  function DebKredId(customernumber: int): (r: int)
    ensures r >= 0
    ensures r != 0 <==> customernumber > 0
    ensures r != 0 ==> r == customernumber
  {
    if customernumber > 0 then customernumber else 0
  }

  /** `kurzname`: the company when there is one, otherwise "last name, first name". */
  function ShortName(company: string, lastname: string, firstname: string): (r: string)
    ensures !PhpEmpty(r)
    ensures !PhpEmpty(company) ==> r == company
    ensures PhpEmpty(company) ==> r == lastname + ", " + firstname
  {
    if !PhpEmpty(company) then company else lastname + ", " + firstname
  }

  /** `adresse`: the street, a space and the street number with its spaces removed. */
  function Address(street: string, streetnumber: string): string {
    street + " " + RemoveChars(streetnumber, {' '})
  }

  /** The address starts with the street and a space; what follows holds exactly the street
      number's characters other than spaces. */
  lemma AddressSpec(street: string, streetnumber: string)
    ensures |Address(street, streetnumber)| > |street|
    ensures Address(street, streetnumber)[..|street| + 1] == street + " "
    ensures forall c :: c in Address(street, streetnumber)[|street| + 1..] <==> c in streetnumber && c != ' '
  {
    var r := Address(street, streetnumber);
    assert r[|street| + 1..] == RemoveChars(streetnumber, {' '});
  }

  // ---------------------------------------------------------------------------------------
  // Delivery addresses

  /** A shipping address row of a customer. */
  datatype AddressRow = AddressRow(id: int, userId: int, company: string, lastname: string, firstname: string,
                                   street: string, streetnumber: string, department: string, zipcode: string,
                                   city: string, countryiso: string)

  /** A delivery address as the hub receives it. */
  datatype Delivery = Delivery(deliveryId: int, kurzname: string, firma: string, name: string, vorname: string,
                               adresse: string, adresse2: string, plz: string, ort: string, land: string)

  /** `delivery_kurzname` is the company, or the last name when there is none. */
  function DeliveryOf(a: AddressRow): (d: Delivery)
    ensures d.deliveryId == a.id
    ensures d.kurzname == if !PhpEmpty(a.company) then a.company else a.lastname
  {
    Delivery(a.id, if !PhpEmpty(a.company) then a.company else a.lastname, a.company, a.lastname, a.firstname,
             Address(a.street, a.streetnumber), a.department, a.zipcode, a.city, a.countryiso)
  }

  function NegatedId(a: AddressRow): int { -a.id }

  /** The customer's shipping address rows, highest id first, as the address query orders them. */
  function AddressesOf(shipping: seq<AddressRow>, userId: int): (r: seq<AddressRow>)
    ensures forall a :: a in r <==> a in shipping && a.userId == userId
    ensures forall i, j :: 0 <= i < j < |r| ==> r[i].id >= r[j].id
  {
    var own := OwnRows(shipping, userId);
    var r := SortBy(own, NegatedId);
    assert multiset(r) == multiset(own);
    forall a ensures a in r <==> a in own {
      assert a in r <==> a in multiset(r);
      assert a in own <==> a in multiset(own);
    }
    forall i, j | 0 <= i < j < |r| ensures r[i].id >= r[j].id {
      assert NegatedId(r[i]) <= NegatedId(r[j]);
    }
    r
  }

  /** The rows of one customer, in table order. */
  function OwnRows(shipping: seq<AddressRow>, userId: int): (r: seq<AddressRow>)
    ensures forall a :: a in r <==> a in shipping && a.userId == userId
  {
    if shipping == [] then []
    else
      var last := shipping[|shipping| - 1];
      OwnRows(shipping[..|shipping| - 1], userId) + (if last.userId == userId then [last] else [])
  }

  /** The delivery addresses in list order. */
  function Deliveries(rows: seq<AddressRow>): (r: seq<Delivery>)
    ensures |r| == |rows| && forall k :: 0 <= k < |rows| ==> r[k] == DeliveryOf(rows[k])
  {
    seq(|rows|, k requires 0 <= k < |rows| => DeliveryOf(rows[k]))
  }

  // ---------------------------------------------------------------------------------------
  // Customer records

  /** A customer's billing row joined with the user, the country and the customer group. */
  datatype CustomerRow = CustomerRow(
    userId: int, customernumber: int, salutation: string, company: string, lastname: string, firstname: string,
    street: string, streetnumber: string, department: string, zipcode: string, city: string, countryiso: string,
    phone: string, fax: string, ustid: string, email: string, net: string, groupId: string, birthday: string)

  /** The detailed record of `exportCustomer`. `merged` holds the delivery fields copied onto the
      record's top level, if any. */
  datatype CustomerInfo = CustomerInfo(
    debKredId: int, anrede: string, kurzname: string, firma: string, name: string, vorname: string,
    adresse: string, adresse2: string, plz: string, ort: string, land: string, tel: string, fax: string,
    ustid: string, email: string, printBrutto: int, customersId: int, currency: string, preisgruppe: string,
    gebdat: string, deliveryAddresses: seq<Delivery>, merged: Option<Delivery>)

  /** The record of one customer with the given delivery list: when the list is not empty, its
      last entry is merged onto the top level. */
  function RecordWith(row: CustomerRow, deliveries: seq<Delivery>): (r: CustomerInfo)
    ensures r.deliveryAddresses == deliveries
    ensures r.merged.None? <==> deliveries == []
    ensures r.merged.Some? ==> r.merged.value == deliveries[|deliveries| - 1]
    ensures r.gebdat == if PhpEmpty(row.birthday) then "0000-00-00" else row.birthday
    ensures r.printBrutto == 1 <==> !PhpEmpty(row.net)
    ensures r.printBrutto == 0 <==> PhpEmpty(row.net)
  {
    CustomerInfo(
      DebKredId(row.customernumber), GetSalutation(row.salutation), ShortName(row.company, row.lastname, row.firstname),
      row.company, row.lastname, row.firstname, Address(row.street, row.streetnumber), row.department,
      row.zipcode, row.city, row.countryiso, row.phone, row.fax, row.ustid, row.email,
      if PhpEmpty(row.net) then 0 else 1, row.userId, "EUR", row.groupId,
      if PhpEmpty(row.birthday) then "0000-00-00" else row.birthday,
      deliveries, if deliveries != [] then Some(deliveries[|deliveries| - 1]) else None)
  }

  /** The record of one customer: its delivery addresses highest id first, and the one with the
      lowest id merged onto the top level. */
  function CustomerRecord(row: CustomerRow, shipping: seq<AddressRow>): (r: CustomerInfo)
    ensures r == RecordWith(row, Deliveries(AddressesOf(shipping, row.userId)))
    ensures r.merged.None? <==> forall a :: a in shipping ==> a.userId != row.userId
  {
    var own := AddressesOf(shipping, row.userId);
    assert own == [] <==> forall a :: a in shipping ==> a.userId != row.userId by {
      if own != [] { assert own[0] in own; }
    }
    RecordWith(row, Deliveries(own))
  }

  function Last(own: seq<AddressRow>): AddressRow
    requires own != []
  {
    own[|own| - 1]
  }

  /** In a list ordered by descending id, the last entry has the lowest id. */
  lemma LastIsLowest(own: seq<AddressRow>)
    requires own != []
    requires forall i, j :: 0 <= i < j < |own| ==> own[i].id >= own[j].id
    ensures forall b :: b in own ==> Last(own).id <= b.id
  {
    forall b | b in own ensures Last(own).id <= b.id {
      var i :| 0 <= i < |own| && own[i] == b;
      if i < |own| - 1 {
        assert own[i].id >= own[|own| - 1].id;
      }
    }
  }

  /** The merged delivery address comes from the last of the customer's addresses in list order. */
  lemma MergedIsLast(row: CustomerRow, shipping: seq<AddressRow>)
    ensures CustomerRecord(row, shipping).merged
            == if AddressesOf(shipping, row.userId) == [] then None else Some(DeliveryOf(Last(AddressesOf(shipping, row.userId))))
  {
    var own := AddressesOf(shipping, row.userId);
    var ds := Deliveries(own);
    if own != [] {
      assert ds[|own| - 1] == DeliveryOf(own[|own| - 1]);
    }
  }

  /** When the customer has a shipping address, the last one in list order has the lowest id. */
  lemma LowestAddress(shipping: seq<AddressRow>, userId: int)
    requires exists a :: a in shipping && a.userId == userId
    ensures AddressesOf(shipping, userId) != []
    ensures Last(AddressesOf(shipping, userId)) in shipping && Last(AddressesOf(shipping, userId)).userId == userId
    ensures forall b :: b in shipping && b.userId == userId ==> Last(AddressesOf(shipping, userId)).id <= b.id
  {
    var own := AddressesOf(shipping, userId);
    var a :| a in shipping && a.userId == userId;
    assert a in own;
    LastIsLowest(own);
    assert Last(own) in own;
  }

  /** The merged delivery address is the customer's shipping address with the lowest id. */
  lemma MergedIsLowestId(row: CustomerRow, shipping: seq<AddressRow>)
    requires exists a :: a in shipping && a.userId == row.userId
    ensures CustomerRecord(row, shipping).merged.Some?
    ensures exists a :: a in shipping && a.userId == row.userId && CustomerRecord(row, shipping).merged == Some(DeliveryOf(a))
    ensures forall a :: a in shipping && a.userId == row.userId ==> CustomerRecord(row, shipping).merged.value.deliveryId <= a.id
  {
    LowestAddress(shipping, row.userId);
    MergedIsLast(row, shipping);
  }

  /** The entry of `exportList`: the record without delivery addresses and account details. */
  datatype ListEntry = ListEntry(
    debKredId: int, anrede: string, kurzname: string, firma: string, name: string, vorname: string,
    adresse: string, plz: string, ort: string, land: string, email: string, customersId: int)

  function ListEntryOf(row: CustomerRow): (e: ListEntry)
    ensures e.debKredId == DebKredId(row.customernumber) && e.customersId == row.userId
  {
    ListEntry(DebKredId(row.customernumber), GetSalutation(row.salutation), ShortName(row.company, row.lastname, row.firstname),
              row.company, row.lastname, row.firstname, Address(row.street, row.streetnumber), row.zipcode,
              row.city, row.countryiso, row.email, row.userId)
  }

  /** The short list entry agrees with the detailed record on every field they share. */
  lemma ListAgreesWithRecord(row: CustomerRow, shipping: seq<AddressRow>)
    ensures var e := ListEntryOf(row);
      var r := CustomerRecord(row, shipping);
      e.debKredId == r.debKredId && e.anrede == r.anrede && e.kurzname == r.kurzname && e.firma == r.firma
      && e.name == r.name && e.vorname == r.vorname && e.adresse == r.adresse && e.plz == r.plz
      && e.ort == r.ort && e.land == r.land && e.email == r.email && e.customersId == r.customersId
  {
  }

  // ---------------------------------------------------------------------------------------
  // Queries and the list operations

  /** The query of both customer exports: the filters translated through the customer column
      mapping, then ordered by user id, highest first. */
  function CustomerQuery(filters: Filters, quote: seq<string> -> string): (r: Result<Query>)
    ensures r.Err? <==> exists k :: 0 <= k < |WhereFilters(filters)| && WhereFilters(filters)[k].field !in CustomerColumnMapping
    ensures r.Ok? ==> |r.value.order| >= 2 && r.value.order[0] == "1" && r.value.order[|r.value.order| - 1] == IdDescending
    ensures r.Ok? ==> r.value.where == CreateQuery(filters, CustomerColumnMapping, quote).value.where
  {
    match CreateQuery(filters, CustomerColumnMapping, quote)
    case Err(e) => Err(e)
    case Ok(q) => Ok(q.(order := q.order + [IdDescending]))
  }

  /** The delivery address loop of `exportCustomer`. */
  method DeliveryList(rows: seq<AddressRow>) returns (deliveries: seq<Delivery>)
    ensures deliveries == Deliveries(rows)
  {
    deliveries := [];
    var i := 0;
    while i < |rows|
      invariant 0 <= i <= |rows|
      invariant |deliveries| == i && forall k :: 0 <= k < i ==> deliveries[k] == DeliveryOf(rows[k])
    {
      deliveries := deliveries + [DeliveryOf(rows[i])];
      i := i + 1;
    }
  }

  /** One turn of the customer loop: the delivery list, then the record. */
  method ExportOne(row: CustomerRow, shipping: seq<AddressRow>) returns (info: CustomerInfo)
    ensures info == CustomerRecord(row, shipping)
  {
    var deliveries := DeliveryList(AddressesOf(shipping, row.userId));
    info := RecordWith(row, deliveries);
  }

  /** `exportCustomer`: the records of the customers the query returns, in query order. */
  method ExportCustomer(filters: Filters, quote: seq<string> -> string, rows: seq<CustomerRow>, shipping: seq<AddressRow>)
    returns (r: Result<seq<CustomerInfo>>)
    ensures r.Err? <==> CustomerQuery(filters, quote).Err?
    ensures r.Ok? ==> r.value == Records(rows, shipping)
  {
    var query := CustomerQuery(filters, quote);
    if query.Err? {
      return Err(query.error);
    }
    var customers: seq<CustomerInfo> := [];
    var k := 0;
    while k < |rows|
      invariant 0 <= k <= |rows|
      invariant customers == Records(rows[..k], shipping)
    {
      RecordsStep(rows, shipping, k);
      var info := ExportOne(rows[k], shipping);
      customers := customers + [info];
      k := k + 1;
    }
    assert rows[..k] == rows;
    r := Ok(customers);
  }

  /** The records of the customer rows, in row order. */
  function Records(rows: seq<CustomerRow>, shipping: seq<AddressRow>): (r: seq<CustomerInfo>)
    ensures |r| == |rows|
  {
    if rows == [] then [] else Records(rows[..|rows| - 1], shipping) + [CustomerRecord(rows[|rows| - 1], shipping)]
  }

  lemma RecordsStep(rows: seq<CustomerRow>, shipping: seq<AddressRow>, k: nat)
    requires k < |rows|
    ensures Records(rows[..k + 1], shipping) == Records(rows[..k], shipping) + [CustomerRecord(rows[k], shipping)]
  {
    assert rows[..k + 1][..k] == rows[..k];
  }

  lemma {:induction false} RecordsAt(rows: seq<CustomerRow>, shipping: seq<AddressRow>, k: nat)
    requires k < |rows|
    ensures Records(rows, shipping)[k] == CustomerRecord(rows[k], shipping)
  {
    var init := rows[..|rows| - 1];
    var last := CustomerRecord(rows[|rows| - 1], shipping);
    assert Records(rows, shipping) == Records(init, shipping) + [last];
    if k < |rows| - 1 {
      RecordsAt(init, shipping, k);
      assert init[k] == rows[k];
    }
  }

  /** `exportList`: the short entries of the customers the query returns, in query order. */
  method ExportList(filters: Filters, quote: seq<string> -> string, rows: seq<CustomerRow>)
    returns (r: Result<seq<ListEntry>>)
    ensures r.Err? <==> CustomerQuery(filters, quote).Err?
    ensures r.Ok? ==> |r.value| == |rows| && forall k :: 0 <= k < |rows| ==> r.value[k] == ListEntryOf(rows[k])
  {
    var query := CustomerQuery(filters, quote);
    if query.Err? {
      return Err(query.error);
    }
    var customers: seq<ListEntry> := [];
    var k := 0;
    while k < |rows|
      invariant 0 <= k <= |rows| && |customers| == k
      invariant forall i :: 0 <= i < k ==> customers[i] == ListEntryOf(rows[i])
    {
      customers := customers + [ListEntryOf(rows[k])];
      k := k + 1;
    }
    r := Ok(customers);
  }

  /** What `getList` hands back: the short list or the detailed records. */
  datatype CustomerList = Entries(entries: seq<ListEntry>) | Details(customers: seq<CustomerInfo>)

  /** `getList`: the list flag picks the short list, otherwise the detailed export runs. */
  method GetList(list: bool, filters: Filters, quote: seq<string> -> string, rows: seq<CustomerRow>, shipping: seq<AddressRow>)
    returns (r: Result<CustomerList>)
    ensures r.Err? <==> CustomerQuery(filters, quote).Err?
    ensures r.Ok? && list ==> (r.value.Entries? && |r.value.entries| == |rows|
      && forall k :: 0 <= k < |rows| ==> r.value.entries[k] == ListEntryOf(rows[k]))
    ensures r.Ok? && !list ==> (r.value.Details? && |r.value.customers| == |rows|
      && r.value.customers == Records(rows, shipping))
  {
    if list {
      var res := ExportList(filters, quote, rows);
      r := if res.Ok? then Ok(Entries(res.value)) else Err(res.error);
    } else {
      var res := ExportCustomer(filters, quote, rows, shipping);
      r := if res.Ok? then Ok(Details(res.value)) else Err(res.error);
    }
  }
}
