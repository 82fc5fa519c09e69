/** The article service's entry points: which of the export paths `get` takes, whether
    `create_update` updates or imports, which ordernumber a new article gets, and the stock
    update of one article or of a batch of articles. */
module ProductService {
  import opened Wrappers
  import opened Strings
  import opened MasterNumber
  import opened ProductFields

  // ---------------------------------------------------------------------------------------
  // get

  /** The export a `get` call ends in: the whole article list, the list narrowed to one
      ordernumber, or every detail of one article (the second argument then holds the shop's
      article id). */
  datatype GetRoute = ListAll | ListOne(ordernumber: string) | Product(articleId: string)

  /** `get`: an empty ordernumber asks for the list; with a list flag the list is narrowed to the
      ordernumber; otherwise the single article is exported. */
  function Get(ordernumber: string, justList: int): (r: GetRoute)
    ensures r == ListAll <==> PhpEmpty(ordernumber)
    ensures r.ListOne? <==> !PhpEmpty(ordernumber) && justList != 0
    ensures r.Product? <==> !PhpEmpty(ordernumber) && justList == 0
    ensures r.ListOne? ==> r.ordernumber == ordernumber
    ensures r.Product? ==> r.articleId == ordernumber
  {
    if PhpEmpty(ordernumber) then ListAll
    else if justList != 0 then ListOne(ordernumber)
    else Product(ordernumber)
  }

  /** The article the list query is narrowed to: none without an ordernumber filter, otherwise
      the article the ordernumber resolves to, or 0 (which matches no article) when it resolves
      to none. */
  function ListArticle(details: seq<DetailRow>, attrs: seq<AttrRow>, filter: Option<string>): (r: Option<int>)
    ensures r.None? <==> filter.None? || PhpEmpty(filter.value)
    ensures r.Some? ==> (r.value == 0 <==> FindArticleId(details, attrs, filter.value).Err?)
    ensures r.Some? && r.value != 0 ==> FindArticleId(details, attrs, filter.value) == Ok(r.value)
  {
    if filter.None? || PhpEmpty(filter.value) then None
    else match FindArticleId(details, attrs, filter.value)
      case Ok(id) => Some(id)
      case Err(_) => Some(0)
  }

  /** The ordernumber filter the list export of a `get` call sees: the caller's own filter on
      the plain list, the ordernumber passed in on a narrowed list (`array_merge` overrides the
      caller's entry), and none when the single article is exported. */
  function GetFilter(ordernumber: string, justList: int, callerFilter: Option<string>): (r: Option<string>)
    ensures Get(ordernumber, justList) == ListAll ==> r == callerFilter
    ensures Get(ordernumber, justList).ListOne? ==> r == Some(ordernumber)
    ensures Get(ordernumber, justList).Product? ==> r.None?
  {
    match Get(ordernumber, justList)
    case ListAll => callerFilter
    case ListOne(n) => Some(n)
    case Product(_) => None
  }

  /** A narrowed list names exactly the article the ordernumber resolves to, whatever filter the
      caller sent. */
  lemma ListOneNarrows(details: seq<DetailRow>, attrs: seq<AttrRow>, ordernumber: string, justList: int,
                       callerFilter: Option<string>)
    requires Get(ordernumber, justList).ListOne?
    ensures ListArticle(details, attrs, GetFilter(ordernumber, justList, callerFilter)).Some?
    ensures var id := ListArticle(details, attrs, GetFilter(ordernumber, justList, callerFilter)).value;
      (id != 0 ==> FindArticleId(details, attrs, ordernumber) == Ok(id))
      && (id == 0 ==> FindArticleId(details, attrs, ordernumber).Err?)
  {
    assert GetFilter(ordernumber, justList, callerFilter) == Some(ordernumber);
  }

  /** The plain list is narrowed by the caller's own ordernumber filter exactly as a narrowed list
      would be by that number. */
  lemma ListAllUsesCallerFilter(details: seq<DetailRow>, attrs: seq<AttrRow>, ordernumber: string, justList: int,
                                number: string)
    requires PhpEmpty(ordernumber) && !PhpEmpty(number)
    ensures ListArticle(details, attrs, GetFilter(ordernumber, justList, Some(number)))
         == ListArticle(details, attrs, GetFilter(number, 1, None))
  {
    assert Get(number, 1) == ListOne(number);
  }

  // ---------------------------------------------------------------------------------------
  // create_update and importProduct

  /** What `create_update` does with a product: update the article its ordernumber resolves to,
      import it as a new article, or import it after the update of the resolved article threw the
      connector's exception (the `try` covers the update as well). */
  datatype Route = Update(articleId: int) | Import | ImportAfterFailedUpdate(articleId: int)

  /** `updateFails` says whether `updateProduct` throws the connector's exception for this
      product. */
  function CreateUpdate(details: seq<DetailRow>, attrs: seq<AttrRow>, artNr: string, updateFails: bool): (r: Route)
    ensures r.Import? <==> FindArticleId(details, attrs, artNr).Err?
    ensures r.Update? <==> FindArticleId(details, attrs, artNr).Ok? && !updateFails
    ensures r.ImportAfterFailedUpdate? <==> FindArticleId(details, attrs, artNr).Ok? && updateFails
    ensures !r.Import? ==> FindArticleId(details, attrs, artNr) == Ok(r.articleId) && r.articleId != 0
  {
    match FindArticleId(details, attrs, artNr)
    case Ok(id) => if updateFails then ImportAfterFailedUpdate(id) else Update(id)
    case Err(_) => Import
  }

  /** `importProduct`'s ordernumber for the new article's main detail: the product's own number
      for a plain article, the first variant's number for a variant article (none when the
      variant list is empty). */
  function ImportOrdernumber(artNr: string, variantNumbers: Option<seq<string>>): (r: Option<string>)
    ensures variantNumbers.None? ==> r == Some(artNr)
    ensures variantNumbers.Some? && variantNumbers.value != [] ==> r == Some(variantNumbers.value[0])
    ensures variantNumbers == Some([]) ==> r.None?
  {
    match variantNumbers
    case None => Some(artNr)
    case Some(ns) => if ns == [] then None else Some(ns[0])
  }

  lemma {:induction false} FirstDetailAppend(details: seq<DetailRow>, d: DetailRow)
    requires forall k :: 0 <= k < |details| ==> details[k].ordernumber != d.ordernumber
    ensures FirstDetail(details + [d], d.ordernumber) == Some(d)
  {
    if details != [] {
      assert (details + [d])[1..] == details[1..] + [d];
      FirstDetailAppend(details[1..], d);
    }
  }

  /** Once a plain article is imported under its own ordernumber (the shop refuses a number a
      detail already carries), the next `create_update` of the same product updates that article
      instead of importing it again. */
  lemma ImportThenUpdate(details: seq<DetailRow>, attrs: seq<AttrRow>, artNr: string, detailId: int, articleId: int)
    requires forall k :: 0 <= k < |details| ==> details[k].ordernumber != artNr
    requires articleId != 0
    ensures var number := ImportOrdernumber(artNr, None).value;
      CreateUpdate(details + [DetailRow(detailId, articleId, number)], attrs, artNr, false) == Update(articleId)
  {
    FirstDetailAppend(details, DetailRow(detailId, articleId, artNr));
  }

  // ---------------------------------------------------------------------------------------
  // Stock updates

  /** The stock fields of one variant detail. */
  datatype DetailStock = DetailStock(inStock: int, active: int, shippingTime: int)

  /** One variant of a stock update: its ordernumber, stock and the optional status and
      shipping status. */
  datatype VariantStock = VariantStock(ordernumber: string, inStock: int, status: Option<int>, shippingStatus: Option<int>)

  /** One article of a stock update. `artNr` is `None` when the record has no ordernumber; an
      empty `variants` list means a plain article. */
  datatype StockItem = StockItem(artNr: Option<string>, inStock: int, productsStatus: int, shippingStatus: int,
                                 variants: seq<VariantStock>)

  /** What the stock updates change: the detail rows' stock fields by detail id, and the
      articles' active flags by article id. */
  datatype ShopStock = ShopStock(stock: map<int, DetailStock>, articleActive: map<int, bool>)

  /** The update one variant's stock record makes to a detail row. */
  function UpdateDetail(s: DetailStock, v: VariantStock): (r: DetailStock)
    ensures r.inStock == v.inStock
    ensures r.active == if v.status.Some? then v.status.value else s.active
    ensures r.shippingTime == if v.shippingStatus.Some? then ShippingTime(v.shippingStatus.value) else s.shippingTime
  {
    var s1 := s.(inStock := v.inStock);
    var s2 := if v.status.Some? then s1.(active := v.status.value) else s1;
    if v.shippingStatus.Some? then s2.(shippingTime := ShippingTime(v.shippingStatus.value)) else s2
  }

  /** The detail with id `id` is a variant of the article with this ordernumber. */
  predicate Targets(details: seq<DetailRow>, id: int, articleId: int, number: string) {
    exists k :: 0 <= k < |details| && details[k] == DetailRow(id, articleId, number)
  }

  /** The update of every detail row of the article that carries the variant's ordernumber. */
  function ApplyVariant(stock: map<int, DetailStock>, details: seq<DetailRow>, articleId: int, v: VariantStock)
    : (r: map<int, DetailStock>)
    ensures r.Keys == stock.Keys
    ensures forall id :: id in stock && Targets(details, id, articleId, v.ordernumber) ==> r[id] == UpdateDetail(stock[id], v)
    ensures forall id :: id in stock && !Targets(details, id, articleId, v.ordernumber) ==> r[id] == stock[id]
  {
    map id | id in stock :: if Targets(details, id, articleId, v.ordernumber) then UpdateDetail(stock[id], v) else stock[id]
  }

  /** No variant record names an ordernumber the detail `id` of the article carries. */
  predicate Untouched(details: seq<DetailRow>, id: int, articleId: int, vs: seq<VariantStock>) {
    forall k :: 0 <= k < |vs| ==> !Targets(details, id, articleId, vs[k].ordernumber)
  }

  /** The variant records applied one after the other. */
  function ApplyVariants(stock: map<int, DetailStock>, details: seq<DetailRow>, articleId: int, vs: seq<VariantStock>)
    : (r: map<int, DetailStock>)
    ensures r.Keys == stock.Keys
    ensures forall id :: id in stock && Untouched(details, id, articleId, vs) ==> r[id] == stock[id]
  {
    if vs == [] then stock
    else ApplyVariant(ApplyVariants(stock, details, articleId, vs[..|vs| - 1]), details, articleId, vs[|vs| - 1])
  }

  /** A detail's stock is the one of the last variant record naming its ordernumber. */
  lemma {:induction false} LastVariantWins(stock: map<int, DetailStock>, details: seq<DetailRow>, articleId: int,
                                          vs: seq<VariantStock>, j: nat, id: int)
    requires j < |vs| && id in stock && Targets(details, id, articleId, vs[j].ordernumber)
    requires forall k :: j < k < |vs| ==> !Targets(details, id, articleId, vs[k].ordernumber)
    ensures ApplyVariants(stock, details, articleId, vs)[id].inStock == vs[j].inStock
  {
    var init := vs[..|vs| - 1];
    if j < |vs| - 1 {
      assert forall k :: j < k < |init| ==> init[k] == vs[k];
      LastVariantWins(stock, details, articleId, init, j, id);
    }
  }

  /** `_importStock` as a value. An unresolvable ordernumber is an error and changes nothing. A
      variant article updates the listed variants' rows; a plain article updates its active flag
      and its main detail's stock and delivery time. */
  function ImportStock(details: seq<DetailRow>, attrs: seq<AttrRow>, mainDetail: map<int, int>,
                       s: ShopStock, item: StockItem): (r: Result<ShopStock>)
    ensures r.Err? <==> item.artNr.None? || FindArticleId(details, attrs, item.artNr.value).Err?
    ensures r.Ok? && item.variants != [] ==>
      r.value == s.(stock := ApplyVariants(s.stock, details, FindArticleId(details, attrs, item.artNr.value).value, item.variants))
    ensures r.Ok? && item.variants == [] ==>
      var id := FindArticleId(details, attrs, item.artNr.value).value;
      r.value.articleActive == s.articleActive[id := item.productsStatus != 0]
      && (id in mainDetail && mainDetail[id] in s.stock ==>
          r.value.stock == s.stock[mainDetail[id] := s.stock[mainDetail[id]].(inStock := item.inStock,
                                                                          shippingTime := ShippingTime(item.shippingStatus))])
  {
    if item.artNr.None? then Err("Could not find article with this ordernumber: ")
    else match FindArticleId(details, attrs, item.artNr.value)
      case Err(e) => Err(e)
      case Ok(id) =>
        if item.variants != [] then
          Ok(s.(stock := ApplyVariants(s.stock, details, id, item.variants)))
        else
          var stock := if id in mainDetail && mainDetail[id] in s.stock then
            s.stock[mainDetail[id] := s.stock[mainDetail[id]].(inStock := item.inStock, shippingTime := ShippingTime(item.shippingStatus))]
            else s.stock;
          Ok(ShopStock(stock, s.articleActive[id := item.productsStatus != 0]))
  }

  /** The payload of `update_stock`: one article record, or a list of them. */
  datatype StockPayload = Single(item: StockItem) | Batch(items: seq<StockItem>)

  /** The response of a successful `update_stock`. */
  datatype StockResponse = SingleOk | BatchOk(success: seq<bool>)

  /** The run of a batch: the position of the record that failed, if any, and the state after. */
  datatype BatchRun = BatchRun(failedAt: Option<nat>, after: ShopStock)

  /** The batch loop: the records are applied in order, and the first failing one ends the run,
      leaving the updates of the records before it in place. */
  function ApplyBatch(details: seq<DetailRow>, attrs: seq<AttrRow>, mainDetail: map<int, int>,
                      s: ShopStock, items: seq<StockItem>): (r: BatchRun)
    ensures r.failedAt.Some? ==> r.failedAt.value < |items|
  {
    if items == [] then BatchRun(None, s)
    else
      var p := ApplyBatch(details, attrs, mainDetail, s, items[..|items| - 1]);
      if p.failedAt.Some? then p
      else match ImportStock(details, attrs, mainDetail, p.after, items[|items| - 1])
        case Err(_) => BatchRun(Some(|items| - 1), p.after)
        case Ok(a) => BatchRun(None, a)
  }

  /** A failed batch stops at its first failing record: the records before it all succeeded and
      their updates stay, and nothing after it is applied. */
  lemma {:induction false} BatchStopsAtFirstFailure(details: seq<DetailRow>, attrs: seq<AttrRow>, mainDetail: map<int, int>,
                                                   s: ShopStock, items: seq<StockItem>)
    requires ApplyBatch(details, attrs, mainDetail, s, items).failedAt.Some?
    ensures var r := ApplyBatch(details, attrs, mainDetail, s, items);
      var j := r.failedAt.value;
      ApplyBatch(details, attrs, mainDetail, s, items[..j]) == BatchRun(None, r.after)
      && ImportStock(details, attrs, mainDetail, r.after, items[j]).Err?
  {
    var init := items[..|items| - 1];
    var p := ApplyBatch(details, attrs, mainDetail, s, init);
    if p.failedAt.Some? {
      BatchStopsAtFirstFailure(details, attrs, mainDetail, s, init);
      var j := p.failedAt.value;
      assert init[..j] == items[..j] && init[j] == items[j];
    } else {
      assert items[..|items| - 1] == init;
    }
  }

  /** The stock tables of the shop; the details, the stored master numbers and the main details
      are read, only the stock fields and the active flags change. */
  class StockStore {
    const details: seq<DetailRow>
    const attrs: seq<AttrRow>
    const mainDetail: map<int, int>
    var stock: map<int, DetailStock>
    var articleActive: map<int, bool>

    constructor(details: seq<DetailRow>, attrs: seq<AttrRow>, mainDetail: map<int, int>,
                stock: map<int, DetailStock>, articleActive: map<int, bool>)
      ensures this.details == details && this.attrs == attrs && this.mainDetail == mainDetail
      ensures this.stock == stock && this.articleActive == articleActive
    {
      this.details := details;
      this.attrs := attrs;
      this.mainDetail := mainDetail;
      this.stock := stock;
      this.articleActive := articleActive;
    }

    function State(): ShopStock
      reads this
    {
      ShopStock(stock, articleActive)
    }

    /** `_importStock`: resolves the article, then writes one update per variant record, or
        the article update of a plain article. */
    method ImportStockItem(item: StockItem) returns (r: Result<bool>)
      modifies this
      ensures var expected := ImportStock(details, attrs, mainDetail, old(State()), item);
        (r.Err? <==> expected.Err?) && (r.Ok? ==> r.value && State() == expected.value)
      ensures r.Err? ==> State() == old(State())
    {
      if item.artNr.None? {
        return Err("Could not find article with this ordernumber: ");
      }
      var found := FindArticleId(details, attrs, item.artNr.value);
      if found.Err? {
        return Err(found.error);
      }
      var articleId := found.value;
      if item.variants != [] {
        var k := 0;
        ghost var stock0 := stock;
        while k < |item.variants|
          invariant 0 <= k <= |item.variants|
          invariant stock == ApplyVariants(stock0, details, articleId, item.variants[..k])
          invariant articleActive == old(articleActive)
        {
          assert item.variants[..k + 1][..k] == item.variants[..k];
          stock := ApplyVariant(stock, details, articleId, item.variants[k]);
          k := k + 1;
        }
        assert item.variants[..k] == item.variants;
      } else {
        articleActive := articleActive[articleId := item.productsStatus != 0];
        if articleId in mainDetail && mainDetail[articleId] in stock {
          var id := mainDetail[articleId];
          stock := stock[id := stock[id].(inStock := item.inStock, shippingTime := ShippingTime(item.shippingStatus))];
        }
      }
      r := Ok(true);
    }

    /** `update_stock`: a record with an ordernumber, or an empty list, is a single update; a
        list of records is applied record by record, and a record that cannot be resolved ends
        the call with an error after the records before it were written. */
    method UpdateStock(payload: StockPayload) returns (r: Result<StockResponse>)
      modifies this
      ensures payload.Single? ==>
        var expected := ImportStock(details, attrs, mainDetail, old(State()), payload.item);
        (r.Ok? <==> expected.Ok?) && (r.Ok? ==> r.value == SingleOk && State() == expected.value)
        && (r.Err? ==> State() == old(State()))
      ensures payload.Batch? && payload.items == [] ==> r.Err? && State() == old(State())
      ensures payload.Batch? && payload.items != [] ==>
        var run := ApplyBatch(details, attrs, mainDetail, old(State()), payload.items);
        (r.Ok? <==> run.failedAt.None?) && State() == run.after
        && (r.Ok? ==> r.value == BatchOk(seq(|payload.items|, _ => true)))
    {
      match payload {
        case Single(item) =>
          var one := ImportStockItem(item);
          if one.Err? {
            return Err(one.error);
          }
          r := Ok(SingleOk);
        case Batch(items) =>
          if items == [] {
            return Err("Could not find article with this ordernumber: ");
          }
          ghost var s0 := State();
          var success: seq<bool> := [];
          var k := 0;
          while k < |items|
            invariant 0 <= k <= |items|
            invariant ApplyBatch(details, attrs, mainDetail, s0, items[..k]) == BatchRun(None, State())
            invariant success == seq(k, _ => true)
          {
            assert items[..k + 1][..k] == items[..k];
            var one := ImportStockItem(items[k]);
            if one.Err? {
              assert ApplyBatch(details, attrs, mainDetail, s0, items[..k + 1]) == BatchRun(Some(k), State());
              FailureIsFinal(details, attrs, mainDetail, s0, items, k + 1);
              return Err(one.error);
            }
            success := success + [one.value];
            k := k + 1;
          }
          assert items[..k] == items;
          r := Ok(BatchOk(success));
      }
    }
  }

  /** Once a record of the batch failed, the later records change nothing of the run. */
  lemma {:induction false} FailureIsFinal(details: seq<DetailRow>, attrs: seq<AttrRow>, mainDetail: map<int, int>,
                                         s: ShopStock, items: seq<StockItem>, n: nat)
    requires n <= |items| && ApplyBatch(details, attrs, mainDetail, s, items[..n]).failedAt.Some?
    ensures ApplyBatch(details, attrs, mainDetail, s, items) == ApplyBatch(details, attrs, mainDetail, s, items[..n])
    decreases |items| - n
  {
    if n < |items| {
      assert items[..n + 1][..n] == items[..n];
      FailureIsFinal(details, attrs, mainDetail, s, items, n + 1);
    } else {
      assert items[..n] == items;
    }
  }
}
