/**
 * Price tiers of an article detail: `_updatePrices` turns the hub's
 * `preisgruppen` (a base price plus numbered `preis_gruppeN`/`preis_rangeN`
 * pairs per customer group) into Shopware price rows, and `_exportPrices`
 * turns stored price rows back into that shape.
 */
module Prices {
  import opened Wrappers
  import opened Sorting
  import opened Pricing
  import opened CustomerGroups

  /** One `preis_gruppeN` / `preis_rangeN` pair; a missing key reads as 0. */
  datatype HubTier = HubTier(price: real, range: real)

  /** The hub's prices for one customer group, tiers in key order. */
  datatype HubGroupPrices = HubGroupPrices(isBrutto: bool, grundpreis: real, tiers: seq<HubTier>)

  /** A Shopware price row; `to` is absent on the last tier of a group. */
  datatype PriceRow = PriceRow(customerGroupKey: string, from: int, to: Option<int>, price: real,
                               pseudoPrice: Option<real>, basePrice: real)

  /** `(int) preis_rangeN`: truncation of a positive range. */
  function TierFrom(t: HubTier): int { t.range.Floor }

  /** The guard as the source writes it: positive range and positive price. */
  predicate AcceptedAsWritten(t: HubTier) { t.range > 0.0 && t.price > 0.0 }

  /** The guard the model uses: the truncated range is a quantity of at least one, and the price is positive. */
  predicate Accepted(t: HubTier) { TierFrom(t) > 0 && t.price > 0.0 }

  /** A range strictly between 0 and 1 passes the written guard yet yields a tier starting at 0. */
  lemma FractionalRangeAsWritten()
    ensures AcceptedAsWritten(HubTier(10.0, 0.5)) && TierFrom(HubTier(10.0, 0.5)) == 0
    ensures !Accepted(HubTier(10.0, 0.5))
  {
  }

  /** Every tier the model accepts starts at one or later. */
  lemma AcceptedStartsAtOne(t: HubTier)
    requires Accepted(t)
    ensures AcceptedAsWritten(t) && TierFrom(t) >= 1
  {
  }

  /** The price as stored: net for groups that take net prices, gross otherwise. */
  function Convert(price: real, taxRate: real, isBrutto: bool, netInput: bool): real
    requires taxRate != -100.0
  {
    if netInput then NetPrice(price, taxRate, isBrutto) else GrossPrice(price, taxRate, isBrutto)
  }

  /** The `$ranges` map (from => price) after the loop over the numbered tiers; later tiers override earlier ones. */
  function TierRanges(tiers: seq<HubTier>, taxRate: real, isBrutto: bool, netInput: bool): map<int, real>
    requires taxRate != -100.0
    decreases |tiers|
  {
    if tiers == [] then map[]
    else
      var n := |tiers| - 1;
      var m := TierRanges(tiers[..n], taxRate, isBrutto, netInput);
      var t := tiers[n];
      if Accepted(t) then m[TierFrom(t) := Convert(t.price, taxRate, isBrutto, netInput)] else m
  }

  /** The ranges hold exactly the starts of the accepted tiers, all at least 1, each with the price of such a tier. */
  lemma {:induction false} TierRangesSpec(tiers: seq<HubTier>, taxRate: real, isBrutto: bool, netInput: bool)
    requires taxRate != -100.0
    ensures forall k :: k in TierRanges(tiers, taxRate, isBrutto, netInput) ==> k >= 1
    ensures forall k :: k in TierRanges(tiers, taxRate, isBrutto, netInput)
                        <==> exists i :: 0 <= i < |tiers| && Accepted(tiers[i]) && TierFrom(tiers[i]) == k
    ensures forall k :: k in TierRanges(tiers, taxRate, isBrutto, netInput) ==>
              exists i :: 0 <= i < |tiers| && Accepted(tiers[i]) && TierFrom(tiers[i]) == k
                          && TierRanges(tiers, taxRate, isBrutto, netInput)[k] == Convert(tiers[i].price, taxRate, isBrutto, netInput)
    decreases |tiers|
  {
    if tiers != [] {
      var n := |tiers| - 1;
      var pre := tiers[..n];
      TierRangesSpec(pre, taxRate, isBrutto, netInput);
      var m0 := TierRanges(pre, taxRate, isBrutto, netInput);
      var m := TierRanges(tiers, taxRate, isBrutto, netInput);
      var t := tiers[n];
      assert m == if Accepted(t) then m0[TierFrom(t) := Convert(t.price, taxRate, isBrutto, netInput)] else m0;
      forall k | k in m
        ensures k >= 1
        ensures exists i :: 0 <= i < |tiers| && Accepted(tiers[i]) && TierFrom(tiers[i]) == k
                            && m[k] == Convert(tiers[i].price, taxRate, isBrutto, netInput)
      {
        if Accepted(t) && k == TierFrom(t) {
          assert tiers[n] == t;
        } else {
          var i :| 0 <= i < n && Accepted(pre[i]) && TierFrom(pre[i]) == k
                   && m0[k] == Convert(pre[i].price, taxRate, isBrutto, netInput);
          assert pre[i] == tiers[i];
        }
      }
      forall k | exists i :: 0 <= i < |tiers| && Accepted(tiers[i]) && TierFrom(tiers[i]) == k
        ensures k in m
      {
        var i :| 0 <= i < |tiers| && Accepted(tiers[i]) && TierFrom(tiers[i]) == k;
        if i < n {
          assert pre[i] == tiers[i];
        }
      }
    }
  }

  /** The ranges of one group: the numbered tiers, then the base price at from = 1. */
  function GroupRanges(info: HubGroupPrices, taxRate: real, netInput: bool): (m: map<int, real>)
    requires taxRate != -100.0
  {
    TierRanges(info.tiers, taxRate, info.isBrutto, netInput)[1 := Convert(info.grundpreis, taxRate, info.isBrutto, netInput)]
  }

  /** A group's ranges always hold the base price at 1, overriding any tier there, and nothing below it. */
  lemma GroupRangesFromOne(info: HubGroupPrices, taxRate: real, netInput: bool)
    requires taxRate != -100.0
    ensures var m := GroupRanges(info, taxRate, netInput); 1 in m && forall k :: k in m ==> k >= 1
    ensures GroupRanges(info, taxRate, netInput)[1] == Convert(info.grundpreis, taxRate, info.isBrutto, netInput)
  {
    TierRangesSpec(info.tiers, taxRate, info.isBrutto, netInput);
  }

  // ---- pseudo prices ----

  /** PHP `$p == null`: absent, or a zero value. */
  predicate NullLike(p: Option<real>) { p.None? || p.value == 0.0 }

  /** The previous price list holds a positive float pseudo price at position `i`. */
  predicate OldPositive(previous: seq<Option<real>>, i: int) {
    0 <= i < |previous| && previous[i].Some? && previous[i].value > 0.0
  }

  /** The pseudo price written on tier `i` of a group that started with `p0`. */
  function PseudoAt(p0: Option<real>, previous: seq<Option<real>>, i: nat): Option<real>
  {
    var prev := if i == 0 then p0 else PseudoAt(p0, previous, i - 1);
    if NullLike(prev) && OldPositive(previous, i) then previous[i] else prev
  }

  /** The first position up to `i` of the previous list that holds a positive pseudo price. */
  function FirstPositive(previous: seq<Option<real>>, i: nat): (r: Option<nat>)
    ensures r.Some? ==> r.value <= i && OldPositive(previous, r.value)
    ensures r.Some? ==> forall j :: 0 <= j < r.value ==> !OldPositive(previous, j)
    ensures r.None? ==> forall j :: 0 <= j <= i ==> !OldPositive(previous, j)
  {
    if i > 0 && FirstPositive(previous, i - 1).Some? then FirstPositive(previous, i - 1)
    else if OldPositive(previous, i) then Some(i)
    else None
  }

  /**
   * A pseudo price the hub supplies is kept on every tier; a missing (or zero)
   * one is taken from the first earlier-positioned previous row with a positive
   * pseudo price and then kept for the remaining tiers.
   */
  lemma {:induction false} PseudoCarry(p0: Option<real>, previous: seq<Option<real>>, i: nat)
    ensures !NullLike(p0) ==> PseudoAt(p0, previous, i) == p0
    ensures NullLike(p0) ==> PseudoAt(p0, previous, i) == match FirstPositive(previous, i)
                                                     case None => p0
                                                     case Some(j) => previous[j]
  {
    if i > 0 { PseudoCarry(p0, previous, i - 1); }
  }

  // ---- rows of one group ----

  /** Row `i` of a group: tier `i` ends one before key `i + 1` begins; the last is open-ended. */
  function RowAt(groupKey: string, keys: seq<int>, ranges: map<int, real>, p0: Option<real>,
                 previous: seq<Option<real>>, basePrice: real, i: nat): PriceRow
    requires i < |keys| && keys[i] in ranges
  {
    PriceRow(groupKey, keys[i], if i < |keys| - 1 then Some(keys[i + 1] - 1) else None,
             ranges[keys[i]], PseudoAt(p0, previous, i), basePrice)
  }

  /** One row per key, in the keys' order. */
  function RowsAt(groupKey: string, keys: seq<int>, ranges: map<int, real>, p0: Option<real>,
                  previous: seq<Option<real>>, basePrice: real): (rows: seq<PriceRow>)
    requires forall i :: 0 <= i < |keys| ==> keys[i] in ranges
    ensures |rows| == |keys|
    ensures forall i :: 0 <= i < |keys| ==> rows[i] == RowAt(groupKey, keys, ranges, p0, previous, basePrice, i)
  {
    seq(|keys|, i requires 0 <= i < |keys| => RowAt(groupKey, keys, ranges, p0, previous, basePrice, i))
  }

  /** The rows written for one known group, tiers in ascending order of `from`. */
  function GroupRows(groupKey: string, ranges: map<int, real>, p0: Option<real>, previous: seq<Option<real>>,
                     basePrice: real): (rows: seq<PriceRow>)
    ensures |rows| == |ranges|
  {
    RowsAt(groupKey, SortedKeys(ranges.Keys), ranges, p0, previous, basePrice)
  }

  /** With 1 among the keys and none below it, the ascending keys start at 1. */
  lemma KeysStartAtOne(ranges: map<int, real>)
    requires 1 in ranges && forall k :: k in ranges ==> k >= 1
    ensures var keys := SortedKeys(ranges.Keys); |keys| >= 1 && keys[0] == 1
  {
    var keys := SortedKeys(ranges.Keys);
    assert 1 in keys;
    var j :| 0 <= j < |keys| && keys[j] == 1;
    assert keys[0] in ranges;
    if j > 0 { assert false; }
  }

  /** Each tier but the last ends one before the next begins, and none ends before it starts. */
  ghost predicate Chained(rows: seq<PriceRow>) {
    forall i :: 0 <= i < |rows| - 1 ==> rows[i].to == Some(rows[i + 1].from - 1) && rows[i].from <= rows[i].to.value
  }

  /** The tiers start at 1, ascend strictly, chain without gaps, and the last is open-ended. */
  ghost predicate TiersShaped(rows: seq<PriceRow>) {
    && |rows| >= 1 && rows[0].from == 1 && rows[|rows| - 1].to.None?
    && (forall i, j :: 0 <= i < j < |rows| ==> rows[i].from < rows[j].from)
    && Chained(rows)
  }

  lemma RowsChain(groupKey: string, keys: seq<int>, ranges: map<int, real>, p0: Option<real>,
                  previous: seq<Option<real>>, basePrice: real, i: nat)
    requires forall k :: 0 <= k < |keys| ==> keys[k] in ranges
    requires i + 1 < |keys| && keys[i] < keys[i + 1]
    ensures var rows := RowsAt(groupKey, keys, ranges, p0, previous, basePrice);
      rows[i].to == Some(rows[i + 1].from - 1) && rows[i].from <= rows[i].to.value
  {
    var rows := RowsAt(groupKey, keys, ranges, p0, previous, basePrice);
    assert rows[i] == RowAt(groupKey, keys, ranges, p0, previous, basePrice, i);
    assert rows[i + 1] == RowAt(groupKey, keys, ranges, p0, previous, basePrice, i + 1);
  }

  /** Row `i` starts at key `i` and carries that key's price. */
  lemma RowsStarts(groupKey: string, keys: seq<int>, ranges: map<int, real>, p0: Option<real>,
                   previous: seq<Option<real>>, basePrice: real)
    requires forall k :: 0 <= k < |keys| ==> keys[k] in ranges
    ensures var rows := RowsAt(groupKey, keys, ranges, p0, previous, basePrice);
      forall i :: 0 <= i < |rows| ==> rows[i].from == keys[i] && rows[i].price == ranges[keys[i]]
  {
    var rows := RowsAt(groupKey, keys, ranges, p0, previous, basePrice);
    forall i | 0 <= i < |rows| ensures rows[i].from == keys[i] && rows[i].price == ranges[keys[i]] {
      assert rows[i] == RowAt(groupKey, keys, ranges, p0, previous, basePrice, i);
    }
  }

  /** Every key starts some row. */
  lemma RowsCoverKeys(groupKey: string, keys: seq<int>, ranges: map<int, real>, p0: Option<real>,
                      previous: seq<Option<real>>, basePrice: real)
    requires forall k :: 0 <= k < |keys| ==> keys[k] in ranges
    ensures var rows := RowsAt(groupKey, keys, ranges, p0, previous, basePrice);
      forall k :: k in keys ==> exists i :: 0 <= i < |rows| && rows[i].from == k
  {
    var rows := RowsAt(groupKey, keys, ranges, p0, previous, basePrice);
    RowsStarts(groupKey, keys, ranges, p0, previous, basePrice);
    forall k | k in keys ensures exists i :: 0 <= i < |rows| && rows[i].from == k {
      var i :| 0 <= i < |keys| && keys[i] == k;
      assert rows[i].from == k;
    }
  }

  /** Over strictly increasing keys the rows' starts ascend strictly. */
  lemma RowsAscend(groupKey: string, keys: seq<int>, ranges: map<int, real>, p0: Option<real>,
                   previous: seq<Option<real>>, basePrice: real)
    requires forall k :: 0 <= k < |keys| ==> keys[k] in ranges
    requires StrictlyIncreasing(keys)
    ensures var rows := RowsAt(groupKey, keys, ranges, p0, previous, basePrice);
      forall i, j :: 0 <= i < j < |rows| ==> rows[i].from < rows[j].from
  {
    RowsStarts(groupKey, keys, ranges, p0, previous, basePrice);
  }

  /** Over strictly increasing keys every tier but the last ends one before the next begins. */
  lemma RowsChained(groupKey: string, keys: seq<int>, ranges: map<int, real>, p0: Option<real>,
                    previous: seq<Option<real>>, basePrice: real)
    requires forall k :: 0 <= k < |keys| ==> keys[k] in ranges
    requires StrictlyIncreasing(keys)
    ensures Chained(RowsAt(groupKey, keys, ranges, p0, previous, basePrice))
  {
    var rows := RowsAt(groupKey, keys, ranges, p0, previous, basePrice);
    forall i | 0 <= i < |rows| - 1
      ensures rows[i].to == Some(rows[i + 1].from - 1) && rows[i].from <= rows[i].to.value
    {
      RowsChain(groupKey, keys, ranges, p0, previous, basePrice, i);
    }
  }

  /** Rows over strictly increasing keys: ascending starts, chained ends, open last tier. */
  lemma RowsAtShape(groupKey: string, keys: seq<int>, ranges: map<int, real>, p0: Option<real>,
                    previous: seq<Option<real>>, basePrice: real)
    requires forall k :: 0 <= k < |keys| ==> keys[k] in ranges
    requires StrictlyIncreasing(keys) && |keys| >= 1
    ensures var rows := RowsAt(groupKey, keys, ranges, p0, previous, basePrice);
      && rows[0].from == keys[0] && rows[|rows| - 1].to.None?
      && (forall i, j :: 0 <= i < j < |rows| ==> rows[i].from < rows[j].from)
      && Chained(rows)
      && (forall i :: 0 <= i < |rows| ==> rows[i].from == keys[i] && rows[i].price == ranges[keys[i]])
  {
    var rows := RowsAt(groupKey, keys, ranges, p0, previous, basePrice);
    RowsStarts(groupKey, keys, ranges, p0, previous, basePrice);
    RowsAscend(groupKey, keys, ranges, p0, previous, basePrice);
    RowsChained(groupKey, keys, ranges, p0, previous, basePrice);
    assert rows[|rows| - 1] == RowAt(groupKey, keys, ranges, p0, previous, basePrice, |rows| - 1);
  }

  /**
   * The tiers of a group start at 1, ascend strictly, each ends one before
   * the next begins, and the last is open-ended.
   */
  lemma GroupRowsShape(groupKey: string, ranges: map<int, real>, p0: Option<real>,
                       previous: seq<Option<real>>, basePrice: real)
    requires 1 in ranges && forall k :: k in ranges ==> k >= 1
    ensures TiersShaped(GroupRows(groupKey, ranges, p0, previous, basePrice))
  {
    var keys := SortedKeys(ranges.Keys);
    KeysStartAtOne(ranges);
    RowsAtShape(groupKey, keys, ranges, p0, previous, basePrice);
    assert GroupRows(groupKey, ranges, p0, previous, basePrice) == RowsAt(groupKey, keys, ranges, p0, previous, basePrice);
  }

  /** The tiers of a group start exactly at the keys of its ranges, each with that range's price. */
  lemma GroupRowsCover(groupKey: string, ranges: map<int, real>, p0: Option<real>,
                       previous: seq<Option<real>>, basePrice: real)
    ensures var rows := GroupRows(groupKey, ranges, p0, previous, basePrice);
      && (forall i :: 0 <= i < |rows| ==> rows[i].from in ranges && rows[i].price == ranges[rows[i].from])
      && (forall k :: k in ranges ==> exists i :: 0 <= i < |rows| && rows[i].from == k)
  {
    var keys := SortedKeys(ranges.Keys);
    var rows := RowsAt(groupKey, keys, ranges, p0, previous, basePrice);
    assert GroupRows(groupKey, ranges, p0, previous, basePrice) == rows;
    RowsStarts(groupKey, keys, ranges, p0, previous, basePrice);
    RowsCoverKeys(groupKey, keys, ranges, p0, previous, basePrice);
    forall i | 0 <= i < |rows| ensures rows[i].from in ranges && rows[i].price == ranges[rows[i].from] {
      assert keys[i] in ranges.Keys;
    }
    forall k | k in ranges ensures exists i :: 0 <= i < |rows| && rows[i].from == k {
      assert k in ranges.Keys;
      assert k in keys;
    }
  }

  /** The rows of one entry of the hub's price list; unknown groups give none. */
  function RowsFor(groups: seq<CustomerGroup>, groupId: int, info: HubGroupPrices, taxRate: real,
                   pseudoPrices: map<int, real>, basePrice: real, previous: seq<Option<real>>): seq<PriceRow>
    requires taxRate != -100.0
  {
    match FindById(groups, groupId)
    case None => []
    case Some(g) =>
      GroupRows(g.groupKey, GroupRanges(info, taxRate, TaxInputNet(groups, groupId) == 1),
                if groupId in pseudoPrices then Some(pseudoPrices[groupId]) else None, previous, basePrice)
  }

  /** All rows `_updatePrices` writes, group after group in the hub's order. */
  function AllRows(prices: seq<(int, HubGroupPrices)>, groups: seq<CustomerGroup>, taxRate: real,
                   pseudoPrices: map<int, real>, basePrice: real, previous: seq<Option<real>>): seq<PriceRow>
    requires taxRate != -100.0
    decreases |prices|
  {
    if prices == [] then []
    else
      var n := |prices| - 1;
      AllRows(prices[..n], groups, taxRate, pseudoPrices, basePrice, previous)
        + RowsFor(groups, prices[n].0, prices[n].1, taxRate, pseudoPrices, basePrice, previous)
  }

  /** One more hub entry appends that entry's rows. */
  lemma AllRowsStep(prices: seq<(int, HubGroupPrices)>, n: nat, groups: seq<CustomerGroup>, taxRate: real,
                    pseudoPrices: map<int, real>, basePrice: real, previous: seq<Option<real>>)
    requires taxRate != -100.0 && n < |prices|
    ensures AllRows(prices[..n + 1], groups, taxRate, pseudoPrices, basePrice, previous)
            == AllRows(prices[..n], groups, taxRate, pseudoPrices, basePrice, previous)
               + RowsFor(groups, prices[n].0, prices[n].1, taxRate, pseudoPrices, basePrice, previous)
  {
    assert prices[..n + 1][..n] == prices[..n];
  }

  /** Every row of a group carries that group's key and the article's base price. */
  lemma GroupRowsFields(groupKey: string, ranges: map<int, real>, p0: Option<real>,
                        previous: seq<Option<real>>, basePrice: real)
    ensures forall r :: r in GroupRows(groupKey, ranges, p0, previous, basePrice) ==>
              r.customerGroupKey == groupKey && r.basePrice == basePrice
  {
    var rows := GroupRows(groupKey, ranges, p0, previous, basePrice);
    forall r | r in rows ensures r.customerGroupKey == groupKey && r.basePrice == basePrice {
      var i :| 0 <= i < |rows| && rows[i] == r;
    }
  }

  /** Every row written belongs to a known customer group and carries the article's base price. */
  lemma {:induction false} AllRowsKnownGroups(prices: seq<(int, HubGroupPrices)>, groups: seq<CustomerGroup>,
                                              taxRate: real, pseudoPrices: map<int, real>, basePrice: real,
                                              previous: seq<Option<real>>)
    requires taxRate != -100.0
    ensures forall r :: r in AllRows(prices, groups, taxRate, pseudoPrices, basePrice, previous) ==>
              r.basePrice == basePrice && exists k :: 0 <= k < |groups| && groups[k].groupKey == r.customerGroupKey
    decreases |prices|
  {
    if prices != [] {
      var n := |prices| - 1;
      AllRowsKnownGroups(prices[..n], groups, taxRate, pseudoPrices, basePrice, previous);
      var init := AllRows(prices[..n], groups, taxRate, pseudoPrices, basePrice, previous);
      var rs := RowsFor(groups, prices[n].0, prices[n].1, taxRate, pseudoPrices, basePrice, previous);
      assert AllRows(prices, groups, taxRate, pseudoPrices, basePrice, previous) == init + rs;
      var groupId := prices[n].0;
      match FindById(groups, groupId)
      case None =>
        assert rs == [];
      case Some(g) =>
        var ranges := GroupRanges(prices[n].1, taxRate, TaxInputNet(groups, groupId) == 1);
        var p0 := if groupId in pseudoPrices then Some(pseudoPrices[groupId]) else None;
        assert rs == GroupRows(g.groupKey, ranges, p0, previous, basePrice);
        GroupRowsFields(g.groupKey, ranges, p0, previous, basePrice);
        var j :| 0 <= j < |groups| && groups[j] == g;
        forall r: PriceRow | r in init + rs
          ensures r.basePrice == basePrice && exists k :: 0 <= k < |groups| && groups[k].groupKey == r.customerGroupKey
        {
          if r !in init {
            assert r in rs;
            assert groups[j].groupKey == r.customerGroupKey;
          }
        }
    }
  }

  /** Each known group's tiers as imported start at 1, ascend and chain without gaps. */
  lemma ImportedTiersShape(groups: seq<CustomerGroup>, groupId: int, info: HubGroupPrices, taxRate: real,
                           pseudoPrices: map<int, real>, basePrice: real, previous: seq<Option<real>>)
    requires taxRate != -100.0
    requires FindById(groups, groupId).Some?
    ensures TiersShaped(RowsFor(groups, groupId, info, taxRate, pseudoPrices, basePrice, previous))
  {
    var netInput := TaxInputNet(groups, groupId) == 1;
    var ranges := GroupRanges(info, taxRate, netInput);
    GroupRangesFromOne(info, taxRate, netInput);
    var g := FindById(groups, groupId).value;
    var p0 := if groupId in pseudoPrices then Some(pseudoPrices[groupId]) else None;
    assert RowsFor(groups, groupId, info, taxRate, pseudoPrices, basePrice, previous)
        == GroupRows(g.groupKey, ranges, p0, previous, basePrice);
    GroupRowsShape(g.groupKey, ranges, p0, previous, basePrice);
  }

  /** The first imported tier of a known group carries the converted base price, whatever tier
      the hub sent for 1. */
  lemma ImportedBasePrice(groups: seq<CustomerGroup>, groupId: int, info: HubGroupPrices, taxRate: real,
                          pseudoPrices: map<int, real>, basePrice: real, previous: seq<Option<real>>)
    requires taxRate != -100.0
    requires FindById(groups, groupId).Some?
    ensures var rows := RowsFor(groups, groupId, info, taxRate, pseudoPrices, basePrice, previous);
      |rows| >= 1 && rows[0].price == Convert(info.grundpreis, taxRate, info.isBrutto, TaxInputNet(groups, groupId) == 1)
  {
    var netInput := TaxInputNet(groups, groupId) == 1;
    var ranges := GroupRanges(info, taxRate, netInput);
    GroupRangesFromOne(info, taxRate, netInput);
    var g := FindById(groups, groupId).value;
    var p0 := if groupId in pseudoPrices then Some(pseudoPrices[groupId]) else None;
    assert RowsFor(groups, groupId, info, taxRate, pseudoPrices, basePrice, previous)
        == GroupRows(g.groupKey, ranges, p0, previous, basePrice);
    var keys := SortedKeys(ranges.Keys);
    KeysStartAtOne(ranges);
    assert GroupRows(g.groupKey, ranges, p0, previous, basePrice)[0] == RowAt(g.groupKey, keys, ranges, p0, previous, basePrice, 0);
  }

  /** The loop over the numbered tiers of one group, building `$ranges`. */
  method BuildRanges(tiers: seq<HubTier>, taxRate: real, isBrutto: bool, netInput: bool)
    returns (ranges: map<int, real>)
    requires taxRate != -100.0
    ensures ranges == TierRanges(tiers, taxRate, isBrutto, netInput)
  {
    ranges := map[];
    var k := 0;
    while k < |tiers|
      invariant 0 <= k <= |tiers|
      invariant ranges == TierRanges(tiers[..k], taxRate, isBrutto, netInput)
    {
      assert tiers[..k + 1][..k] == tiers[..k];
      var t := tiers[k];
      if Accepted(t) {
        ranges := ranges[TierFrom(t) := Convert(t.price, taxRate, isBrutto, netInput)];
      }
      k := k + 1;
    }
    assert tiers[..k] == tiers;
  }

  /** The loop that writes one group's rows over its ascending starts, carrying the pseudo price. */
  method EmitRows(groupKey: string, keys: seq<int>, ranges: map<int, real>, p0: Option<real>,
                  previous: seq<Option<real>>, basePrice: real) returns (rows: seq<PriceRow>)
    requires forall k :: 0 <= k < |keys| ==> keys[k] in ranges
    ensures rows == RowsAt(groupKey, keys, ranges, p0, previous, basePrice)
  {
    ghost var spec := RowsAt(groupKey, keys, ranges, p0, previous, basePrice);
    var pseudo := p0;
    rows := [];
    var i := 0;
    while i < |keys|
      invariant 0 <= i <= |keys|
      invariant rows == spec[..i]
      invariant pseudo == if i == 0 then p0 else PseudoAt(p0, previous, i - 1)
    {
      if NullLike(pseudo) && OldPositive(previous, i) {
        pseudo := previous[i];
      }
      var to := if i < |keys| - 1 then Some(keys[i + 1] - 1) else None;
      var row := PriceRow(groupKey, keys[i], to, ranges[keys[i]], pseudo, basePrice);
      assert row == RowAt(groupKey, keys, ranges, p0, previous, basePrice, i) == spec[i];
      assert spec[..i + 1] == spec[..i] + [row];
      rows := rows + [row];
      i := i + 1;
    }
    assert spec[..i] == spec;
  }

  /** One turn of `_updatePrices`: the rows of one entry of the hub's price list. */
  method GroupTurn(groupId: int, info: HubGroupPrices, groups: seq<CustomerGroup>, taxRate: real,
                   pseudoPrices: map<int, real>, basePrice: real, previous: seq<Option<real>>)
    returns (groupRows: seq<PriceRow>)
    requires taxRate != -100.0
    ensures groupRows == RowsFor(groups, groupId, info, taxRate, pseudoPrices, basePrice, previous)
  {
    groupRows := [];
    var group := FindById(groups, groupId);
    if group.Some? {
      var p0 := if groupId in pseudoPrices then Some(pseudoPrices[groupId]) else None;
      var netInput := TaxInputNet(groups, groupId) == 1;
      var ranges := BuildRanges(info.tiers, taxRate, info.isBrutto, netInput);
      ranges := ranges[1 := Convert(info.grundpreis, taxRate, info.isBrutto, netInput)];
      assert ranges == GroupRanges(info, taxRate, netInput);
      var keys := SortedKeys(ranges.Keys);
      groupRows := EmitRows(group.value.groupKey, keys, ranges, p0, previous, basePrice);
    }
  }

  /** `_updatePrices`: rebuilds a detail's price list from the hub's price groups. */
  method UpdatePrices(prices: seq<(int, HubGroupPrices)>, groups: seq<CustomerGroup>, taxRate: real,
                      pseudoPrices: map<int, real>, basePrice: real, previous: seq<Option<real>>)
    returns (rows: seq<PriceRow>)
    requires taxRate != -100.0
    ensures rows == AllRows(prices, groups, taxRate, pseudoPrices, basePrice, previous)
  {
    rows := [];
    var n := 0;
    while n < |prices|
      invariant 0 <= n <= |prices|
      invariant rows == AllRows(prices[..n], groups, taxRate, pseudoPrices, basePrice, previous)
    {
      AllRowsStep(prices, n, groups, taxRate, pseudoPrices, basePrice, previous);
      var groupRows := GroupTurn(prices[n].0, prices[n].1, groups, taxRate, pseudoPrices, basePrice, previous);
      rows := rows + groupRows;
      n := n + 1;
    }
    assert prices[..n] == prices;
  }

  // ---- export ----

  /** A stored price row as the price query returns it (ordered by price group, then `from`). */
  datatype DbPrice = DbPrice(priceGroup: string, customerGroupId: int, from: int, price: real,
                             pseudoPrice: real, basePrice: real, netto: bool)

  /** `preis_gruppeN` / `preis_rangeN` of an exported group; N is the position plus one. */
  datatype ExportedTier = ExportedTier(price: real, range: int)

  datatype ExportedGroup = ExportedGroup(isBrutto: bool, grundpreis: Option<real>, tiers: seq<ExportedTier>)

  /** The price fields of the export response; `None` leaves the caller's initial value. */
  datatype ExportedPrices = ExportedPrices(isBrutto: Option<bool>, grundpreis: Option<real>, ek: real,
                                           groups: map<int, ExportedGroup>, pseudoPrices: map<int, real>)

  /** The rows of one customer group, in query order. */
  function RowsOf(rows: seq<DbPrice>, groupId: int): (r: seq<DbPrice>)
    ensures forall p :: p in r <==> p in rows && p.customerGroupId == groupId
    ensures r == [] <==> forall p :: p in rows ==> p.customerGroupId != groupId
    ensures |r| <= |rows|
  {
    if rows == [] then []
    else
      var last := rows[|rows| - 1];
      RowsOf(rows[..|rows| - 1], groupId) + (if last.customerGroupId == groupId then [last] else [])
  }

  /** The numbered tiers of a group: every row not starting at 1, in order. */
  function Tiers(rows: seq<DbPrice>): (r: seq<ExportedTier>)
    ensures forall t :: t in r <==> exists p :: p in rows && p.from != 1 && t == ExportedTier(p.price, p.from)
  {
    if rows == [] then []
    else (if rows[0].from != 1 then [ExportedTier(rows[0].price, rows[0].from)] else []) + Tiers(rows[1..])
  }

  /** The last row of `rows` starting at 1, if any. */
  function LastBase(rows: seq<DbPrice>): (r: Option<DbPrice>)
    ensures r.Some? ==> r.value in rows && r.value.from == 1
    ensures r.None? ==> forall p :: p in rows ==> p.from != 1
  {
    if rows == [] then None
    else
      var n := |rows| - 1;
      if rows[n].from == 1 then Some(rows[n]) else LastBase(rows[..n])
  }

  /** The group entry `_exportPrices` builds from a group's rows. */
  function ExportGroup(rows: seq<DbPrice>): ExportedGroup
    requires rows != []
  {
    ExportedGroup(!rows[0].netto,
                  match LastBase(rows) case None => None case Some(p) => Some(p.price),
                  Tiers(rows))
  }

  /** The row that fills the top-level `is_brutto` and `grundpreis`: the last 'EK' row starting at 1. */
  function LastEkBase(rows: seq<DbPrice>): (r: Option<DbPrice>)
    ensures r.Some? ==> r.value in rows && r.value.priceGroup == "EK" && r.value.from == 1
    ensures r.None? ==> forall p :: p in rows ==> !(p.priceGroup == "EK" && p.from == 1)
  {
    if rows == [] then None
    else
      var n := |rows| - 1;
      if rows[n].priceGroup == "EK" && rows[n].from == 1 then Some(rows[n]) else LastEkBase(rows[..n])
  }

  /** The first loop of `_exportPrices`: top-level fields, the purchase price, and rows grouped by customer group. */
  method ScanRows(rows: seq<DbPrice>, ek0: real)
    returns (isBrutto: Option<bool>, grundpreis: Option<real>, ek: real, grouped: map<int, seq<DbPrice>>, order: seq<int>)
    ensures isBrutto == (match LastEkBase(rows) case None => None case Some(p) => Some(!p.netto))
    ensures grundpreis == (match LastEkBase(rows) case None => None case Some(p) => Some(p.price))
    ensures ek == MaxBase(rows, ek0)
    ensures grouped == Grouped(rows)
    ensures forall g :: g in order <==> g in grouped
  {
    isBrutto, grundpreis, ek := None, None, ek0;
    grouped, order := map[], [];
    ghost var seen: seq<DbPrice> := [];
    var k := 0;
    while k < |rows|
      invariant 0 <= k <= |rows| && seen == rows[..k]
      invariant isBrutto == (match LastEkBase(seen) case None => None case Some(p) => Some(!p.netto))
      invariant grundpreis == (match LastEkBase(seen) case None => None case Some(p) => Some(p.price))
      invariant ek == MaxBase(seen, ek0)
      invariant grouped == Grouped(seen)
      invariant forall g :: g in order <==> g in grouped
    {
      var p := rows[k];
      ghost var next := seen + [p];
      assert next == rows[..k + 1];
      ScanSnoc(seen, p, ek0);
      isBrutto, grundpreis, ek, grouped, order := ScanTurn(isBrutto, grundpreis, ek, grouped, order, p);
      seen := next;
      k := k + 1;
    }
    assert seen == rows;
  }

  /** One turn of the first loop of `_exportPrices`. */
  method ScanTurn(isBrutto: Option<bool>, grundpreis: Option<real>, ek: real, grouped: map<int, seq<DbPrice>>,
                  order: seq<int>, p: DbPrice)
    returns (isBrutto': Option<bool>, grundpreis': Option<real>, ek': real, grouped': map<int, seq<DbPrice>>,
             order': seq<int>)
    ensures p.priceGroup == "EK" && p.from == 1 ==> isBrutto' == Some(!p.netto) && grundpreis' == Some(p.price)
    ensures !(p.priceGroup == "EK" && p.from == 1) ==> isBrutto' == isBrutto && grundpreis' == grundpreis
    ensures ek' == if ek >= p.basePrice then ek else p.basePrice
    ensures grouped' == AddToGroup(grouped, p)
    ensures forall g :: g in order' <==> g in order || g == p.customerGroupId
  {
    isBrutto', grundpreis' := isBrutto, grundpreis;
    if p.priceGroup == "EK" && p.from == 1 {
      isBrutto' := Some(!p.netto);
      grundpreis' := Some(p.price);
    }
    grouped' := AddToGroup(grouped, p);
    order' := order;
    if p.customerGroupId !in order {
      order' := order + [p.customerGroupId];
    }
    ek' := if ek >= p.basePrice then ek else p.basePrice;
  }

  /** What one more row does to the three values the first loop keeps. */
  lemma ScanSnoc(seen: seq<DbPrice>, p: DbPrice, ek0: real)
    ensures LastEkBase(seen + [p]) == if p.priceGroup == "EK" && p.from == 1 then Some(p) else LastEkBase(seen)
    ensures MaxBase(seen + [p], ek0) == if MaxBase(seen, ek0) >= p.basePrice then MaxBase(seen, ek0) else p.basePrice
    ensures Grouped(seen + [p]) == AddToGroup(Grouped(seen), p)
  {
    assert (seen + [p])[..|seen|] == seen;
  }

  /** The purchase price the first loop keeps: the largest base price seen, starting from `ek0`. */
  function MaxBase(rows: seq<DbPrice>, ek0: real): real
  {
    if rows == [] then ek0
    else
      var m := MaxBase(rows[..|rows| - 1], ek0);
      var b := rows[|rows| - 1].basePrice;
      if m >= b then m else b
  }

  /** The purchase price bounds every base price and is either `ek0` or one of them. */
  lemma {:induction false} MaxBaseBounds(rows: seq<DbPrice>, ek0: real)
    ensures MaxBase(rows, ek0) >= ek0
    ensures forall p :: p in rows ==> MaxBase(rows, ek0) >= p.basePrice
    ensures MaxBase(rows, ek0) == ek0 || exists p :: p in rows && MaxBase(rows, ek0) == p.basePrice
  {
    if rows != [] {
      var init := rows[..|rows| - 1];
      assert rows == init + [rows[|rows| - 1]];
      MaxBaseBounds(init, ek0);
    }
  }

  /** One step of the grouping: appends `p` to its customer group's list. */
  function AddToGroup(grouped: map<int, seq<DbPrice>>, p: DbPrice): (r: map<int, seq<DbPrice>>)
    ensures r.Keys == grouped.Keys + {p.customerGroupId}
    ensures forall g :: g in grouped && g != p.customerGroupId ==> r[g] == grouped[g]
  {
    var g := p.customerGroupId;
    if g in grouped then grouped[g := grouped[g] + [p]] else grouped[g := [p]]
  }

  /** The grouping the first loop builds over a prefix of the rows. */
  function Grouped(rows: seq<DbPrice>): map<int, seq<DbPrice>>
  {
    if rows == [] then map[] else AddToGroup(Grouped(rows[..|rows| - 1]), rows[|rows| - 1])
  }

  /** The grouping holds, for each customer group, exactly that group's rows in their order. */
  lemma {:induction false} GroupedAt(rows: seq<DbPrice>, g: int)
    ensures g in Grouped(rows) <==> RowsOf(rows, g) != []
    ensures g in Grouped(rows) ==> Grouped(rows)[g] == RowsOf(rows, g)
  {
    if rows != [] {
      var init, p := rows[..|rows| - 1], rows[|rows| - 1];
      assert rows == init + [p];
      GroupedAt(init, g);
      RowsOfSnocAt(init, p, g);
    }
  }

  lemma GroupedIsRowsOf(rows: seq<DbPrice>)
    ensures forall g :: g in Grouped(rows) <==> RowsOf(rows, g) != []
    ensures forall g :: g in Grouped(rows) ==> Grouped(rows)[g] == RowsOf(rows, g)
  {
    forall g ensures g in Grouped(rows) <==> RowsOf(rows, g) != [] {
      GroupedAt(rows, g);
    }
    forall g | g in Grouped(rows) ensures Grouped(rows)[g] == RowsOf(rows, g) {
      GroupedAt(rows, g);
    }
  }

  /** The inner loop of `_exportPrices` for one customer group: base price and numbered tiers. */
  method ExportGroupEntry(rs: seq<DbPrice>) returns (entry: ExportedGroup, base: Option<DbPrice>)
    requires rs != []
    ensures entry == ExportGroup(rs) && base == LastBase(rs)
  {
    entry := ExportedGroup(!rs[0].netto, None, []);
    base := None;
    var i := 0;
    while i < |rs|
      invariant 0 <= i <= |rs|
      invariant entry.isBrutto == !rs[0].netto
      invariant entry.tiers == Tiers(rs[..i])
      invariant base == LastBase(rs[..i])
      invariant entry.grundpreis == (match base case None => None case Some(b) => Some(b.price))
    {
      var p := rs[i];
      assert rs[..i + 1] == rs[..i] + [p];
      assert rs[..i + 1][..i] == rs[..i];
      TiersSnoc(rs[..i], p);
      if p.from == 1 {
        base := Some(p);
        entry := entry.(grundpreis := Some(p.price));
      } else {
        entry := entry.(tiers := entry.tiers + [ExportedTier(p.price, p.from)]);
      }
      i := i + 1;
    }
    assert rs[..i] == rs;
  }

  /** `_exportPrices`: groups the stored rows by customer group and numbers each group's tiers. */
  method ExportPrices(rows: seq<DbPrice>, ek0: real) returns (e: ExportedPrices)
    ensures forall g :: g in e.groups <==> RowsOf(rows, g) != []
    ensures forall g :: g in e.groups ==> e.groups[g] == ExportGroup(RowsOf(rows, g))
    ensures forall g :: g in e.pseudoPrices <==> RowsOf(rows, g) != [] && LastBase(RowsOf(rows, g)).Some?
    ensures forall g :: g in e.pseudoPrices ==> e.pseudoPrices[g] == LastBase(RowsOf(rows, g)).value.pseudoPrice
    ensures e.isBrutto == (match LastEkBase(rows) case None => None case Some(p) => Some(!p.netto))
    ensures e.grundpreis == (match LastEkBase(rows) case None => None case Some(p) => Some(p.price))
    ensures e.ek >= ek0 && forall p :: p in rows ==> e.ek >= p.basePrice
    ensures e.ek == ek0 || exists p :: p in rows && e.ek == p.basePrice
  {
    var isBrutto, grundpreis, ek, grouped, order := ScanRows(rows, ek0);
    GroupedIsRowsOf(rows);
    MaxBaseBounds(rows, ek0);
    var groupsOut, pseudo := ExportGroups(grouped, order);
    e := ExportedPrices(isBrutto, grundpreis, ek, groupsOut, pseudo);
  }

  /** The second loop of `_exportPrices`: one exported entry, and possibly a pseudo price, per customer group. */
  method ExportGroups(grouped: map<int, seq<DbPrice>>, order: seq<int>)
    returns (groupsOut: map<int, ExportedGroup>, pseudo: map<int, real>)
    requires forall g :: g in grouped ==> grouped[g] != []
    requires forall g :: g in order <==> g in grouped
    ensures forall g :: g in groupsOut <==> g in grouped
    ensures forall g :: g in groupsOut ==> groupsOut[g] == ExportGroup(grouped[g])
    ensures forall g :: g in pseudo <==> g in grouped && LastBase(grouped[g]).Some?
    ensures forall g :: g in pseudo ==> pseudo[g] == LastBase(grouped[g]).value.pseudoPrice
  {
    groupsOut, pseudo := map[], map[];
    var n := 0;
    while n < |order|
      invariant 0 <= n <= |order|
      invariant forall g :: g in groupsOut <==> g in order[..n]
      invariant forall g :: g in groupsOut ==> g in grouped && groupsOut[g] == ExportGroup(grouped[g])
      invariant forall g :: g in pseudo <==> g in groupsOut && LastBase(grouped[g]).Some?
      invariant forall g :: g in pseudo ==> pseudo[g] == LastBase(grouped[g]).value.pseudoPrice
    {
      var g := order[n];
      assert order[..n + 1] == order[..n] + [g];
      var entry, base := ExportGroupEntry(grouped[g]);
      groupsOut := groupsOut[g := entry];
      if base.Some? {
        pseudo := pseudo[g := base.value.pseudoPrice];
      }
      n := n + 1;
    }
    assert order[..n] == order;
  }

  lemma RowsOfSnoc(rows: seq<DbPrice>, p: DbPrice)
    ensures forall g :: RowsOf(rows + [p], g) == RowsOf(rows, g) + (if p.customerGroupId == g then [p] else [])
  {
    forall g ensures RowsOf(rows + [p], g) == RowsOf(rows, g) + (if p.customerGroupId == g then [p] else []) {
      RowsOfSnocAt(rows, p, g);
    }
  }

  lemma {:induction false} RowsOfSnocAt(rows: seq<DbPrice>, p: DbPrice, g: int)
    ensures RowsOf(rows + [p], g) == RowsOf(rows, g) + (if p.customerGroupId == g then [p] else [])
  {
    assert (rows + [p])[..|rows|] == rows;
  }

  lemma {:induction false} TiersSnoc(rows: seq<DbPrice>, p: DbPrice)
    ensures Tiers(rows + [p]) == Tiers(rows) + (if p.from != 1 then [ExportedTier(p.price, p.from)] else [])
  {
    if rows != [] {
      assert (rows + [p])[1..] == rows[1..] + [p];
      TiersSnoc(rows[1..], p);
    }
  }

  // ---- export followed by import ----

  /** The hub-side shape of an exported group; a missing base price reads as 0. */
  function HubOf(e: ExportedGroup): HubGroupPrices {
    HubGroupPrices(e.isBrutto, match e.grundpreis case None => 0.0 case Some(p) => p,
                   seq(|e.tiers|, i requires 0 <= i < |e.tiers| => HubTier(e.tiers[i].price, e.tiers[i].range as real)))
  }

  /**
   * Exporting a group's rows and importing the result again yields tiers
   * starting at exactly the stored starts that are positive and carry a
   * positive price, plus the base tier at 1.
   */
  lemma ExportImportStarts(rows: seq<DbPrice>, taxRate: real, netInput: bool)
    requires rows != [] && taxRate != -100.0
    ensures GroupRanges(HubOf(ExportGroup(rows)), taxRate, netInput).Keys
            == {1} + set p | p in rows && p.from != 1 && p.from > 0 && p.price > 0.0 :: p.from
  {
    var hub := HubOf(ExportGroup(rows));
    var ts := Tiers(rows);
    var m := TierRanges(hub.tiers, taxRate, hub.isBrutto, netInput);
    TierRangesSpec(hub.tiers, taxRate, hub.isBrutto, netInput);
    var want := set p | p in rows && p.from != 1 && p.from > 0 && p.price > 0.0 :: p.from;
    forall k | k in m ensures k in want {
      var i :| 0 <= i < |hub.tiers| && Accepted(hub.tiers[i]) && TierFrom(hub.tiers[i]) == k;
      assert ts[i] in ts;
      var p :| p in rows && p.from != 1 && ts[i] == ExportedTier(p.price, p.from);
      assert (p.from as real).Floor == p.from;
    }
    forall k | k in want ensures k in m {
      var p :| p in rows && p.from != 1 && p.from > 0 && p.price > 0.0 && p.from == k;
      assert ExportedTier(p.price, p.from) in ts;
      var i :| 0 <= i < |ts| && ts[i] == ExportedTier(p.price, p.from);
      assert (p.from as real).Floor == p.from;
      assert Accepted(hub.tiers[i]) && TierFrom(hub.tiers[i]) == k;
    }
  }
}
