/** Variant articles: the name-based id mapping between the hub's groups and options and the
    shop's configurator, the matching of hub combinations to existing variant details, the
    reconciliation that creates, keeps and deletes details, and the grouping of configurator
    rows into combinations on export. */
module Variants {
  import opened Wrappers
  import opened ArrayValues
  import opened MasterNumber
  import opened ProductFields

  // ---------------------------------------------------------------------------------------
  // Id mapping by name

  /** A hub group (id and name in the default language). */
  datatype HubGroup = HubGroup(id: int, name: string)

  /** A hub option: the group it belongs to, its id and its name in the default language. */
  datatype HubOption = HubOption(groupId: int, id: int, name: string)

  /** A group or an option of the shop's configurator set. */
  datatype ShopEntity = ShopEntity(id: int, name: string)

  /** Hub group ids to shop group ids, hub option ids to shop option ids, and hub option ids to
      the shop group of the option's hub group (absent when that group has no shop id). */
  datatype Mapping = Mapping(groups: map<int, int>, options: map<int, int>, optionToGroup: map<int, Option<int>>)

  /** The position of the first shop entity with this name. */
  function FirstIndexByName(shop: seq<ShopEntity>, name: string): (r: Option<nat>)
    ensures r.None? <==> forall k :: 0 <= k < |shop| ==> shop[k].name != name
    ensures r.Some? ==> r.value < |shop| && shop[r.value].name == name
                        && forall j :: 0 <= j < r.value ==> shop[j].name != name
  {
    if shop == [] then None
    else if shop[0].name == name then Some(0)
    else match FirstIndexByName(shop[1..], name)
      case None => None
      case Some(i) => Some(i + 1)
  }

  /** The id of the first shop entity with this name. */
  function FirstByName(shop: seq<ShopEntity>, name: string): (r: Option<int>)
    ensures r.None? <==> forall k :: 0 <= k < |shop| ==> shop[k].name != name
    ensures r.Some? ==> exists k :: (0 <= k < |shop| && shop[k] == ShopEntity(r.value, name)
                                     && forall j :: 0 <= j < k ==> shop[j].name != name)
  {
    match FirstIndexByName(shop, name)
    case None => None
    case Some(k) => assert shop[k] == ShopEntity(shop[k].id, name); Some(shop[k].id)
  }

  /** The group map the loop over the hub groups builds. */
  function GroupMap(hub: seq<HubGroup>, shop: seq<ShopEntity>): map<int, int>
  {
    if hub == [] then map[]
    else
      var m := GroupMap(hub[..|hub| - 1], shop);
      var g := hub[|hub| - 1];
      match FirstByName(shop, g.name)
      case None => m
      case Some(id) => m[g.id := id]
  }

  /** A hub group id is mapped exactly when one of its entries has a name the shop knows, and it
      is mapped to the shop id found for such a name. */
  lemma {:induction false} GroupMapSpec(hub: seq<HubGroup>, shop: seq<ShopEntity>, id: int)
    ensures id in GroupMap(hub, shop) <==> exists k :: 0 <= k < |hub| && hub[k].id == id && FirstByName(shop, hub[k].name).Some?
    ensures id in GroupMap(hub, shop) ==> exists k :: 0 <= k < |hub| && hub[k].id == id && FirstByName(shop, hub[k].name) == Some(GroupMap(hub, shop)[id])
  {
    GroupMapKeys(hub, shop, id);
    GroupMapValue(hub, shop, id);
  }

  lemma {:induction false} GroupMapKeys(hub: seq<HubGroup>, shop: seq<ShopEntity>, id: int)
    ensures id in GroupMap(hub, shop) <==> exists k :: 0 <= k < |hub| && hub[k].id == id && FirstByName(shop, hub[k].name).Some?
  {
    if hub != [] {
      var init := hub[..|hub| - 1];
      GroupMapKeys(init, shop, id);
      assert forall k :: 0 <= k < |init| ==> init[k] == hub[k];
    }
  }

  lemma {:induction false} GroupMapValue(hub: seq<HubGroup>, shop: seq<ShopEntity>, id: int)
    ensures id in GroupMap(hub, shop) ==> exists k :: 0 <= k < |hub| && hub[k].id == id && FirstByName(shop, hub[k].name) == Some(GroupMap(hub, shop)[id])
  {
    if hub != [] {
      var init := hub[..|hub| - 1];
      GroupMapValue(init, shop, id);
      assert forall k :: 0 <= k < |init| ==> init[k] == hub[k];
    }
  }

  /** The option maps the loop over the hub options builds. */
  function OptionMaps(hub: seq<HubOption>, shop: seq<ShopEntity>, groups: map<int, int>): (r: (map<int, int>, map<int, Option<int>>))
    ensures r.0.Keys == r.1.Keys
  {
    if hub == [] then (map[], map[])
    else
      var m := OptionMaps(hub[..|hub| - 1], shop, groups);
      var o := hub[|hub| - 1];
      match FirstByName(shop, o.name)
      case None => m
      case Some(id) => (m.0[o.id := id], m.1[o.id := if o.groupId in groups then Some(groups[o.groupId]) else None])
  }

  /** A hub option id is mapped exactly when one of its entries has a name the shop knows, and it
      is mapped to the shop id found for such a name. */
  lemma {:induction false} OptionMapSpec(hub: seq<HubOption>, shop: seq<ShopEntity>, groups: map<int, int>, id: int)
    ensures id in OptionMaps(hub, shop, groups).0 <==> exists k :: 0 <= k < |hub| && hub[k].id == id && FirstByName(shop, hub[k].name).Some?
    ensures id in OptionMaps(hub, shop, groups).0 ==>
      exists k :: 0 <= k < |hub| && hub[k].id == id && FirstByName(shop, hub[k].name) == Some(OptionMaps(hub, shop, groups).0[id])
  {
    OptionMapKeys(hub, shop, groups, id);
    OptionMapValue(hub, shop, groups, id);
  }

  lemma {:induction false} OptionMapKeys(hub: seq<HubOption>, shop: seq<ShopEntity>, groups: map<int, int>, id: int)
    ensures id in OptionMaps(hub, shop, groups).0 <==> exists k :: 0 <= k < |hub| && hub[k].id == id && FirstByName(shop, hub[k].name).Some?
  {
    if hub != [] {
      var init := hub[..|hub| - 1];
      OptionMapKeys(init, shop, groups, id);
      assert forall k :: 0 <= k < |init| ==> init[k] == hub[k];
    }
  }

  lemma {:induction false} OptionMapValue(hub: seq<HubOption>, shop: seq<ShopEntity>, groups: map<int, int>, id: int)
    ensures id in OptionMaps(hub, shop, groups).0 ==>
      exists k :: 0 <= k < |hub| && hub[k].id == id && FirstByName(shop, hub[k].name) == Some(OptionMaps(hub, shop, groups).0[id])
  {
    if hub != [] {
      var init := hub[..|hub| - 1];
      OptionMapValue(init, shop, groups, id);
      assert forall k :: 0 <= k < |init| ==> init[k] == hub[k];
    }
  }

  /** The inner search loop: the first shop entity with this name. */
  method FindByName(shop: seq<ShopEntity>, name: string) returns (r: Option<int>)
    ensures r == FirstByName(shop, name)
  {
    var k := 0;
    while k < |shop|
      invariant 0 <= k <= |shop|
      invariant FirstByName(shop, name) == FirstByName(shop[k..], name)
    {
      if shop[k].name == name {
        return Some(shop[k].id);
      }
      assert shop[k..][1..] == shop[k + 1..];
      k := k + 1;
    }
    return None;
  }

  /** The mapping of the hub's groups and options to the shop's configurator. */
  function MappingOf(hubGroups: seq<HubGroup>, hubOptions: seq<HubOption>, shopGroups: seq<ShopEntity>, shopOptions: seq<ShopEntity>): Mapping {
    var groups := GroupMap(hubGroups, shopGroups);
    var options := OptionMaps(hubOptions, shopOptions, groups);
    Mapping(groups, options.0, options.1)
  }

  /** `buildVariantConfiguratorMapping`. */
  method BuildMapping(hubGroups: seq<HubGroup>, hubOptions: seq<HubOption>, shopGroups: seq<ShopEntity>, shopOptions: seq<ShopEntity>)
    returns (m: Mapping)
    ensures m.groups == GroupMap(hubGroups, shopGroups)
    ensures (m.options, m.optionToGroup) == OptionMaps(hubOptions, shopOptions, m.groups)
    ensures m == MappingOf(hubGroups, hubOptions, shopGroups, shopOptions)
  {
    m := Mapping(map[], map[], map[]);
    var k := 0;
    while k < |hubGroups|
      invariant 0 <= k <= |hubGroups|
      invariant m == Mapping(GroupMap(hubGroups[..k], shopGroups), map[], map[])
    {
      var g := hubGroups[k];
      assert hubGroups[..k + 1][..k] == hubGroups[..k];
      var found := FindByName(shopGroups, g.name);
      if found.Some? {
        m := m.(groups := m.groups[g.id := found.value]);
      }
      k := k + 1;
    }
    assert hubGroups[..k] == hubGroups;
    k := 0;
    while k < |hubOptions|
      invariant 0 <= k <= |hubOptions|
      invariant m.groups == GroupMap(hubGroups, shopGroups)
      invariant (m.options, m.optionToGroup) == OptionMaps(hubOptions[..k], shopOptions, m.groups)
    {
      var o := hubOptions[k];
      assert hubOptions[..k + 1][..k] == hubOptions[..k];
      var found := FindByName(shopOptions, o.name);
      if found.Some? {
        m := m.(options := m.options[o.id := found.value],
                optionToGroup := m.optionToGroup[o.id := if o.groupId in m.groups then Some(m.groups[o.groupId]) else None]);
      }
      k := k + 1;
    }
    assert hubOptions[..k] == hubOptions;
  }

  // ---------------------------------------------------------------------------------------
  // Configurator set

  /** The configurator set the shop has for the article, by names. */
  datatype Configurator = Configurator(name: string, groupNames: seq<string>, optionNames: seq<string>)

  /** A group of the configurator set to write, with its option names. */
  datatype NewGroup = NewGroup(name: string, options: seq<string>)

  /** The configurator set to write: it keeps the old set's name when there was one. */
  datatype NewSet = NewSet(name: Option<string>, groups: seq<NewGroup>)

  function HubGroupName(g: HubGroup): string { g.name }

  function HubOptionName(o: HubOption): string { o.name }

  /** Both `array_diff`s are empty: every name of one list occurs in the other. */
  predicate SameNames(a: seq<string>, b: seq<string>) {
    (forall n :: n in a ==> n in b) && (forall n :: n in b ==> n in a)
  }

  function OptionsOfGroup(hub: seq<HubOption>, groupId: int): (r: seq<string>)
    ensures forall n :: n in r <==> exists k :: 0 <= k < |hub| && hub[k].groupId == groupId && hub[k].name == n
  {
    if hub == [] then []
    else
      var init := hub[..|hub| - 1];
      assert forall k :: 0 <= k < |init| ==> init[k] == hub[k];
      OptionsOfGroup(init, groupId) + (if hub[|hub| - 1].groupId == groupId then [hub[|hub| - 1].name] else [])
  }

  /** `_updateVariantConfiguratorSet`: nothing is written when the shop's set has the same group
      names and the same option names as the hub sends (compared as sets, as `array_diff` does);
      otherwise the whole set is rebuilt from the hub's groups with their options. */
  function ConfiguratorUpdate(hubGroups: seq<HubGroup>, hubOptions: seq<HubOption>, configurator: Option<Configurator>): (r: Option<NewSet>)
    ensures r.None? <==> (configurator.Some?
                          && SameNames(Column(hubGroups, HubGroupName), configurator.value.groupNames)
                          && SameNames(Column(hubOptions, HubOptionName), configurator.value.optionNames))
    ensures r.Some? ==> (|r.value.groups| == |hubGroups|
                         && forall k :: 0 <= k < |hubGroups| ==> r.value.groups[k] == NewGroup(hubGroups[k].name, OptionsOfGroup(hubOptions, hubGroups[k].id)))
    ensures r.Some? ==> r.value.name == if configurator.Some? then Some(configurator.value.name) else None
  {
    var groups := seq(|hubGroups|, k requires 0 <= k < |hubGroups| => NewGroup(hubGroups[k].name, OptionsOfGroup(hubOptions, hubGroups[k].id)));
    match configurator
    case None => Some(NewSet(None, groups))
    case Some(c) =>
      if SameNames(Column(hubGroups, HubGroupName), c.groupNames) && SameNames(Column(hubOptions, HubOptionName), c.optionNames)
      then None
      else Some(NewSet(Some(c.name), groups))
  }

  // ---------------------------------------------------------------------------------------
  // Grouping configurator rows

  /** One row of the details-and-option-relations join: the key of the detail, and one of its
      options with the option's group. */
  datatype OptionRow<K> = OptionRow(key: K, optionId: int, groupId: int)

  /** A detail with its group ids and option ids, in row order. */
  datatype Grouped<K> = Grouped(key: K, groups: seq<int>, options: seq<int>)

  function IndexOfKey<K(==)>(gs: seq<Grouped<K>>, key: K): (r: Option<nat>)
    ensures r.None? <==> forall k :: 0 <= k < |gs| ==> gs[k].key != key
    ensures r.Some? ==> r.value < |gs| && gs[r.value].key == key
  {
    if gs == [] then None
    else if gs[0].key == key then Some(0)
    else match IndexOfKey(gs[1..], key)
      case None => None
      case Some(i) => Some(i + 1)
  }

  ghost predicate DistinctKeys<K>(gs: seq<Grouped<K>>) {
    forall i, j :: 0 <= i < j < |gs| ==> gs[i].key != gs[j].key
  }

  /** The groups (or options) of the rows with this key, in row order. */
  function GroupsOf<K(==)>(rows: seq<OptionRow<K>>, key: K): seq<int>
  {
    if rows == [] then []
    else
      var r := rows[|rows| - 1];
      GroupsOf(rows[..|rows| - 1], key) + (if r.key == key then [r.groupId] else [])
  }

  function OptionsOf<K(==)>(rows: seq<OptionRow<K>>, key: K): seq<int>
  {
    if rows == [] then []
    else
      var r := rows[|rows| - 1];
      OptionsOf(rows[..|rows| - 1], key) + (if r.key == key then [r.optionId] else [])
  }

  /** The first row of a key opens its entry; later rows append to it. */
  function AddRow<K(==)>(gs: seq<Grouped<K>>, row: OptionRow<K>): (r: seq<Grouped<K>>)
    requires DistinctKeys(gs)
    ensures DistinctKeys(r)
    ensures |gs| <= |r| && forall k :: 0 <= k < |gs| ==> r[k].key == gs[k].key
  {
    match IndexOfKey(gs, row.key)
    case None => gs + [Grouped(row.key, [row.groupId], [row.optionId])]
    case Some(i) => gs[i := Grouped(row.key, gs[i].groups + [row.groupId], gs[i].options + [row.optionId])]
  }

  function GroupRows<K(==)>(rows: seq<OptionRow<K>>): (r: seq<Grouped<K>>)
    ensures DistinctKeys(r)
  {
    if rows == [] then [] else AddRow(GroupRows(rows[..|rows| - 1]), rows[|rows| - 1])
  }

  /** Every key of the rows has exactly one entry, holding that key's groups and options in row
      order; no other entry exists. */
  lemma {:induction false} GroupRowsSpec<K>(rows: seq<OptionRow<K>>, key: K)
    ensures IndexOfKey(GroupRows(rows), key).None? <==> forall k :: 0 <= k < |rows| ==> rows[k].key != key
    ensures IndexOfKey(GroupRows(rows), key).Some? ==>
      GroupRows(rows)[IndexOfKey(GroupRows(rows), key).value] == Grouped(key, GroupsOf(rows, key), OptionsOf(rows, key))
    decreases |rows|, 1
  {
    if rows != [] {
      if IndexOfKey(GroupRows(rows[..|rows| - 1]), rows[|rows| - 1].key).None? {
        GroupRowsSpecNew(rows, key);
      } else {
        GroupRowsSpecOld(rows, key);
      }
    }
  }

  ghost predicate NoRowHas<K>(rows: seq<OptionRow<K>>, key: K) {
    forall k :: 0 <= k < |rows| ==> rows[k].key != key
  }

  /** One more row: the grouping, the group and option lists and "no row has the key" each take one step. */
  lemma RowsSnoc<K>(rows: seq<OptionRow<K>>, key: K)
    requires rows != []
    ensures GroupRows(rows) == AddRow(GroupRows(rows[..|rows| - 1]), rows[|rows| - 1])
    ensures GroupsOf(rows, key) == GroupsOf(rows[..|rows| - 1], key) + (if rows[|rows| - 1].key == key then [rows[|rows| - 1].groupId] else [])
    ensures OptionsOf(rows, key) == OptionsOf(rows[..|rows| - 1], key) + (if rows[|rows| - 1].key == key then [rows[|rows| - 1].optionId] else [])
    ensures NoRowHas(rows, key) <==> NoRowHas(rows[..|rows| - 1], key) && rows[|rows| - 1].key != key
  {
    var init := rows[..|rows| - 1];
    if forall k :: 0 <= k < |init| ==> init[k].key != key {
      forall k | 0 <= k < |rows| - 1 ensures rows[k].key != key {
        assert init[k] == rows[k];
      }
    }
  }

  /** The step of `GroupRowsSpec` when the last row's key opens a new entry. */
  lemma {:induction false} GroupRowsSpecNew<K>(rows: seq<OptionRow<K>>, key: K)
    requires rows != [] && IndexOfKey(GroupRows(rows[..|rows| - 1]), rows[|rows| - 1].key).None?
    ensures IndexOfKey(GroupRows(rows), key).None? <==> forall k :: 0 <= k < |rows| ==> rows[k].key != key
    ensures IndexOfKey(GroupRows(rows), key).Some? ==>
      GroupRows(rows)[IndexOfKey(GroupRows(rows), key).value] == Grouped(key, GroupsOf(rows, key), OptionsOf(rows, key))
    decreases |rows|, 0
  {
    var init := rows[..|rows| - 1];
    var row := rows[|rows| - 1];
    var gs := GroupRows(init);
    GroupRowsSpec(init, key);
    RowsSnoc(rows, key);
    var g := Grouped(row.key, [row.groupId], [row.optionId]);
    var r := gs + [g];
    assert GroupRows(rows) == r;
    if row.key == key {
      IndexOfKeyUnique(r, |gs|);
      assert IndexOfKey(r, key) == Some(|gs|);
      assert IndexOfKey(gs, key).None?;
      NoRowsEmpty(init, key);
      assert r[|gs|] == Grouped(key, GroupsOf(rows, key), OptionsOf(rows, key));
    } else {
      IndexOfKeyAppend(gs, g, key);
      assert IndexOfKey(r, key) == IndexOfKey(gs, key);
      if IndexOfKey(gs, key).Some? {
        var m := IndexOfKey(gs, key).value;
        assert r[m] == gs[m];
      }
    }
  }

  /** The step of `GroupRowsSpec` when the last row's key already has an entry. */
  lemma {:induction false} GroupRowsSpecOld<K>(rows: seq<OptionRow<K>>, key: K)
    requires rows != [] && IndexOfKey(GroupRows(rows[..|rows| - 1]), rows[|rows| - 1].key).Some?
    ensures IndexOfKey(GroupRows(rows), key).None? <==> forall k :: 0 <= k < |rows| ==> rows[k].key != key
    ensures IndexOfKey(GroupRows(rows), key).Some? ==>
      GroupRows(rows)[IndexOfKey(GroupRows(rows), key).value] == Grouped(key, GroupsOf(rows, key), OptionsOf(rows, key))
    decreases |rows|, 0
  {
    var init := rows[..|rows| - 1];
    var row := rows[|rows| - 1];
    var gs := GroupRows(init);
    GroupRowsSpec(init, key);
    RowsSnoc(rows, key);
    var i := IndexOfKey(gs, row.key).value;
    var g := Grouped(row.key, gs[i].groups + [row.groupId], gs[i].options + [row.optionId]);
    var r := gs[i := g];
    assert GroupRows(rows) == r;
    if row.key == key {
      IndexOfKeyUnique(r, i);
      assert IndexOfKey(r, key) == Some(i);
      assert IndexOfKey(gs, key) == Some(i);
      assert r[i] == Grouped(key, GroupsOf(rows, key), OptionsOf(rows, key));
    } else {
      IndexOfKeyUpdate(gs, i, g, key);
      assert IndexOfKey(r, key) == IndexOfKey(gs, key);
      if IndexOfKey(gs, key).Some? {
        var m := IndexOfKey(gs, key).value;
        assert m != i;
        assert r[m] == gs[m];
      }
    }
  }

  lemma {:induction false} NoRowsEmpty<K>(rows: seq<OptionRow<K>>, key: K)
    requires forall k :: 0 <= k < |rows| ==> rows[k].key != key
    ensures GroupsOf(rows, key) == [] && OptionsOf(rows, key) == []
  {
    if rows != [] {
      NoRowsEmpty(rows[..|rows| - 1], key);
    }
  }

  lemma IndexOfKeyUnique<K>(gs: seq<Grouped<K>>, i: nat)
    requires DistinctKeys(gs) && i < |gs|
    ensures IndexOfKey(gs, gs[i].key) == Some(i)
  {
    var r := IndexOfKey(gs, gs[i].key);
  }

  lemma {:induction false} IndexOfKeyAppend<K>(gs: seq<Grouped<K>>, g: Grouped<K>, key: K)
    requires g.key != key
    ensures IndexOfKey(gs + [g], key) == IndexOfKey(gs, key)
  {
    if gs != [] {
      assert (gs + [g])[1..] == gs[1..] + [g];
      IndexOfKeyAppend(gs[1..], g, key);
    }
  }

  lemma {:induction false} IndexOfKeyUpdate<K>(gs: seq<Grouped<K>>, i: nat, g: Grouped<K>, key: K)
    requires i < |gs| && g.key == gs[i].key && key != g.key
    ensures IndexOfKey(gs[i := g], key) == IndexOfKey(gs, key)
  {
    if i > 0 {
      assert gs[i := g][1..] == gs[1..][i - 1 := g];
      IndexOfKeyUpdate(gs[1..], i - 1, g, key);
    }
  }

  /** The grouping loop over the join rows (by detail id on import, by ordernumber on export). */
  method GroupOptionRows<K(==)>(rows: seq<OptionRow<K>>) returns (gs: seq<Grouped<K>>)
    ensures gs == GroupRows(rows)
  {
    gs := [];
    var k := 0;
    while k < |rows|
      invariant 0 <= k <= |rows|
      invariant gs == GroupRows(rows[..k])
    {
      assert rows[..k + 1][..k] == rows[..k];
      var row := rows[k];
      var found := IndexOfKey(gs, row.key);
      if found.Some? {
        var i := found.value;
        gs := gs[i := Grouped(row.key, gs[i].groups + [row.groupId], gs[i].options + [row.optionId])];
      } else {
        gs := gs + [Grouped(row.key, [row.groupId], [row.optionId])];
      }
      k := k + 1;
    }
    assert rows[..k] == rows;
  }

  // ---------------------------------------------------------------------------------------
  // Matching hub combinations to existing details

  /** A hub combination: its ordernumber and its hub group and option ids. */
  datatype Combination = Combination(ordernumber: string, groupIds: seq<int>, optionIds: seq<int>, shippingStatus: int)

  ghost predicate DistinctNumbers(cs: seq<Combination>) {
    forall i, j :: 0 <= i < j < |cs| ==> cs[i].ordernumber != cs[j].ordernumber
  }

  /** The comparison the source makes: the combination's ids, mapped to shop ids, equal the
      detail's after sorting both (`arrayValuesEqual`), for the groups and for the options. */
  predicate CompareAsWritten(v: Grouped<int>, c: Combination, m: Mapping) {
    var gs := ReplaceAll(c.groupIds, m.groups);
    var os := ReplaceAll(c.optionIds, m.options);
    gs.Some? && ArrayValuesEqual(gs.value, v.groups) && os.Some? && ArrayValuesEqual(os.value, v.options)
  }

  /** A detail matches a combination when every id of the combination is mapped and the mapped
      ids are the detail's ids, counted with multiplicity and in any order. */
  predicate Matches(v: Grouped<int>, c: Combination, m: Mapping) {
    var gs := ReplaceAll(c.groupIds, m.groups);
    var os := ReplaceAll(c.optionIds, m.options);
    gs.Some? && multiset(gs.value) == multiset(v.groups) && os.Some? && multiset(os.value) == multiset(v.options)
  }

  /** The sorted comparison decides exactly the multiset match. */
  lemma CompareIsMatch(v: Grouped<int>, c: Combination, m: Mapping)
    ensures CompareAsWritten(v, c, m) <==> Matches(v, c, m)
  {
    var gs := ReplaceAll(c.groupIds, m.groups);
    var os := ReplaceAll(c.optionIds, m.options);
    if gs.Some? { ArrayValuesEqualIsMultisetEquality(gs.value, v.groups); }
    if os.Some? { ArrayValuesEqualIsMultisetEquality(os.value, v.options); }
  }

  /** The position of the first existing detail, in detail order, that matches the combination. */
  function FirstMatch(vs: seq<Grouped<int>>, c: Combination, m: Mapping): (r: Option<nat>)
    ensures r.None? <==> forall k :: 0 <= k < |vs| ==> !Matches(vs[k], c, m)
    ensures r.Some? ==> r.value < |vs| && Matches(vs[r.value], c, m)
                        && forall k :: 0 <= k < r.value ==> !Matches(vs[k], c, m)
  {
    FirstMatchFromSpec(vs, c, m, 0);
    FirstMatchFrom(vs, c, m, 0)
  }

  /** The first matching detail at position `i` or later. */
  function FirstMatchFrom(vs: seq<Grouped<int>>, c: Combination, m: Mapping, i: nat): (r: Option<nat>)
    requires i <= |vs|
    decreases |vs| - i
  {
    if i == |vs| then None
    else if Matches(vs[i], c, m) then Some(i)
    else FirstMatchFrom(vs, c, m, i + 1)
  }

  lemma {:induction false} FirstMatchFromSpec(vs: seq<Grouped<int>>, c: Combination, m: Mapping, i: nat)
    requires i <= |vs|
    ensures FirstMatchFrom(vs, c, m, i).None? <==> forall k :: i <= k < |vs| ==> !Matches(vs[k], c, m)
    ensures FirstMatchFrom(vs, c, m, i).Some? ==>
      i <= FirstMatchFrom(vs, c, m, i).value < |vs| && Matches(vs[FirstMatchFrom(vs, c, m, i).value], c, m)
      && forall k :: i <= k < FirstMatchFrom(vs, c, m, i).value ==> !Matches(vs[k], c, m)
    decreases |vs| - i
  {
    if i < |vs| && !Matches(vs[i], c, m) {
      FirstMatchFromSpec(vs, c, m, i + 1);
    }
  }

  /** The id of the detail a combination is matched to, if any. */
  function MatchedId(vs: seq<Grouped<int>>, c: Combination, m: Mapping): (r: Option<int>)
    ensures r.None? <==> forall k :: 0 <= k < |vs| ==> !Matches(vs[k], c, m)
  {
    match FirstMatch(vs, c, m)
    case None => None
    case Some(k) => Some(vs[k].key)
  }

  /** Visiting one more detail only adds a match when there was none. */
  lemma MatchedIdSnoc(seen: seq<Grouped<int>>, v: Grouped<int>, c: Combination, m: Mapping)
    ensures MatchedId(seen + [v], c, m) == if MatchedId(seen, c, m).Some? then MatchedId(seen, c, m)
                                           else if Matches(v, c, m) then Some(v.key) else None
  {
    FirstMatchSnoc(seen, v, c, m);
  }

  lemma FirstMatchSnoc(seen: seq<Grouped<int>>, v: Grouped<int>, c: Combination, m: Mapping)
    ensures FirstMatch(seen + [v], c, m) == if FirstMatch(seen, c, m).Some? then FirstMatch(seen, c, m)
                                            else if Matches(v, c, m) then Some(|seen|) else None
  {
    FirstMatchFromSnoc(seen, v, c, m, 0);
  }

  lemma {:induction false} FirstMatchFromSnoc(seen: seq<Grouped<int>>, v: Grouped<int>, c: Combination, m: Mapping, i: nat)
    requires i <= |seen|
    ensures FirstMatchFrom(seen + [v], c, m, i) == if FirstMatchFrom(seen, c, m, i).Some? then FirstMatchFrom(seen, c, m, i)
                                                   else if Matches(v, c, m) then Some(|seen|) else None
    decreases |seen| - i
  {
    if i < |seen| {
      assert (seen + [v])[i] == seen[i];
      FirstMatchFromSnoc(seen, v, c, m, i + 1);
    } else {
      assert (seen + [v])[i] == v;
      assert FirstMatchFrom(seen + [v], c, m, i + 1) == None;
    }
  }

  /** The matches after `vs` have been visited: each combination with its first matching detail. */
  ghost predicate MatchedAfter(matched: map<string, int>, vs: seq<Grouped<int>>, cs: seq<Combination>, m: Mapping) {
    (forall n :: n in matched ==> exists k :: 0 <= k < |cs| && cs[k].ordernumber == n)
    && forall k :: 0 <= k < |cs| ==> Agrees(matched, vs, cs[k], m)
  }

  /** The matching loops of `_updateVariantDetails`: every existing detail is tried against every
      combination not matched yet; a combination is matched at most once, by the first detail
      that matches it. */
  method MatchCombinations(vs: seq<Grouped<int>>, cs: seq<Combination>, m: Mapping) returns (matched: map<string, int>)
    requires DistinctNumbers(cs)
    ensures MatchedAfter(matched, vs, cs, m)
  {
    matched := map[];
    var i := 0;
    while i < |vs|
      invariant 0 <= i <= |vs|
      invariant MatchedAfter(matched, vs[..i], cs, m)
    {
      matched := MatchOneDetail(vs[..i], vs[i], cs, m, matched);
      assert vs[..i + 1] == vs[..i] + [vs[i]];
      i := i + 1;
    }
    assert vs[..i] == vs;
  }

  /** One detail against the combinations not matched yet. */
  method MatchOneDetail(seen: seq<Grouped<int>>, v: Grouped<int>, cs: seq<Combination>, m: Mapping, matched0: map<string, int>)
    returns (matched: map<string, int>)
    requires DistinctNumbers(cs)
    requires MatchedAfter(matched0, seen, cs, m)
    ensures MatchedAfter(matched, seen + [v], cs, m)
  {
    ghost var before := seq(|cs|, k requires 0 <= k < |cs| => MatchedId(seen, cs[k], m));
    ghost var after := seq(|cs|, k requires 0 <= k < |cs| => MatchedId(seen + [v], cs[k], m));
    ghost var hits := seq(|cs|, k requires 0 <= k < |cs| => Matches(v, cs[k], m));
    forall j | 0 <= j < |cs|
      ensures after[j] == if before[j].Some? then before[j] else if hits[j] then Some(v.key) else None
    {
      MatchedIdSnoc(seen, v, cs[j], m);
    }
    matched := MatchAll(v, cs, m, matched0, before, after, hits);
    forall k | 0 <= k < |cs| ensures Agrees(matched, seen + [v], cs[k], m) {
      assert AgreesWith(matched, cs[k].ordernumber, after[k]);
    }
  }

  /** The inner loop over the combinations, for one detail: `before` holds each combination's
      match before the detail is visited, `after` its match after. */
  method MatchAll(v: Grouped<int>, cs: seq<Combination>, m: Mapping, matched0: map<string, int>,
                  ghost before: seq<Option<int>>, ghost after: seq<Option<int>>, ghost hits: seq<bool>)
    returns (matched: map<string, int>)
    requires DistinctNumbers(cs) && |before| == |cs| && |after| == |cs| && |hits| == |cs|
    requires forall n :: n in matched0 ==> exists k :: 0 <= k < |cs| && cs[k].ordernumber == n
    requires forall k :: 0 <= k < |cs| ==> AgreesWith(matched0, cs[k].ordernumber, before[k])
    requires forall j :: 0 <= j < |cs| ==> hits[j] == Matches(v, cs[j], m)
    requires forall j :: 0 <= j < |cs| ==>
      after[j] == if before[j].Some? then before[j] else if hits[j] then Some(v.key) else None
    ensures forall n :: n in matched ==> exists k :: 0 <= k < |cs| && cs[k].ordernumber == n
    ensures forall k :: 0 <= k < |cs| ==> AgreesWith(matched, cs[k].ordernumber, after[k])
  {
    matched := matched0;
    var j := 0;
    while j < |cs|
      invariant 0 <= j <= |cs|
      invariant forall n :: n in matched ==> exists k :: 0 <= k < |cs| && cs[k].ordernumber == n
      invariant forall k :: 0 <= k < |cs| ==> AgreesWith(matched, cs[k].ordernumber, if k < j then after[k] else before[k])
    {
      var c := cs[j];
      ghost var prev := matched;
      matched := MatchTurn(v, c, m, matched);
      j := j + 1;
      MatchStep(cs, j - 1, j, prev, matched, before, after, hits[j - 1], v.key);
    }
  }

  /** One turn of the inner loop: an unmatched combination that the detail matches is matched to it. */
  method MatchTurn(v: Grouped<int>, c: Combination, m: Mapping, matched0: map<string, int>) returns (matched: map<string, int>)
    ensures matched == if c.ordernumber !in matched0 && Matches(v, c, m) then matched0[c.ordernumber := v.key] else matched0
  {
    matched := matched0;
    if c.ordernumber !in matched {
      var same := CompareDetail(v, c, m);
      if same {
        matched := matched[c.ordernumber := v.key];
      }
    }
  }

  /** One combination of the inner loop: the map gains the detail for this combination when it
      had no entry and the detail matches, and every combination still agrees with its expected
      match. */
  lemma MatchStep(cs: seq<Combination>, j: nat, next: nat, prev: map<string, int>, matched: map<string, int>,
                  before: seq<Option<int>>, after: seq<Option<int>>, matches: bool, key: int)
    requires DistinctNumbers(cs) && j < |cs| && next == j + 1 && |before| == |cs| && |after| == |cs|
    requires forall n :: n in prev ==> exists k :: 0 <= k < |cs| && cs[k].ordernumber == n
    requires forall k :: 0 <= k < |cs| ==> AgreesWith(prev, cs[k].ordernumber, if k < j then after[k] else before[k])
    requires matched == if cs[j].ordernumber !in prev && matches then prev[cs[j].ordernumber := key] else prev
    requires after[j] == if before[j].Some? then before[j] else if matches then Some(key) else None
    ensures forall n :: n in matched ==> exists k :: 0 <= k < |cs| && cs[k].ordernumber == n
    ensures forall k :: 0 <= k < |cs| ==> AgreesWith(matched, cs[k].ordernumber, if k < next then after[k] else before[k])
  {
    assert AgreesWith(prev, cs[j].ordernumber, before[j]);
    forall k | 0 <= k < |cs| ensures AgreesWith(matched, cs[k].ordernumber, if k < next then after[k] else before[k]) {
      if k != j {
        assert cs[k].ordernumber != cs[j].ordernumber;
        assert AgreesWith(prev, cs[k].ordernumber, if k < j then after[k] else before[k]);
      }
    }
  }

  /** The two comparisons of one detail with one combination. */
  method CompareDetail(v: Grouped<int>, c: Combination, m: Mapping) returns (same: bool)
    ensures same == Matches(v, c, m)
  {
    CompareIsMatch(v, c, m);
    same := false;
    var compare := ArrayValuesReplace(c.groupIds, m.groups);
    if compare.Some? && ArrayValuesEqual(compare.value, v.groups) {
      compare := ArrayValuesReplace(c.optionIds, m.options);
      if compare.Some? && ArrayValuesEqual(compare.value, v.options) {
        same := true;
      }
    }
  }

  /** The map's entry for the combination is its matched detail. */
  ghost predicate Agrees(matched: map<string, int>, vs: seq<Grouped<int>>, c: Combination, m: Mapping) {
    AgreesWith(matched, c.ordernumber, MatchedId(vs, c, m))
  }

  ghost predicate AgreesWith(matched: map<string, int>, n: string, expected: Option<int>) {
    (n in matched <==> expected.Some?) && (n in matched ==> matched[n] == expected.value)
  }

  // ---------------------------------------------------------------------------------------
  // Creating, keeping and deleting variant details

  /** The details table keeps ids and ordernumbers unique (the ordernumber is a unique key), and
      every id lies below the next id the table hands out. */
  ghost predicate ValidDetails(details: seq<DetailRow>, nextId: int) {
    (forall i, j :: 0 <= i < j < |details| ==> details[i].detailId != details[j].detailId)
    && (forall i, j :: 0 <= i < j < |details| ==> details[i].ordernumber != details[j].ordernumber)
    && (forall i :: 0 <= i < |details| ==> 0 < details[i].detailId < nextId)
    && 0 < nextId
  }

  predicate HasDetail(details: seq<DetailRow>, id: int) {
    exists k :: 0 <= k < |details| && details[k].detailId == id
  }

  /** The table holds a detail with this id and this ordernumber. */
  predicate HasNumbered(details: seq<DetailRow>, id: int, number: string) {
    exists k :: 0 <= k < |details| && details[k].detailId == id && details[k].ordernumber == number
  }

  /** `b` keeps every row of `a` at its position. */
  ghost predicate Extends(a: seq<DetailRow>, b: seq<DetailRow>) {
    |a| <= |b| && forall k :: 0 <= k < |a| ==> b[k] == a[k]
  }

  /** Keeping the rows loses no detail. */
  lemma ExtendsKeeps(a: seq<DetailRow>, b: seq<DetailRow>, id: int, number: string)
    requires Extends(a, b)
    ensures HasDetail(a, id) ==> HasDetail(b, id)
    ensures HasNumbered(a, id, number) ==> HasNumbered(b, id, number)
  {
    if HasDetail(a, id) {
      var k :| 0 <= k < |a| && a[k].detailId == id;
      assert b[k].detailId == id;
    }
    if HasNumbered(a, id, number) {
      var k :| 0 <= k < |a| && a[k].detailId == id && a[k].ordernumber == number;
      assert b[k].detailId == id && b[k].ordernumber == number;
    }
  }

  /** The position of the detail carrying `number`. */
  function NumberIndex(details: seq<DetailRow>, number: string): (r: Option<nat>)
    ensures r.None? <==> forall k :: 0 <= k < |details| ==> details[k].ordernumber != number
    ensures r.Some? ==> r.value < |details| && details[r.value].ordernumber == number
  {
    if details == [] then None
    else if details[0].ordernumber == number then Some(0)
    else match NumberIndex(details[1..], number)
      case None => None
      case Some(i) => Some(i + 1)
  }

  /** The index found is the first row with the number. */
  lemma {:induction false} NumberIndexFirst(details: seq<DetailRow>, number: string, k: nat)
    requires k <= |details| && (k < |details| ==> details[k].ordernumber == number)
    requires forall j :: 0 <= j < k ==> details[j].ordernumber != number
    ensures NumberIndex(details, number) == if k < |details| then Some(k) else None
  {
    if details != [] && k > 0 {
      forall j | 0 <= j < k - 1 ensures details[1..][j].ordernumber != number {
        assert details[1..][j] == details[j + 1];
      }
      NumberIndexFirst(details[1..], number, k - 1);
    }
  }

  /** The details table after creating one variant detail, and the detail's id. */
  datatype Created = Created(details: seq<DetailRow>, nextId: int, id: int)

  /** `_createVariantDetail`: a new ordernumber gets a new detail row with the next id; an
      ordernumber that is already taken makes the insert fail, and the existing detail is used
      instead, left where it is. */
  function CreateDetail(details: seq<DetailRow>, nextId: int, articleId: int, number: string): (r: Created)
    requires ValidDetails(details, nextId)
    ensures ValidDetails(r.details, r.nextId) && nextId <= r.nextId
    ensures HasNumbered(r.details, r.id, number)
    ensures Extends(details, r.details)
    ensures |r.details| != |details| <==> forall k :: 0 <= k < |details| ==> details[k].ordernumber != number
    ensures |r.details| != |details| ==> r.details == details + [DetailRow(nextId, articleId, number)] && r.id == nextId
    ensures |r.details| == |details| ==> r.details == details && r.nextId == nextId
  {
    match NumberIndex(details, number)
    case None =>
      var d := DetailRow(nextId, articleId, number);
      var r := Created(details + [d], nextId + 1, nextId);
      assert r.details[|details|] == d;
      r
    case Some(i) =>
      assert details[i] == DetailRow(details[i].detailId, details[i].articleId, number);
      Created(details, nextId, details[i].detailId)
  }

  /** The state the loop over the combinations carries: the details table, the next id and the
      detail ids collected so far. */
  datatype Pass = Pass(details: seq<DetailRow>, nextId: int, ids: seq<int>)

  /** The detail id of each combination: its matched detail, or the one `CreateDetail` gives. */
  function CreateAll(details: seq<DetailRow>, nextId: int, articleId: int,
                     cs: seq<Combination>, matched: map<string, int>): (r: Pass)
    requires ValidDetails(details, nextId)
    ensures ValidDetails(r.details, r.nextId) && |r.ids| == |cs|
  {
    if cs == [] then Pass(details, nextId, [])
    else PassStep(CreateAll(details, nextId, articleId, cs[..|cs| - 1], matched), articleId, cs[|cs| - 1], matched)
  }

  lemma CreateAllSnoc(details: seq<DetailRow>, nextId: int, articleId: int,
                      cs: seq<Combination>, matched: map<string, int>, k: nat)
    requires ValidDetails(details, nextId) && k < |cs|
    ensures CreateAll(details, nextId, articleId, cs[..k + 1], matched)
         == PassStep(CreateAll(details, nextId, articleId, cs[..k], matched), articleId, cs[k], matched)
  {
    assert cs[..k + 1][..k] == cs[..k];
  }

  /** One turn of the loop: the matched detail, or a created one. */
  function PassStep(p: Pass, articleId: int, c: Combination, matched: map<string, int>): (r: Pass)
    requires ValidDetails(p.details, p.nextId)
    ensures ValidDetails(r.details, r.nextId) && |r.ids| == |p.ids| + 1
  {
    if c.ordernumber in matched then Pass(p.details, p.nextId, p.ids + [matched[c.ordernumber]])
    else
      var made := CreateDetail(p.details, p.nextId, articleId, c.ordernumber);
      Pass(made.details, made.nextId, p.ids + [made.id])
  }

  /** The loop keeps every detail it found, where it found it. */
  lemma {:induction false} CreateAllKeeps(details: seq<DetailRow>, nextId: int, articleId: int,
                                         cs: seq<Combination>, matched: map<string, int>)
    requires ValidDetails(details, nextId)
    ensures Extends(details, CreateAll(details, nextId, articleId, cs, matched).details)
  {
    if cs != [] {
      CreateAllKeeps(details, nextId, articleId, cs[..|cs| - 1], matched);
    }
  }

  /** What the ids of a pass say: each names a detail of the table, a matched combination's is
      its matched detail, and an unmatched combination's carries its ordernumber. */
  ghost predicate IdsHold(p: Pass, cs: seq<Combination>, matched: map<string, int>)
    requires |p.ids| == |cs|
  {
    forall k :: 0 <= k < |cs| ==>
      HasDetail(p.details, p.ids[k])
      && (cs[k].ordernumber in matched ==> p.ids[k] == matched[cs[k].ordernumber])
      && (cs[k].ordernumber !in matched ==> HasNumbered(p.details, p.ids[k], cs[k].ordernumber))
  }

  /** Every combination gets a detail id that the table holds after the loop; a matched
      combination keeps its matched detail, and a new one carries the combination's ordernumber. */
  lemma {:induction false} CreateAllIds(details: seq<DetailRow>, nextId: int, articleId: int,
                                       cs: seq<Combination>, matched: map<string, int>)
    requires ValidDetails(details, nextId)
    requires forall n :: n in matched ==> HasDetail(details, matched[n])
    ensures IdsHold(CreateAll(details, nextId, articleId, cs, matched), cs, matched) == true
  {
    if cs != [] {
      var p := CreateAll(details, nextId, articleId, cs[..|cs| - 1], matched);
      CreateAllIds(details, nextId, articleId, cs[..|cs| - 1], matched);
      CreateAllKeeps(details, nextId, articleId, cs[..|cs| - 1], matched);
      PassStepIds(details, p, articleId, cs, matched);
      CreateAllLast(details, nextId, articleId, cs, matched);
    }
  }

  lemma CreateAllLast(details: seq<DetailRow>, nextId: int, articleId: int,
                      cs: seq<Combination>, matched: map<string, int>)
    requires ValidDetails(details, nextId) && cs != []
    ensures CreateAll(details, nextId, articleId, cs, matched)
         == PassStep(CreateAll(details, nextId, articleId, cs[..|cs| - 1], matched), articleId, cs[|cs| - 1], matched)
  {
  }

  /** One turn keeps what the ids say, for the combinations so far and for the new one. */
  lemma PassStepIds(details: seq<DetailRow>, p: Pass, articleId: int, cs: seq<Combination>, matched: map<string, int>)
    requires cs != [] && ValidDetails(p.details, p.nextId) == true && |p.ids| == |cs| - 1
    requires IdsHold(p, cs[..|cs| - 1], matched) == true && Extends(details, p.details) == true
    requires forall n :: n in matched ==> HasDetail(details, matched[n])
    ensures IdsHold(PassStep(p, articleId, cs[|cs| - 1], matched), cs, matched) == true
  {
    var c := cs[|cs| - 1];
    var r := PassStep(p, articleId, c, matched);
    assert Extends(p.details, r.details) && r.ids == p.ids + [r.ids[|cs| - 1]];
    forall k | 0 <= k < |cs|
      ensures HasDetail(r.details, r.ids[k])
      ensures cs[k].ordernumber in matched ==> r.ids[k] == matched[cs[k].ordernumber]
      ensures cs[k].ordernumber !in matched ==> HasNumbered(r.details, r.ids[k], cs[k].ordernumber)
    {
      if k < |cs| - 1 {
        assert cs[k] == cs[..|cs| - 1][k] && r.ids[k] == p.ids[k];
        ExtendsKeeps(p.details, r.details, p.ids[k], cs[k].ordernumber);
      } else if c.ordernumber in matched {
        assert r.ids[k] == matched[c.ordernumber];
        ExtendsKeeps(details, p.details, matched[c.ordernumber], "");
        ExtendsKeeps(p.details, r.details, matched[c.ordernumber], "");
      } else {
        var j :| 0 <= j < |r.details| && r.details[j].detailId == r.ids[k] && r.details[j].ordernumber == c.ordernumber;
      }
    }
  }

  /** A detail survives the orphan deletion when it belongs to another article or is one of the
      active ids (ids 0 are filtered out of the list first). */
  predicate Keep(d: DetailRow, articleId: int, active: seq<int>) {
    d.articleId != articleId || (d.detailId != 0 && d.detailId in active)
  }

  /** The orphan deletion: nothing is deleted when there is no active id. */
  function DeleteOrphans(details: seq<DetailRow>, articleId: int, active: seq<int>): (r: seq<DetailRow>)
    ensures forall d :: d in r <==> d in details && (active == [] || Keep(d, articleId, active))
  {
    if active == [] || details == [] then details
    else
      var rest := DeleteOrphans(details[1..], articleId, active);
      assert forall d :: d in details <==> d == details[0] || d in details[1..];
      if Keep(details[0], articleId, active) then [details[0]] + rest else rest
  }

  /** Deleting rows keeps ids and ordernumbers unique. */
  lemma {:induction false} DeleteOrphansValid(details: seq<DetailRow>, articleId: int, active: seq<int>, n: int)
    requires ValidDetails(details, n)
    ensures ValidDetails(DeleteOrphans(details, articleId, active), n)
  {
    if active != [] && details != [] {
      var rest := DeleteOrphans(details[1..], articleId, active);
      var r := DeleteOrphans(details, articleId, active);
      assert ValidDetails(details[1..], n);
      DeleteOrphansValid(details[1..], articleId, active, n);
      forall x | x in rest ensures x.detailId != details[0].detailId && x.ordernumber != details[0].ordernumber {
        var j :| 0 <= j < |details[1..]| && details[1..][j] == x;
        assert details[j + 1] == x;
      }
      if Keep(details[0], articleId, active) {
        ConsValid(details[0], rest, n);
      }
    }
  }

  lemma ConsValid(x: DetailRow, rest: seq<DetailRow>, n: int)
    requires ValidDetails(rest, n) && 0 < x.detailId < n
    requires forall y :: y in rest ==> y.detailId != x.detailId && y.ordernumber != x.ordernumber
    ensures ValidDetails([x] + rest, n)
  {
    var r := [x] + rest;
    forall i, j | 0 <= i < j < |r| ensures r[i].detailId != r[j].detailId && r[i].ordernumber != r[j].ordernumber {
      assert r[j] == rest[j - 1];
      if i == 0 {
        assert rest[j - 1] in rest;
      } else {
        assert r[i] == rest[i - 1];
      }
    }
  }

  /** One entry of the update's variant list. */
  datatype VariantEntry = VariantEntry(id: int, isMain: bool, number: string, shippingTime: int, additionalText: string)

  /** The name of a hub option, found by its id in the first group that has it. */
  function OptionName(hubOptions: seq<HubOption>, optionId: int): (r: Option<string>)
    ensures r.None? <==> forall k :: 0 <= k < |hubOptions| ==> hubOptions[k].id != optionId
    ensures r.Some? ==> exists k :: 0 <= k < |hubOptions| && hubOptions[k].id == optionId && hubOptions[k].name == r.value
  {
    if hubOptions == [] then None
    else if hubOptions[0].id == optionId then Some(hubOptions[0].name)
    else
      var r := OptionName(hubOptions[1..], optionId);
      assert forall k :: 1 <= k < |hubOptions| ==> hubOptions[k] == hubOptions[1..][k - 1];
      r
  }

  /** The names of the combination's options, skipping ids the hub did not name. */
  function OptionNames(hubOptions: seq<HubOption>, optionIds: seq<int>): (r: seq<string>)
    ensures |r| <= |optionIds|
  {
    if optionIds == [] then []
    else
      var init := optionIds[..|optionIds| - 1];
      var name := OptionName(hubOptions, optionIds[|optionIds| - 1]);
      OptionNames(hubOptions, init) + (if name.Some? then [name.value] else [])
  }

  /** `implode` with a separator string. */
  function Join(parts: seq<string>, sep: string): string {
    if parts == [] then "" else if |parts| == 1 then parts[0] else parts[0] + sep + Join(parts[1..], sep)
  }

  /** The entry the loop writes for the `k`-th combination; only the first one is the main
      detail, because the counter starts out undefined and compares equal to 0 once. */
  function EntryFor(c: Combination, id: int, hubOptions: seq<HubOption>, k: nat): VariantEntry {
    VariantEntry(id, k == 0, c.ordernumber, ShippingTime(c.shippingStatus), Join(OptionNames(hubOptions, c.optionIds), " / "))
  }

  /** The entries of all combinations, in order. */
  function EntriesFor(cs: seq<Combination>, ids: seq<int>, hubOptions: seq<HubOption>): (r: seq<VariantEntry>)
    requires |ids| == |cs|
    ensures |r| == |cs|
    ensures forall k :: 0 <= k < |cs| ==> r[k] == EntryFor(cs[k], ids[k], hubOptions, k)
    ensures forall k :: 0 <= k < |cs| ==> (r[k].isMain <==> k == 0) && r[k].id == ids[k] && r[k].number == cs[k].ordernumber
  {
    if cs == [] then []
    else
      var n := |cs| - 1;
      var init := EntriesFor(cs[..n], ids[..n], hubOptions);
      assert forall k :: 0 <= k < n ==> cs[..n][k] == cs[k] && ids[..n][k] == ids[k];
      init + [EntryFor(cs[n], ids[n], hubOptions, n)]
  }

  lemma EntriesForSnoc(cs: seq<Combination>, ids: seq<int>, hubOptions: seq<HubOption>, k: nat)
    requires k < |cs| && |ids| == k + 1
    ensures EntriesFor(cs[..k + 1], ids, hubOptions) == EntriesFor(cs[..k], ids[..k], hubOptions) + [EntryFor(cs[k], ids[k], hubOptions, k)]
  {
    assert cs[..k + 1][..k] == cs[..k];
  }

  /** The variant details of one article, with the next detail id the table hands out. */
  class VariantStore {
    var details: seq<DetailRow>
    var nextId: int
    var attributes: seq<AttrRow>

    ghost predicate Valid()
      reads this
    {
      ValidDetails(details, nextId)
    }

    constructor(details: seq<DetailRow>, nextId: int, attributes: seq<AttrRow>)
      requires ValidDetails(details, nextId)
      ensures Valid()
      ensures this.details == details && this.nextId == nextId && this.attributes == attributes
    {
      this.details := details;
      this.nextId := nextId;
      this.attributes := attributes;
    }

    /** The lookup by ordernumber after a failed insert. */
    method FindNumber(number: string) returns (i: Option<nat>)
      ensures i == NumberIndex(details, number)
    {
      var k := 0;
      while k < |details|
        invariant 0 <= k <= |details|
        invariant forall j :: 0 <= j < k ==> details[j].ordernumber != number
      {
        if details[k].ordernumber == number {
          NumberIndexFirst(details, number, k);
          return Some(k);
        }
        k := k + 1;
      }
      NumberIndexFirst(details, number, k);
      return None;
    }

    /** `_createVariantDetail`. */
    method CreateVariantDetail(articleId: int, number: string) returns (id: int)
      requires Valid()
      modifies this
      ensures Valid()
      ensures Created(details, nextId, id) == CreateDetail(old(details), old(nextId), articleId, number)
      ensures attributes == old(attributes)
    {
      var found := FindNumber(number);
      if found.None? {
        details := details + [DetailRow(nextId, articleId, number)];
        id := nextId;
        nextId := nextId + 1;
      } else {
        id := details[found.value].detailId;
      }
    }

    /** `_updateVariantDetails`: the hub's ids are mapped to the shop's by name, the article's
        details are read with their options (`joinRows`, the result of the details query) and
        matched to the hub's combinations; every combination then gets an entry with its matched
        or created detail, the article's details no entry uses are deleted, and the master
        ordernumber is stored. */
    method UpdateVariantDetails(articleId: int, masterNumber: string, hubGroups: seq<HubGroup>, hubOptions: seq<HubOption>,
                                shopGroups: seq<ShopEntity>, shopOptions: seq<ShopEntity>,
                                joinRows: seq<OptionRow<int>>, cs: seq<Combination>) returns (entries: seq<VariantEntry>)
      requires Valid() && DistinctNumbers(cs)
      requires forall k :: 0 <= k < |joinRows| ==> HasDetail(details, joinRows[k].key)
      modifies this
      ensures Valid() && |entries| == |cs|
      ensures entries == EntriesFor(cs, Column(entries, EntryId), hubOptions)
      ensures Reconciled(old(details), details, articleId, cs, GroupRows(joinRows),
                         MappingOf(hubGroups, hubOptions, shopGroups, shopOptions), Column(entries, EntryId))
      ensures attributes == SetMaster(old(attributes), articleId, masterNumber)
    {
      var m := BuildMapping(hubGroups, hubOptions, shopGroups, shopOptions);
      var vs := GroupOptionRows(joinRows);
      var matched := MatchCombinations(vs, cs, m);
      MatchedKnown(matched, vs, cs, m, joinRows, details);
      ghost var p := CreateAll(details, nextId, articleId, cs, matched);
      ReconcileOutcome(details, nextId, articleId, cs, matched, vs, m);
      entries := ApplyCombinations(articleId, masterNumber, cs, matched, hubOptions);
      assert details == DeleteOrphans(p.details, articleId, p.ids);
      assert Column(entries, EntryId) == p.ids by { EntriesIds(cs, p.ids, hubOptions); }
    }

    /** The second half of `_updateVariantDetails`, once the combinations are matched: one entry
        per combination, in order, with its matched or created detail; then the article's details
        that no entry uses are deleted (when there is at least one entry), and the master
        ordernumber is written to the article's attributes. */
    method ApplyCombinations(articleId: int, masterNumber: string, cs: seq<Combination>, matched: map<string, int>,
                                hubOptions: seq<HubOption>) returns (entries: seq<VariantEntry>)
      requires Valid()
      modifies this
      ensures Valid()
      ensures |entries| == |cs|
      ensures entries == EntriesFor(cs, CreateAll(old(details), old(nextId), articleId, cs, matched).ids, hubOptions)
      ensures details == DeleteOrphans(CreateAll(old(details), old(nextId), articleId, cs, matched).details, articleId,
                                       CreateAll(old(details), old(nextId), articleId, cs, matched).ids)
      ensures nextId == CreateAll(old(details), old(nextId), articleId, cs, matched).nextId
      ensures attributes == SetMaster(old(attributes), articleId, masterNumber)
    {
      var active;
      entries, active := EmitEntries(articleId, cs, matched, hubOptions);
      ghost var created := details;
      if |active| > 0 {
        DeleteOrphansValid(details, articleId, active, nextId);
        details := DeleteOrphans(details, articleId, active);
      }
      assert details == DeleteOrphans(created, articleId, active);
      attributes := SetMaster(attributes, articleId, masterNumber);
    }

    /** The loop over the combinations: the entries and the list of active detail ids. */
    method EmitEntries(articleId: int, cs: seq<Combination>, matched: map<string, int>, hubOptions: seq<HubOption>)
      returns (entries: seq<VariantEntry>, active: seq<int>)
      requires Valid()
      modifies this
      ensures Valid() && attributes == old(attributes)
      ensures Pass(details, nextId, active) == CreateAll(old(details), old(nextId), articleId, cs, matched)
      ensures |entries| == |cs| == |active|
      ensures entries == EntriesFor(cs, active, hubOptions)
    {
      ghost var details0, nextId0 := details, nextId;
      active := [];
      entries := [];
      var k := 0;
      while k < |cs|
        invariant 0 <= k <= |cs| && |entries| == k
        invariant Valid()
        invariant attributes == old(attributes)
        invariant Pass(details, nextId, active) == CreateAll(details0, nextId0, articleId, cs[..k], matched)
        invariant |active| == k && entries == EntriesFor(cs[..k], active, hubOptions)
      {
        ghost var before := Pass(details, nextId, active);
        CreateAllSnoc(details0, nextId0, articleId, cs, matched, k);
        var id, e := Turn(articleId, cs[k], matched, hubOptions, k, active);
        assert Pass(details, nextId, active + [id]) == PassStep(before, articleId, cs[k], matched);
        EntriesForSnoc(cs, active + [id], hubOptions, k);
        active := active + [id];
        entries := entries + [e];
        k := k + 1;
      }
      assert cs[..k] == cs;
    }

    /** One turn of the loop over the combinations. */
    method Turn(articleId: int, c: Combination, matched: map<string, int>, hubOptions: seq<HubOption>, k: nat, ghost ids: seq<int>)
      returns (id: int, e: VariantEntry)
      requires Valid()
      modifies this
      ensures Valid() && attributes == old(attributes)
      ensures Pass(details, nextId, ids + [id]) == PassStep(Pass(old(details), old(nextId), ids), articleId, c, matched)
      ensures e == EntryFor(c, id, hubOptions, k)
    {
      if c.ordernumber !in matched {
        id := CreateVariantDetail(articleId, c.ordernumber);
      } else {
        id := matched[c.ordernumber];
      }
      e := MakeEntry(c, id, hubOptions, k);
    }

    /** The entry of one combination. */
    method MakeEntry(c: Combination, id: int, hubOptions: seq<HubOption>, k: nat) returns (e: VariantEntry)
      ensures e == EntryFor(c, id, hubOptions, k)
    {
      var names := OptionNamesOf(c.optionIds, hubOptions);
      e := VariantEntry(id, k == 0, c.ordernumber, ShippingTime(c.shippingStatus), Join(names, " / "));
    }

    /** The loop that collects the option names for the additional text. */
    method OptionNamesOf(optionIds: seq<int>, hubOptions: seq<HubOption>) returns (names: seq<string>)
      ensures names == OptionNames(hubOptions, optionIds)
    {
      names := [];
      var k := 0;
      while k < |optionIds|
        invariant 0 <= k <= |optionIds|
        invariant names == OptionNames(hubOptions, optionIds[..k])
      {
        assert optionIds[..k + 1][..k] == optionIds[..k];
        var name := OptionName(hubOptions, optionIds[k]);
        if name.Some? {
          names := names + [name.value];
        }
        k := k + 1;
      }
      assert optionIds[..k] == optionIds;
    }
  }

  /** The details the matching hands out are details the query read. */
  lemma MatchedKnown(matched: map<string, int>, vs: seq<Grouped<int>>, cs: seq<Combination>, m: Mapping,
                     joinRows: seq<OptionRow<int>>, details: seq<DetailRow>)
    requires vs == GroupRows(joinRows)
    requires MatchedAfter(matched, vs, cs, m)
    requires forall k :: 0 <= k < |joinRows| ==> HasDetail(details, joinRows[k].key)
    ensures forall n :: n in matched ==> HasDetail(details, matched[n])
  {
    forall n | n in matched ensures HasDetail(details, matched[n]) {
      var k :| 0 <= k < |cs| && cs[k].ordernumber == n;
      assert Agrees(matched, vs, cs[k], m);
      var j := FirstMatch(vs, cs[k], m).value;
      IndexOfKeyUnique(vs, j);
      GroupRowsSpec(joinRows, vs[j].key);
    }
  }

  /** What the update promises about the details table, given the detail ids of the entries:
      every entry names a detail the table still holds; a combination that matched an existing
      detail uses that detail, and any other uses a detail carrying its ordernumber; when there
      are combinations, every remaining detail of the article is used by one of them; with no
      combinations nothing is deleted; and no detail of another article is lost. */
  ghost predicate Reconciled(before: seq<DetailRow>, after: seq<DetailRow>, articleId: int,
                             cs: seq<Combination>, vs: seq<Grouped<int>>, m: Mapping, ids: seq<int>)
    requires |ids| == |cs|
  {
    (forall k :: 0 <= k < |cs| ==> HasDetail(after, ids[k]))
    && (forall k :: 0 <= k < |cs| && MatchedId(vs, cs[k], m).Some? ==> ids[k] == MatchedId(vs, cs[k], m).value)
    && (forall k :: 0 <= k < |cs| && MatchedId(vs, cs[k], m).None? ==> HasNumbered(after, ids[k], cs[k].ordernumber))
    && (cs != [] ==> forall d :: d in after && d.articleId == articleId ==> d.detailId in ids)
    && (cs == [] ==> after == before)
    && (forall d :: d in before && d.articleId != articleId ==> d in after)
  }

  /** The loop followed by the orphan deletion reconciles the table with the combinations. */
  lemma ReconcileOutcome(details: seq<DetailRow>, nextId: int, articleId: int,
                         cs: seq<Combination>, matched: map<string, int>, vs: seq<Grouped<int>>, m: Mapping)
    requires ValidDetails(details, nextId)
    requires MatchedAfter(matched, vs, cs, m)
    requires forall n :: n in matched ==> HasDetail(details, matched[n])
    ensures Reconciled(details, DeleteOrphans(CreateAll(details, nextId, articleId, cs, matched).details, articleId,
                                              CreateAll(details, nextId, articleId, cs, matched).ids),
                       articleId, cs, vs, m, CreateAll(details, nextId, articleId, cs, matched).ids) == true
  {
    var p := CreateAll(details, nextId, articleId, cs, matched);
    CreateAllIds(details, nextId, articleId, cs, matched);
    CreateAllKeeps(details, nextId, articleId, cs, matched);
    if cs == [] {
      assert p == Pass(details, nextId, []);
    }
    PassReconciles(details, p, articleId, cs, matched, vs, m);
  }

  /** What a pass whose ids hold leaves after the orphan deletion. */
  lemma PassReconciles(details: seq<DetailRow>, p: Pass, articleId: int,
                       cs: seq<Combination>, matched: map<string, int>, vs: seq<Grouped<int>>, m: Mapping)
    requires ValidDetails(p.details, p.nextId) == true && |p.ids| == |cs|
    requires IdsHold(p, cs, matched) == true && Extends(details, p.details) == true
    requires MatchedAfter(matched, vs, cs, m)
    requires cs == [] ==> p.details == details
    ensures Reconciled(details, DeleteOrphans(p.details, articleId, p.ids), articleId, cs, vs, m, p.ids)
  {
    var after := DeleteOrphans(p.details, articleId, p.ids);
    IdsSurvive(p, articleId, cs, matched, vs, m);
    forall d | d in details && d.articleId != articleId ensures d in after {
      var i :| 0 <= i < |details| && details[i] == d;
      assert p.details[i] == d;
    }
  }

  /** Every id of the pass survives the deletion and says what `Reconciled` asks of it. */
  lemma IdsSurvive(p: Pass, articleId: int, cs: seq<Combination>, matched: map<string, int>, vs: seq<Grouped<int>>, m: Mapping)
    requires ValidDetails(p.details, p.nextId) == true && |p.ids| == |cs|
    requires IdsHold(p, cs, matched) == true
    requires MatchedAfter(matched, vs, cs, m)
    ensures forall k :: 0 <= k < |cs| ==> HasDetail(DeleteOrphans(p.details, articleId, p.ids), p.ids[k])
    ensures forall k :: 0 <= k < |cs| && MatchedId(vs, cs[k], m).Some? ==> p.ids[k] == MatchedId(vs, cs[k], m).value
    ensures forall k :: 0 <= k < |cs| && MatchedId(vs, cs[k], m).None? ==>
      HasNumbered(DeleteOrphans(p.details, articleId, p.ids), p.ids[k], cs[k].ordernumber)
  {
    var after := DeleteOrphans(p.details, articleId, p.ids);
    forall k | 0 <= k < |cs|
      ensures HasDetail(after, p.ids[k])
      ensures MatchedId(vs, cs[k], m).Some? ==> p.ids[k] == MatchedId(vs, cs[k], m).value
      ensures MatchedId(vs, cs[k], m).None? ==> HasNumbered(after, p.ids[k], cs[k].ordernumber)
    {
      assert Agrees(matched, vs, cs[k], m);
      assert p.ids[k] in p.ids;
      var j :| 0 <= j < |p.details| && p.details[j].detailId == p.ids[k];
      Survives(p.details, articleId, p.ids, j, p.nextId);
      if cs[k].ordernumber !in matched {
        var j' :| 0 <= j' < |p.details| && p.details[j'].detailId == p.ids[k] && p.details[j'].ordernumber == cs[k].ordernumber;
        Survives(p.details, articleId, p.ids, j', p.nextId);
      }
    }
  }

  /** A detail whose id is active survives the deletion. */
  lemma Survives(ds: seq<DetailRow>, articleId: int, ids: seq<int>, j: nat, n: int)
    requires ValidDetails(ds, n) && j < |ds| && ds[j].detailId in ids
    ensures HasNumbered(DeleteOrphans(ds, articleId, ids), ds[j].detailId, ds[j].ordernumber)
    ensures HasDetail(DeleteOrphans(ds, articleId, ids), ds[j].detailId)
  {
    var d := ds[j];
    assert d in ds && Keep(d, articleId, ids);
    var after := DeleteOrphans(ds, articleId, ids);
    assert d in after;
    var i :| 0 <= i < |after| && after[i] == d;
  }

  function EntryId(e: VariantEntry): int { e.id }

  /** The ids of the entries built for `ids` are `ids`. */
  lemma EntriesIds(cs: seq<Combination>, ids: seq<int>, hubOptions: seq<HubOption>)
    requires |ids| == |cs|
    ensures Column(EntriesFor(cs, ids, hubOptions), EntryId) == ids
  {
    var r := Column(EntriesFor(cs, ids, hubOptions), EntryId);
    assert forall k :: 0 <= k < |ids| ==> r[k] == ids[k];
  }


  // ---------------------------------------------------------------------------------------
  // Export

  /** `combination_advanced` of the export: the details' option rows, ordered by ordernumber,
      grouped by ordernumber into group ids and option ids. */
  method ExportCombinations(rows: seq<OptionRow<string>>) returns (combinations: seq<Grouped<string>>)
    ensures combinations == GroupRows(rows)
    ensures forall k :: 0 <= k < |rows| ==> IndexOfKey(combinations, rows[k].key).Some?
    ensures forall n :: IndexOfKey(combinations, n).Some? ==>
      combinations[IndexOfKey(combinations, n).value] == Grouped(n, GroupsOf(rows, n), OptionsOf(rows, n))
  {
    combinations := GroupOptionRows(rows);
    forall n ensures IndexOfKey(combinations, n).Some? ==> combinations[IndexOfKey(combinations, n).value] == Grouped(n, GroupsOf(rows, n), OptionsOf(rows, n)) {
      GroupRowsSpec(rows, n);
    }
    forall k | 0 <= k < |rows| ensures IndexOfKey(combinations, rows[k].key).Some? {
      GroupRowsSpec(rows, rows[k].key);
    }
  }

  /** An exported combination comes back as a match for its detail: once the hub's ids are the
      shop's own (every id mapped to itself), a combination listing the detail's groups and
      options in any order matches the detail. */
  lemma ReimportMatches(v: Grouped<int>, c: Combination, m: Mapping)
    requires multiset(c.groupIds) == multiset(v.groups) && multiset(c.optionIds) == multiset(v.options)
    requires forall k :: 0 <= k < |v.groups| ==> v.groups[k] in m.groups && m.groups[v.groups[k]] == v.groups[k]
    requires forall k :: 0 <= k < |v.options| ==> v.options[k] in m.options && m.options[v.options[k]] == v.options[k]
    ensures Matches(v, c, m)
  {
    forall k | 0 <= k < |c.groupIds| ensures c.groupIds[k] in m.groups && m.groups[c.groupIds[k]] == c.groupIds[k] {
      assert c.groupIds[k] in multiset(v.groups);
      var j :| 0 <= j < |v.groups| && v.groups[j] == c.groupIds[k];
    }
    forall k | 0 <= k < |c.optionIds| ensures c.optionIds[k] in m.options && m.options[c.optionIds[k]] == c.optionIds[k] {
      assert c.optionIds[k] in multiset(v.options);
      var j :| 0 <= j < |v.options| && v.options[j] == c.optionIds[k];
    }
    assert ReplaceAll(c.groupIds, m.groups).value == c.groupIds;
    assert ReplaceAll(c.optionIds, m.options).value == c.optionIds;
  }
}
