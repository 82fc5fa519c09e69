/** Field translation rules of the article import and export: categories, customer group
    permissions, the tax key and the shipping status. */
module ProductFields {
  import opened Wrappers

  // ---------------------------------------------------------------------------------------
  // Categories
  // ---------------------------------------------------------------------------------------

  /** A category assigned to an article, with its depth in the category tree. */
  datatype CategoryRef = CategoryRef(id: int, level: int)

  /** The position of the main category: the first category whose level is strictly lower than
      the level of every category before it and no higher than any other. */
  function Shallowest(cs: seq<CategoryRef>): (r: Option<nat>)
    ensures r.None? <==> cs == []
    ensures r.Some? ==> r.value < |cs|
    ensures r.Some? ==> forall k :: 0 <= k < |cs| ==> cs[r.value].level <= cs[k].level
    ensures r.Some? ==> forall k :: 0 <= k < r.value ==> cs[k].level > cs[r.value].level
  {
    if cs == [] then None
    else
      var p := Shallowest(cs[..|cs| - 1]);
      if p.None? || cs[|cs| - 1].level < cs[p.value].level then Some(|cs| - 1) else p
  }

  function CategoryId(c: CategoryRef): int { c.id }

  /** The exported `categories_id`: the main category's id, or 0 when there is none. */
  function MainCategory(cs: seq<CategoryRef>): int {
    match Shallowest(cs)
    case None => 0
    case Some(i) => cs[i].id
  }

  /** `_exportCategories`: lists every assigned category and picks the shallowest as the main
      one, the first of several at the same level. */
  method ExportCategories(cs: seq<CategoryRef>) returns (allCategories: seq<int>, categoriesId: int)
    ensures allCategories == Column(cs, CategoryId)
    ensures categoriesId == MainCategory(cs)
  {
    allCategories := [];
    categoriesId := 0;
    var lowestLevel: Option<int> := None;
    var i := 0;
    while i < |cs|
      invariant 0 <= i <= |cs|
      invariant allCategories == Column(cs[..i], CategoryId)
      invariant lowestLevel.None? <==> Shallowest(cs[..i]).None?
      invariant lowestLevel.Some? ==> lowestLevel.value == cs[Shallowest(cs[..i]).value].level
      invariant categoriesId == MainCategory(cs[..i])
    {
      assert cs[..i + 1][..i] == cs[..i];
      var category := cs[i];
      allCategories := allCategories + [category.id];
      if lowestLevel.None? || category.level < lowestLevel.value {
        lowestLevel := Some(category.level);
        categoriesId := category.id;
      }
      i := i + 1;
    }
    assert cs[..i] == cs;
  }

  /** PHP `array_unique`: keeps the first occurrence of each value, in order. */
  function Unique(s: seq<int>): (r: seq<int>)
    ensures forall x :: x in r <==> x in s
    ensures forall i, j :: 0 <= i < j < |r| ==> r[i] != r[j]
    ensures s != [] ==> r != [] && r[0] == s[0]
  {
    if s == [] then []
    else
      var u := Unique(s[..|s| - 1]);
      assert s[..|s| - 1] != [] ==> s[..|s| - 1][0] == s[0];
      if s[|s| - 1] in u then u else u + [s[|s| - 1]]
  }

  /** PHP `array_filter` without a callback on integers: drops the zeros. */
  function NonZero(s: seq<int>): (r: seq<int>)
    ensures forall x :: x in r <==> x in s && x != 0
    ensures |r| <= |s|
  {
    if s == [] then []
    else NonZero(s[..|s| - 1]) + (if s[|s| - 1] != 0 then [s[|s| - 1]] else [])
  }

  /** `_updateCategories`: the main category `swg` followed by all other categories, without
      zeros and without repeats. */
  function UpdateCategories(swg: int, allCategories: seq<int>): (r: seq<int>)
    ensures forall x :: x in r <==> x != 0 && (x == swg || x in allCategories)
    ensures forall i, j :: 0 <= i < j < |r| ==> r[i] != r[j]
    ensures swg != 0 ==> r != [] && r[0] == swg
  {
    var merged := [swg] + allCategories;
    assert forall x :: x in merged <==> x == swg || x in allCategories;
    NonZeroKeepsHead(merged);
    Unique(NonZero(merged))
  }

  lemma {:induction false} NonZeroKeepsHead(s: seq<int>)
    ensures s != [] && s[0] != 0 ==> NonZero(s) != [] && NonZero(s)[0] == s[0]
  {
    if |s| > 1 {
      assert s[..|s| - 1][0] == s[0];
      NonZeroKeepsHead(s[..|s| - 1]);
    }
  }

  /** Importing what the export wrote keeps the article's categories: the same set, with the
      main category first. */
  lemma CategoriesRoundTrip(cs: seq<CategoryRef>)
    requires forall k :: 0 <= k < |cs| ==> cs[k].id > 0
    ensures var r := UpdateCategories(MainCategory(cs), Column(cs, CategoryId));
      (forall x :: x in r <==> x in Column(cs, CategoryId))
      && (cs != [] ==> r[0] == MainCategory(cs))
  {
    var ids := Column(cs, CategoryId);
    if cs != [] {
      var i := Shallowest(cs).value;
      assert ids[i] == MainCategory(cs);
    }
  }

  // ---------------------------------------------------------------------------------------
  // Customer group permissions
  // ---------------------------------------------------------------------------------------

  /** The groups of `groups` that are not in `excluded`, in order. */
  function Without(groups: seq<int>, excluded: seq<int>): (r: seq<int>)
    ensures forall g :: g in r <==> g in groups && g !in excluded
    ensures |r| <= |groups|
  {
    if groups == [] then []
    else
      var init := Without(groups[..|groups| - 1], excluded);
      var g := groups[|groups| - 1];
      if g in excluded then init else init + [g]
  }

  /** The `group_permission` key of the export as written. The response array initialises the
      key `group_permissions` (plural), so the singular key exists only once the loop has
      appended a group: it is absent when every known group is blacklisted. */
  function ExportedPermissions(groups: seq<int>, blacklist: seq<int>): Option<seq<int>>
  {
    var whitelist := Without(groups, blacklist);
    if whitelist == [] then None else Some(whitelist)
  }

  /** The key is missing exactly when every known group is blacklisted; otherwise it holds the
      known groups outside the blacklist. */
  lemma ExportedPermissionsSpec(groups: seq<int>, blacklist: seq<int>)
    ensures ExportedPermissions(groups, blacklist).None? <==> forall g :: g in groups ==> g in blacklist
    ensures ExportedPermissions(groups, blacklist).Some? ==>
      forall g :: g in ExportedPermissions(groups, blacklist).value <==> g in groups && g !in blacklist
  {
    var whitelist := Without(groups, blacklist);
    if whitelist != [] {
      var g := whitelist[0];
      assert g in whitelist;
      assert !(forall h :: h in groups ==> h in blacklist);
    }
  }

  /** The key as its documentation intends: initialised as an array, so it always holds the
      whitelist, empty when every known group is blacklisted. */
  function IntendedPermissions(groups: seq<int>, blacklist: seq<int>): (r: Option<seq<int>>)
    ensures r.Some? && forall g :: g in r.value <==> g in groups && g !in blacklist
  {
    Some(Without(groups, blacklist))
  }

  /** `_exportCustomerGroupPermissions`: the shop keeps a blacklist, the hub wants the
      whitelist of every known group that is not blacklisted; the first append creates the key. */
  method ExportGroupPermissions(groups: seq<int>, blacklist: seq<int>) returns (permission: Option<seq<int>>)
    ensures permission == ExportedPermissions(groups, blacklist)
  {
    permission := None;
    ghost var whitelist: seq<int> := [];
    var i := 0;
    while i < |groups|
      invariant 0 <= i <= |groups|
      invariant whitelist == Without(groups[..i], blacklist)
      invariant permission == if whitelist == [] then None else Some(whitelist)
    {
      WithoutStep(groups, i, blacklist);
      if groups[i] !in blacklist {
        if permission.None? {
          assert whitelist + [groups[i]] == [groups[i]];
          permission := Some([groups[i]]);
        } else {
          permission := Some(permission.value + [groups[i]]);
        }
        whitelist := whitelist + [groups[i]];
        assert whitelist != [];
      }
      i := i + 1;
    }
    assert groups[..i] == groups;
  }

  /** `_updateCustomerGroupPermissions` as a value: without a permission list nothing is
      blacklisted; otherwise every group of the table outside the whitelist is. */
  function Blacklist(groups: seq<int>, permission: Option<seq<int>>): (r: seq<int>)
    ensures permission.None? ==> r == []
    ensures permission.Some? ==> forall g :: g in r <==> g in groups && g !in permission.value
  {
    if permission.None? then [] else Without(groups, permission.value)
  }

  lemma WithoutStep(groups: seq<int>, n: nat, excluded: seq<int>)
    requires n < |groups|
    ensures Without(groups[..n + 1], excluded)
            == Without(groups[..n], excluded) + (if groups[n] in excluded then [] else [groups[n]])
  {
    assert groups[..n + 1][..n] == groups[..n];
  }

  /** The import loop over the group table. */
  method UpdateGroupPermissions(groups: seq<int>, permission: Option<seq<int>>) returns (blacklist: seq<int>)
    ensures blacklist == Blacklist(groups, permission)
  {
    blacklist := [];
    if permission.None? {
      return;
    }
    var result := groups;
    while result != []
      invariant |result| <= |groups|
      invariant result == groups[|groups| - |result|..]
      invariant blacklist == Without(groups[..|groups| - |result|], permission.value)
    {
      ghost var n := |groups| - |result|;
      WithoutStep(groups, n, permission.value);
      var groupId := result[0];
      result := result[1..];
      if groupId !in permission.value {
        blacklist := blacklist + [groupId];
      }
      assert |groups| - |result| == n + 1;
    }
    assert groups[..|groups|] == groups;
  }

  /** With the key initialised as documented, exporting the blacklist as a whitelist and
      importing it again gives back the blacklisted groups of the table. */
  lemma PermissionsRoundTrip(groups: seq<int>, blacklist: seq<int>)
    ensures forall g :: g in Blacklist(groups, IntendedPermissions(groups, blacklist)) <==> g in groups && g in blacklist
  {
  }

  /** As written, the round trip holds whenever some known group stays allowed ... */
  lemma PermissionsRoundTripAsWritten(groups: seq<int>, blacklist: seq<int>)
    requires exists g :: g in groups && g !in blacklist
    ensures forall g :: g in Blacklist(groups, ExportedPermissions(groups, blacklist)) <==> g in groups && g in blacklist
  {
    ExportedPermissionsSpec(groups, blacklist);
  }

  /** ... but an article blacklisted for every known group exports no key, and importing that
      blacklists nothing. */
  lemma PermissionsLostWhenAllBlacklisted(groups: seq<int>, blacklist: seq<int>)
    requires groups != [] && forall g :: g in groups ==> g in blacklist
    ensures ExportedPermissions(groups, blacklist).None?
    ensures Blacklist(groups, ExportedPermissions(groups, blacklist)) == []
    ensures groups[0] in Blacklist(groups, IntendedPermissions(groups, blacklist))
  {
    ExportedPermissionsSpec(groups, blacklist);
    assert groups[0] in groups;
  }

  /** Importing a whitelist and exporting the resulting blacklist gives back the whitelisted
      groups of the table; the key is missing exactly when no known group is whitelisted. */
  lemma PermissionsRoundTripBack(groups: seq<int>, permission: seq<int>)
    ensures var e := ExportedPermissions(groups, Blacklist(groups, Some(permission)));
      && (e.None? <==> forall g :: g in groups ==> g !in permission)
      && (e.Some? ==> forall g :: g in e.value <==> g in groups && g in permission)
  {
    var blacklist := Blacklist(groups, Some(permission));
    ExportedPermissionsSpec(groups, blacklist);
    if forall g :: g in groups ==> g in blacklist {
      forall g | g in groups ensures g !in permission {
        assert g in blacklist;
      }
    }
  }

  // ---------------------------------------------------------------------------------------
  // Tax and shipping
  // ---------------------------------------------------------------------------------------

  /** `_updateTax`: tax key "2" is the reduced rate (tax id 4); every other key falls back to
      the standard rate (tax id 1). */
  function TaxId(taxKey: string): (r: int)
    ensures r == 4 <==> taxKey == "2"
    ensures r == 1 <==> taxKey != "2"
  {
    if taxKey == "2" then 4 else 1
  }

  /** The exported shipping status is one more than the shop's delivery time. */
  function ExportShippingStatus(shippingTime: int): (r: int)
    ensures r - 1 == shippingTime
  {
    1 + shippingTime
  }

  /** The imported delivery time is one less than the hub's shipping status, and never
      negative. */
  function ShippingTime(shippingStatus: int): (r: int)
    ensures r >= 0 && r >= shippingStatus - 1
    ensures r == 0 || r == shippingStatus - 1
  {
    if shippingStatus - 1 > 0 then shippingStatus - 1 else 0
  }

  /** Every delivery time the shop can hold survives an export followed by an import, and every
      positive shipping status survives an import followed by an export. */
  lemma ShippingRoundTrip(t: int, s: int)
    ensures t >= 0 ==> ShippingTime(ExportShippingStatus(t)) == t
    ensures s >= 1 ==> ExportShippingStatus(ShippingTime(s)) == s
    ensures s < 1 ==> ExportShippingStatus(ShippingTime(s)) == 1
  {
  }
}
