/** The category service: the action switch, the export of the category tree in both of its
    Shopware branches, creating, renaming and deleting categories, and the resequencing of
    sibling positions when a category is moved. Categories live in an arena (a map from id to
    node) instead of PHP arrays bound to each other by reference. */
module Categories {
  import opened Wrappers
  import opened Strings
  import opened Sorting

  // ---------------------------------------------------------------------------------------
  // The action switch
  // ---------------------------------------------------------------------------------------

  /** What `action` asks the service to do. A move keeps the action exactly as given: the move
      itself compares it with "append" case-sensitively. */
  datatype Command =
    | Add(parentId: int)
    | Delete(categoryId: int)
    | TextChange(categoryId: int)
    | Move(position: string, categoryId: int, referenceId: int, parentId: int)

  /** `action`: the switch on the lower-cased action name. Append moves relative to the parent,
      above and below relative to the reference; any other name is refused. */
  function Dispatch(action: string, categoryId: int, parentId: int, referenceId: int): (r: Result<Command>)
    ensures r.Err? <==> ToLower(action) !in {"add", "delete", "textchange", "append", "above", "below"}
    ensures ToLower(action) == "add" ==> r == Ok(Add(parentId))
    ensures ToLower(action) == "delete" ==> r == Ok(Delete(categoryId))
    ensures ToLower(action) == "textchange" ==> r == Ok(TextChange(categoryId))
    ensures r.Ok? && r.value.Move? <==> ToLower(action) in {"append", "above", "below"}
    ensures r.Ok? && r.value.Move? ==>
      r.value.position == action && r.value.categoryId == categoryId && r.value.parentId == parentId
    ensures ToLower(action) == "append" ==> r.Ok? && r.value.Move? && r.value.referenceId == parentId
    ensures ToLower(action) in {"above", "below"} ==> r.Ok? && r.value.Move? && r.value.referenceId == referenceId
  {
    var lowered := ToLower(action);
    if lowered == "add" then Ok(Add(parentId))
    else if lowered == "delete" then Ok(Delete(categoryId))
    else if lowered == "textchange" then Ok(TextChange(categoryId))
    else if lowered == "append" || lowered == "above" || lowered == "below" then
      Ok(Move(action, categoryId, if lowered != "append" then referenceId else parentId, parentId))
    else Err("Unknown category action given: " + action)
  }

  /** Two spellings of an action that differ only in case are routed alike. */
  lemma DispatchIgnoresCase(a: string, b: string, categoryId: int, parentId: int, referenceId: int)
    requires ToLower(a) == ToLower(b)
    ensures Dispatch(a, categoryId, parentId, referenceId).Err? <==> Dispatch(b, categoryId, parentId, referenceId).Err?
    ensures Dispatch(a, categoryId, parentId, referenceId).Ok? ==>
      Dispatch(b, categoryId, parentId, referenceId).Ok?
      && (Dispatch(a, categoryId, parentId, referenceId).value.Move?
          ==> Dispatch(b, categoryId, parentId, referenceId).value
              == Dispatch(a, categoryId, parentId, referenceId).value.(position := b))
      && (!Dispatch(a, categoryId, parentId, referenceId).value.Move?
          ==> Dispatch(b, categoryId, parentId, referenceId) == Dispatch(a, categoryId, parentId, referenceId))
  {
  }

  /** `categoryAdd`: a parent id below 1 is replaced by 1, the id of the tree's root. */
  function AddParent(parentId: int): (r: int)
    ensures r >= 1
    ensures parentId >= 1 ==> r == parentId
    ensures parentId < 1 ==> r == 1
  {
    if parentId < 1 then 1 else parentId
  }

  // ---------------------------------------------------------------------------------------
  // The category tree
  // ---------------------------------------------------------------------------------------

  /** A row of the category table as the repository's list query returns it. */
  datatype CategoryRow = CategoryRow(id: int, parentId: Option<int>, name: string)

  /** A node of the exported tree; `children` are ids into the same arena. */
  datatype TreeNode = TreeNode(id: int, parentId: int, name: string, children: seq<int>)

  /** The partial tree of the legacy branch: the nodes seen so far and the roots among them. */
  datatype Forest = Forest(nodes: map<int, TreeNode>, roots: seq<int>)

  /** An exported tree: the arena, and the top level the export returns (PHP `null` when the
      table has no root). */
  datatype Tree = Tree(nodes: map<int, TreeNode>, top: Option<seq<int>>)

  /** The parent id as PHP's `(int)` cast leaves it: `null` becomes 0. */
  function ParentInt(p: Option<int>): int {
    if p.None? then 0 else p.value
  }

  function Ids(rows: seq<CategoryRow>): set<int> {
    set k | 0 <= k < |rows| :: rows[k].id
  }

  ghost predicate DistinctIds(rows: seq<CategoryRow>) {
    forall i, j :: 0 <= i < j < |rows| ==> rows[i].id != rows[j].id
  }

  /** The ids of the rows without a parent, in table order. */
  function RootIds(rows: seq<CategoryRow>): (r: seq<int>)
    ensures forall x :: x in r ==> x in Ids(rows)
  {
    if rows == [] then []
    else
      var init := RootIds(rows[..|rows| - 1]);
      assert forall x :: x in Ids(rows[..|rows| - 1]) ==> x in Ids(rows) by {
        forall x | x in Ids(rows[..|rows| - 1]) ensures x in Ids(rows) {
          var k :| 0 <= k < |rows| - 1 && rows[..|rows| - 1][k].id == x;
          assert rows[k].id == x;
        }
      }
      if rows[|rows| - 1].parentId.None? then init + [rows[|rows| - 1].id] else init
  }

  /** Exactly the rows without a parent are roots, and the roots keep table order: those found
      among the first `k` rows come first. */
  lemma {:induction false} RootIdsSpec(rows: seq<CategoryRow>)
    ensures forall x :: x in RootIds(rows) <==> exists k :: 0 <= k < |rows| && rows[k].id == x && rows[k].parentId.None?
    ensures forall k :: 0 <= k <= |rows| ==> RootIds(rows[..k]) <= RootIds(rows)
  {
    if rows != [] {
      var n := |rows| - 1;
      var init := rows[..n];
      RootIdsSpec(init);
      forall x ensures x in RootIds(rows) <==> exists k :: 0 <= k < |rows| && rows[k].id == x && rows[k].parentId.None? {
        if exists k :: 0 <= k < |rows| && rows[k].id == x && rows[k].parentId.None? {
          var k :| 0 <= k < |rows| && rows[k].id == x && rows[k].parentId.None?;
          if k < n { assert init[k] == rows[k]; }
        }
        if x in RootIds(init) {
          var k :| 0 <= k < |init| && init[k].id == x && init[k].parentId.None?;
          assert rows[k] == init[k];
        }
      }
      forall k | 0 <= k <= |rows| ensures RootIds(rows[..k]) <= RootIds(rows) {
        if k <= n {
          assert init[..k] == rows[..k];
        } else {
          assert rows[..k] == rows;
        }
      }
    }
  }

  /** The node the legacy branch hangs the last row of `rows` under: its parent when that has
      been seen (the row itself included), otherwise the first root; `None` for a root and for
      a row with nowhere to go. */
  function HostLast(rows: seq<CategoryRow>): (r: Option<int>)
    requires rows != []
    ensures r.Some? ==> r.value in Ids(rows)
  {
    var row := rows[|rows| - 1];
    if row.parentId.None? then None
    else if row.parentId.value in Ids(rows) then row.parentId
    else
      var roots := RootIds(rows[..|rows| - 1]);
      if roots != [] then
        assert roots[0] in Ids(rows[..|rows| - 1]);
        var k :| 0 <= k < |rows| - 1 && rows[..|rows| - 1][k].id == roots[0];
        assert rows[k].id == roots[0];
        Some(roots[0])
      else None
  }

  /** Row `k` has a parent the legacy branch cannot place it under. */
  ghost predicate Unplaceable(rows: seq<CategoryRow>, k: nat)
    requires k < |rows|
  {
    rows[k].parentId.Some? && HostLast(rows[..k + 1]).None?
  }

  /** The ids of the rows the legacy branch hangs under `x`, in table order. */
  function Hosted(rows: seq<CategoryRow>, x: int): seq<int> {
    if rows == [] then []
    else Hosted(rows[..|rows| - 1], x) + (if HostLast(rows) == Some(x) then [rows[|rows| - 1].id] else [])
  }

  /** The legacy branch after the rows of `rows`, one row at a time. */
  function Grow(rows: seq<CategoryRow>): (r: Result<Forest>)
    ensures r.Ok? ==> r.value.nodes.Keys == Ids(rows) && r.value.roots == RootIds(rows)
  {
    if rows == [] then Ok(Forest(map[], []))
    else
      var init := rows[..|rows| - 1];
      var row := rows[|rows| - 1];
      assert Ids(rows) == Ids(init) + {row.id} by {
        forall x | x in Ids(init) ensures x in Ids(rows) {
          var k :| 0 <= k < |init| && init[k].id == x;
          assert rows[k].id == x;
        }
      }
      match Grow(init)
      case Err(e) => Err(e)
      case Ok(f) =>
        var nodes := f.nodes[row.id := TreeNode(row.id, ParentInt(row.parentId), row.name, [])];
        match HostLast(rows)
        case Some(h) =>
          Ok(Forest(nodes[h := nodes[h].(children := nodes[h].children + [row.id])], f.roots))
        case None =>
          if row.parentId.None? then Ok(Forest(nodes, f.roots + [row.id]))
          else Err("Found a category whos parent I don't know: " + row.name)
  }

  /** The legacy branch of `getCategoryTree`, for shops older than 4.0.8: every row becomes a
      node; a row without a parent is a root; a row whose parent has not been seen yet hangs
      under the first root, and with no root yet the export fails. The export returns the first
      root's children. */
  method LegacyCategoryTree(rows: seq<CategoryRow>) returns (r: Result<Tree>)
    ensures r.Err? <==> exists k :: 0 <= k < |rows| && Unplaceable(rows, k)
    ensures r.Ok? ==> r.value.nodes.Keys == Ids(rows)
    ensures r.Ok? ==> (r.value.top.Some? <==> RootIds(rows) != [])
    ensures r.Ok? && DistinctIds(rows) ==>
      forall x :: x in r.value.nodes ==> r.value.nodes[x].children == Hosted(rows, x)
    ensures r.Ok? && DistinctIds(rows) && RootIds(rows) != [] ==>
      r.value.top == Some(Hosted(rows, RootIds(rows)[0]))
  {
    var categories: map<int, TreeNode> := map[];
    var tree: seq<int> := [];
    var k := 0;
    while k < |rows|
      invariant 0 <= k <= |rows|
      invariant Grow(rows[..k]) == Ok(Forest(categories, tree))
    {
      var step := LegacyTurn(rows, k, categories, tree);
      if step.Err? {
        GrowFails(rows, k);
        return Err(step.error);
      }
      categories, tree := step.value.nodes, step.value.roots;
      k := k + 1;
    }
    assert rows[..k] == rows;
    GrowErrIff(rows);
    var top := if tree != [] then Some(categories[tree[0]].children) else None;
    r := Ok(Tree(categories, top));
    if DistinctIds(rows) {
      GrowShape(rows);
    }
  }

  /** One turn of the legacy loop: row `k` becomes a node and is hung under its host. */
  method LegacyTurn(rows: seq<CategoryRow>, k: nat, categories: map<int, TreeNode>, tree: seq<int>)
    returns (r: Result<Forest>)
    requires k < |rows| && Grow(rows[..k]) == Ok(Forest(categories, tree))
    ensures r == Grow(rows[..k + 1])
    ensures r.Err? ==> Unplaceable(rows, k)
  {
    var pre := rows[..k + 1];
    assert pre[..k] == rows[..k];
    var category := rows[k];
    assert pre[|pre| - 1] == category;
    IdsSnoc(pre);
    var id := category.id;
    var nodes := categories[id := TreeNode(id, ParentInt(category.parentId), category.name, [])];
    assert nodes.Keys == Ids(pre);
    if category.parentId.None? {
      assert HostLast(pre).None?;
      return Ok(Forest(nodes, tree + [id]));
    }
    var parent := category.parentId.value;
    if parent !in nodes {
      if tree != [] {
        parent := tree[0];
        assert HostLast(pre) == Some(parent);
      } else {
        assert HostLast(pre).None?;
        return Err("Found a category whos parent I don't know: " + category.name);
      }
    } else {
      assert HostLast(pre) == Some(parent);
    }
    r := Ok(Forest(nodes[parent := nodes[parent].(children := nodes[parent].children + [id])], tree));
  }

  lemma IdsSnoc(rows: seq<CategoryRow>)
    requires rows != []
    ensures Ids(rows) == Ids(rows[..|rows| - 1]) + {rows[|rows| - 1].id}
  {
    var init := rows[..|rows| - 1];
    forall x | x in Ids(init) ensures x in Ids(rows) {
      var k :| 0 <= k < |init| && init[k].id == x;
      assert rows[k].id == x;
    }
  }

  lemma {:induction false} GrowFails(rows: seq<CategoryRow>, k: nat)
    requires k < |rows| && Unplaceable(rows, k)
    ensures exists j :: 0 <= j < |rows| && Unplaceable(rows, j)
  {
  }

  /** The legacy branch fails exactly when some row has a parent it cannot place it under. */
  lemma {:induction false} GrowErrIff(rows: seq<CategoryRow>)
    ensures Grow(rows).Err? <==> exists k :: 0 <= k < |rows| && Unplaceable(rows, k)
  {
    if rows != [] {
      var n := |rows| - 1;
      var init := rows[..n];
      GrowErrIff(init);
      forall k | 0 <= k < n ensures Unplaceable(init, k) <==> Unplaceable(rows, k) {
        assert init[..k + 1] == rows[..k + 1];
      }
      assert rows[..n + 1] == rows;
      if Grow(init).Err? {
        var k :| 0 <= k < |init| && Unplaceable(init, k);
        assert Unplaceable(rows, k);
      } else if Unplaceable(rows, n) {
      } else {
        forall k | 0 <= k < |rows| ensures !Unplaceable(rows, k) {
          if k < n {
            assert !Unplaceable(init, k);
          }
        }
      }
    }
  }

  /** Only a node that has been seen can host a row. */
  lemma {:induction false} HostedOnlyKnown(rows: seq<CategoryRow>, x: int)
    requires x !in Ids(rows)
    ensures Hosted(rows, x) == []
  {
    if rows != [] {
      var init := rows[..|rows| - 1];
      HostedOnlyKnown(init, x);
    }
  }

  /** With distinct ids, every node's children are exactly the rows hosted under it, in table
      order. */
  lemma {:induction false} GrowShape(rows: seq<CategoryRow>)
    requires DistinctIds(rows) && Grow(rows).Ok?
    ensures forall x :: x in Grow(rows).value.nodes ==> Grow(rows).value.nodes[x].children == Hosted(rows, x)
  {
    if rows != [] {
      var init := rows[..|rows| - 1];
      var row := rows[|rows| - 1];
      assert DistinctIds(init);
      GrowStep(rows);
      GrowShape(init);
      assert row.id !in Ids(init);
      HostedOnlyKnown(init, row.id);
      var f := Grow(init).value;
      var host := HostLast(rows);
      var placed := f.nodes[row.id := TreeNode(row.id, ParentInt(row.parentId), row.name, [])];
      IdsSnoc(rows);
      assert placed.Keys == Ids(rows);
      var g := Grow(rows).value;
      forall x | x in g.nodes ensures g.nodes[x].children == Hosted(rows, x) {
        assert Hosted(rows, x) == Hosted(init, x) + (if host == Some(x) then [row.id] else []);
        if host == Some(x) {
          assert g.nodes[x].children == placed[x].children + [row.id];
        } else {
          assert g.nodes[x] == placed[x];
        }
      }
    }
  }

  /** One row of the legacy branch: a node for the row, then the row appended to its host's children. */
  lemma GrowStep(rows: seq<CategoryRow>)
    requires rows != [] && Grow(rows).Ok?
    ensures Grow(rows[..|rows| - 1]).Ok?
    ensures var row := rows[|rows| - 1];
      var placed := Grow(rows[..|rows| - 1]).value.nodes[row.id := TreeNode(row.id, ParentInt(row.parentId), row.name, [])];
      Grow(rows).value.nodes
        == if HostLast(rows).Some? then placed[HostLast(rows).value := placed[HostLast(rows).value].(children := placed[HostLast(rows).value].children + [row.id])]
           else placed
  {
  }

  /** The ids of the rows whose parent is `x`, in table order: what the newer branch's
      per-node children query returns. */
  function ChildrenOfRows(rows: seq<CategoryRow>, x: int): (r: seq<int>)
    ensures forall c :: c in r ==> c in Ids(rows)
  {
    if rows == [] then []
    else
      var init := rows[..|rows| - 1];
      assert forall c :: c in Ids(init) ==> c in Ids(rows) by {
        forall c | c in Ids(init) ensures c in Ids(rows) {
          var k :| 0 <= k < |init| && init[k].id == c;
          assert rows[k].id == c;
        }
      }
      ChildrenOfRows(init, x) + (if rows[|rows| - 1].parentId == Some(x) then [rows[|rows| - 1].id] else [])
  }

  /** Exactly the rows whose parent is `x` are its children, and they keep table order: those
      found among the first `k` rows come first. */
  lemma {:induction false} ChildrenOfRowsSpec(rows: seq<CategoryRow>, x: int)
    ensures forall c :: c in ChildrenOfRows(rows, x) <==> exists k :: 0 <= k < |rows| && rows[k].id == c && rows[k].parentId == Some(x)
    ensures forall k :: 0 <= k <= |rows| ==> ChildrenOfRows(rows[..k], x) <= ChildrenOfRows(rows, x)
  {
    if rows != [] {
      var n := |rows| - 1;
      var init := rows[..n];
      ChildrenOfRowsSpec(init, x);
      forall c ensures c in ChildrenOfRows(rows, x) <==> exists k :: 0 <= k < |rows| && rows[k].id == c && rows[k].parentId == Some(x) {
        if exists k :: 0 <= k < |rows| && rows[k].id == c && rows[k].parentId == Some(x) {
          var k :| 0 <= k < |rows| && rows[k].id == c && rows[k].parentId == Some(x);
          if k < n { assert init[k] == rows[k]; }
        }
        if c in ChildrenOfRows(init, x) {
          var k :| 0 <= k < |init| && init[k].id == c && init[k].parentId == Some(x);
          assert rows[k] == init[k];
        }
      }
      forall k | 0 <= k <= |rows| ensures ChildrenOfRows(rows[..k], x) <= ChildrenOfRows(rows, x) {
        if k <= n {
          assert init[..k] == rows[..k];
        } else {
          assert rows[..k] == rows;
        }
      }
    }
  }

  /** The branch of `getCategoryTree` for shops from 4.0.8 on: the table must have exactly one
      root, whose children are returned, each node listing its own children. */
  function RootedTree(rows: seq<CategoryRow>): (r: Result<seq<int>>)
    ensures r.Ok? <==> |RootIds(rows)| == 1
    ensures |RootIds(rows)| > 1 ==> r == Err("Multiple Roots found! Not allowed")
    ensures RootIds(rows) == [] ==> r == Err("No Root found!")
    ensures r.Ok? ==> r.value == ChildrenOfRows(rows, RootIds(rows)[0])
  {
    var roots := RootIds(rows);
    if |roots| == 1 then Ok(ChildrenOfRows(rows, roots[0]))
    else if |roots| > 1 then Err("Multiple Roots found! Not allowed")
    else Err("No Root found!")
  }

  /** Every row's parent comes no later than the row itself. */
  ghost predicate ParentsFirst(rows: seq<CategoryRow>) {
    forall k :: 0 <= k < |rows| && rows[k].parentId.Some? ==> rows[k].parentId.value in Ids(rows[..k + 1])
  }

  /** When parents come first, the legacy branch hangs each row under its own parent. */
  lemma {:induction false} HostedIsChildren(rows: seq<CategoryRow>, x: int)
    requires ParentsFirst(rows)
    ensures Hosted(rows, x) == ChildrenOfRows(rows, x)
  {
    if rows != [] {
      var n := |rows| - 1;
      var init := rows[..n];
      assert ParentsFirst(init) by {
        forall k | 0 <= k < n && init[k].parentId.Some? ensures init[k].parentId.value in Ids(init[..k + 1]) {
          assert init[..k + 1] == rows[..k + 1];
        }
      }
      HostedIsChildren(init, x);
      assert rows[..n + 1] == rows;
    }
  }

  /** On a table with distinct ids whose parents come first, the legacy branch succeeds and
      agrees with the newer one: every node's children are the rows naming it as parent, and
      with a single root both return the same top level. */
  lemma BranchesAgree(rows: seq<CategoryRow>)
    requires DistinctIds(rows) && ParentsFirst(rows)
    ensures Grow(rows).Ok?
    ensures forall x :: x in Grow(rows).value.nodes ==> Grow(rows).value.nodes[x].children == ChildrenOfRows(rows, x)
    ensures |RootIds(rows)| == 1 ==>
      Grow(rows).value.roots[0] in Grow(rows).value.nodes
      && Grow(rows).value.nodes[Grow(rows).value.roots[0]].children == RootedTree(rows).value
  {
    GrowErrIff(rows);
    forall k | 0 <= k < |rows| ensures !Unplaceable(rows, k) {
      if rows[k].parentId.Some? {
        assert rows[..k + 1][k] == rows[k];
      }
    }
    GrowShape(rows);
    forall x | x in Grow(rows).value.nodes ensures Grow(rows).value.nodes[x].children == ChildrenOfRows(rows, x) {
      HostedIsChildren(rows, x);
    }
  }

  // ---------------------------------------------------------------------------------------
  // Sibling positions
  // ---------------------------------------------------------------------------------------

  /** A stored category: its parent (none for a root), its name, its position among its
      siblings and its nested-set left value. */
  datatype Category = Category(parentId: Option<int>, name: string, position: int, left: int)

  ghost predicate Distinct(s: seq<int>) {
    forall i, j :: 0 <= i < j < |s| ==> s[i] != s[j]
  }

  lemma {:induction false} DistinctCounts(s: seq<int>)
    requires Distinct(s)
    ensures forall x :: multiset(s)[x] <= 1
  {
    if s != [] {
      var init := s[..|s| - 1];
      assert s == init + [s[|s| - 1]];
      DistinctCounts(init);
      assert s[|s| - 1] !in init;
    }
  }

  lemma CountedTwice(s: seq<int>, i: nat, j: nat)
    requires i < j < |s| && s[i] == s[j]
    ensures multiset(s)[s[i]] >= 2
  {
    assert s == s[..j] + s[j..];
    assert s[i] in s[..j];
    assert s[j] in s[j..];
  }

  /** A reordering of a sequence without repeats has no repeats. */
  lemma DistinctReordered(a: seq<int>, b: seq<int>)
    requires multiset(a) == multiset(b)
    ensures Distinct(a) ==> Distinct(b)
  {
    if Distinct(a) {
      DistinctCounts(a);
      forall i, j | 0 <= i < j < |b| ensures b[i] != b[j] {
        if b[i] == b[j] {
          CountedTwice(b, i, j);
        }
      }
    }
  }

  function PositionIn(cats: map<int, Category>, x: int): int {
    if x in cats then cats[x].position else 0
  }

  function PositionKey(cats: map<int, Category>): int -> int {
    x => PositionIn(cats, x)
  }

  function LeftIn(cats: map<int, Category>, x: int): int {
    if x in cats then cats[x].left else 0
  }

  /** The ids of `ids` that are stored categories with parent `p`, in order. */
  function Under(ids: seq<int>, cats: map<int, Category>, p: Option<int>): (r: seq<int>)
    ensures forall x :: x in r <==> x in ids && x in cats && cats[x].parentId == p
    ensures Distinct(ids) ==> Distinct(r)
  {
    if ids == [] then []
    else
      var x := ids[|ids| - 1];
      Under(ids[..|ids| - 1], cats, p) + (if x in cats && cats[x].parentId == p then [x] else [])
  }

  /** The children of `p` (the roots when `p` is none) as the repository loads them: ordered
      by position, each once. */
  function ChildrenIn(cats: map<int, Category>, p: Option<int>): (r: seq<int>)
    ensures forall x :: x in r <==> x in cats && cats[x].parentId == p
    ensures Distinct(r)
    ensures forall i, j :: 0 <= i < j < |r| ==> r[i] in cats && r[j] in cats && cats[r[i]].position <= cats[r[j]].position
  {
    var ids := SortedKeys(cats.Keys);
    assert Distinct(ids);
    var under := Under(ids, cats, p);
    var r := SortBy(under, PositionKey(cats));
    SortedChildren(cats, p, under, r);
    r
  }

  lemma SortedChildren(cats: map<int, Category>, p: Option<int>, under: seq<int>, r: seq<int>)
    requires forall x :: x in under <==> x in cats && cats[x].parentId == p
    requires Distinct(under) && multiset(r) == multiset(under) && SortedBy(r, PositionKey(cats))
    ensures forall x :: x in r <==> x in cats && cats[x].parentId == p
    ensures Distinct(r)
    ensures forall i, j :: 0 <= i < j < |r| ==> r[i] in cats && r[j] in cats && cats[r[i]].position <= cats[r[j]].position
  {
    assert forall x :: x in r <==> x in multiset(under);
    DistinctReordered(under, r);
    PositionsOrdered(cats, r);
  }

  lemma PositionsOrdered(cats: map<int, Category>, r: seq<int>)
    requires SortedBy(r, PositionKey(cats))
    requires forall x :: x in r ==> x in cats
    ensures forall i, j :: 0 <= i < j < |r| ==> r[i] in cats && r[j] in cats && cats[r[i]].position <= cats[r[j]].position
  {
    forall i | 0 <= i < |r| ensures r[i] in cats {
      assert r[i] in r;
    }
    assert forall x :: PositionKey(cats)(x) == PositionIn(cats, x);
    assert forall i, j :: 0 <= i < j < |r| ==> PositionKey(cats)(r[i]) <= PositionKey(cats)(r[j]);
  }

  /** The children re-sorted by their nested-set left value, as `usort` with
      `actindo_compareSort` leaves them. */
  function ByLeft(cats: map<int, Category>, children: seq<int>): (r: seq<int>)
    ensures multiset(r) == multiset(children)
    ensures forall i, j :: 0 <= i < j < |r| ==> LeftIn(cats, r[i]) <= LeftIn(cats, r[j])
    ensures Distinct(children) ==> Distinct(r)
  {
    var r := SortBy(children, x => LeftIn(cats, x));
    DistinctReordered(children, r);
    r
  }

  /** The loop variables of `rebuildOrder` after some of the children: `$i`, `$itempos`,
      `$check`, and the positions set so far. */
  datatype Sweep = Sweep(i: int, itemPos: int, check: bool, pos: map<int, int>)

  /** One turn of the `rebuildOrder` loop, for the child `id` at index `key`: its four
      statements in order. */
  function Visit(s: Sweep, key: int, id: int, itemId: int, referenceId: int): Sweep {
    PlaceItem(PlaceSibling(MeetReference(ZeroReferenceTurn(s, referenceId), key, id, referenceId), id, itemId), id, itemId)
  }

  /** A reference of 0 puts the moved item first and shifts the numbering by one. */
  function ZeroReferenceTurn(s: Sweep, referenceId: int): Sweep {
    if referenceId == 0 then Sweep(s.i + 1, 0, true, s.pos) else s
  }

  /** Meeting the reference starts the numbering after it. */
  function MeetReference(s: Sweep, key: int, id: int, referenceId: int): Sweep {
    if id == referenceId then Sweep(key + 1, key + 1, true, s.pos) else s
  }

  /** Once numbering has started, every sibling but the moved item takes the next number. */
  function PlaceSibling(s: Sweep, id: int, itemId: int): Sweep {
    if s.check && id != itemId then Sweep(s.i + 1, s.itemPos, true, s.pos[id := s.i]) else s
  }

  /** The moved item takes the item position. */
  function PlaceItem(s: Sweep, id: int, itemId: int): Sweep {
    if id == itemId then s.(pos := s.pos[id := s.itemPos]) else s
  }

  /** The loop of `rebuildOrder` over the first `k` children, `$itempos` starting at
      `count`. */
  function Sweeps(children: seq<int>, k: nat, count: int, itemId: int, referenceId: int): Sweep
    requires k <= |children|
  {
    if k == 0 then Sweep(0, count, false, map[])
    else Visit(Sweeps(children, k - 1, count, itemId, referenceId), k - 1, children[k - 1], itemId, referenceId)
  }

  /** The loop sets positions only for children. */
  lemma {:induction false} SweepsWithin(children: seq<int>, k: nat, count: int, itemId: int, referenceId: int)
    requires k <= |children|
    ensures forall x :: x in Sweeps(children, k, count, itemId, referenceId).pos ==> x in children[..k]
  {
    if k > 0 {
      SweepsWithin(children, k - 1, count, itemId, referenceId);
      assert children[..k] == children[..k - 1] + [children[k - 1]];
    }
  }

  /** The positions `rebuildOrder` gives the children of a parent when moving `itemId` above
      or below `referenceId`. */
  function Resequence(children: seq<int>, itemId: int, referenceId: int): (r: map<int, int>)
    ensures forall x :: x in r ==> x in children
  {
    SweepsWithin(children, |children|, |children|, itemId, referenceId);
    assert children[..|children|] == children;
    Sweeps(children, |children|, |children|, itemId, referenceId).pos
  }

  /** While the reference has not been met the loop sets nothing but the moved item, which
      gets the child count. */
  lemma {:induction false} SweepBeforeReference(children: seq<int>, count: int, itemId: int, referenceId: int, k: nat)
    requires k <= |children| && referenceId != 0 && referenceId !in children[..k]
    ensures var s := Sweeps(children, k, count, itemId, referenceId);
      !s.check && s.i == 0 && s.itemPos == count
      && s.pos == (if itemId in children[..k] then map[itemId := count] else map[])
  {
    if k > 0 {
      assert children[..k] == children[..k - 1] + [children[k - 1]];
      SweepBeforeReference(children, count, itemId, referenceId, k - 1);
    }
  }

  /** The loop variables from the reference (at index `r`) on, after the first `k` children:
      the reference and every later sibling get their index plus one, less one once the moved
      item has been passed; the moved item takes the reference's position when it comes after
      it, and keeps the child count when it came before. */
  ghost predicate FromReference(children: seq<int>, itemId: int, r: nat, k: nat, s: Sweep)
    requires r < k <= |children|
  {
    RefCounters(children, itemId, r, k, s) && RefKeys(children, itemId, r, k, s)
    && RefValues(children, itemId, r, k, s) && RefItem(children, itemId, r, k, s)
  }

  ghost predicate RefCounters(children: seq<int>, itemId: int, r: nat, k: nat, s: Sweep)
    requires r < k <= |children|
  {
    s.check && s.itemPos == r + 1 && s.i == k + 1 - (if itemId in children[r..k] then 1 else 0)
  }

  ghost predicate RefKeys(children: seq<int>, itemId: int, r: nat, k: nat, s: Sweep)
    requires r < k <= |children|
  {
    forall x :: x in s.pos <==> (x in children[r..k] && x != itemId) || (x == itemId && itemId in children[..k])
  }

  ghost predicate RefValues(children: seq<int>, itemId: int, r: nat, k: nat, s: Sweep)
    requires r < k <= |children|
  {
    forall a :: r <= a < k && children[a] != itemId ==>
      children[a] in s.pos && s.pos[children[a]] == a + 1 - (if itemId in children[r..a] then 1 else 0)
  }

  ghost predicate RefItem(children: seq<int>, itemId: int, r: nat, k: nat, s: Sweep)
    requires r < k <= |children|
  {
    (itemId in children[..r] ==> itemId in s.pos && s.pos[itemId] == |children|)
    && (itemId in children[r + 1..k] ==> itemId in s.pos && s.pos[itemId] == r + 1)
  }

  lemma AtReference(children: seq<int>, itemId: int, referenceId: int, r: nat)
    requires Distinct(children) && r < |children|
    requires children[r] == referenceId && referenceId != 0 && referenceId != itemId
    ensures FromReference(children, itemId, r, r + 1, Sweeps(children, r + 1, |children|, itemId, referenceId))
  {
    assert referenceId !in children[..r];
    SweepBeforeReference(children, |children|, itemId, referenceId, r);
    assert children[r..r + 1] == [referenceId];
    assert children[..r + 1] == children[..r] + [referenceId];
  }

  /** One turn after the reference, on a child `id` that is neither the reference nor 0. */
  lemma VisitPast(s: Sweep, k: int, id: int, itemId: int, referenceId: int)
    requires referenceId != 0 && id != referenceId && s.check
    ensures id != itemId ==> Visit(s, k, id, itemId, referenceId) == Sweep(s.i + 1, s.itemPos, true, s.pos[id := s.i])
    ensures id == itemId ==> Visit(s, k, id, itemId, referenceId) == s.(pos := s.pos[id := s.itemPos])
  {
  }

  /** Facts about the slices around index `k` that every part of the step below uses. */
  lemma Slices(children: seq<int>, r: nat, k: nat)
    requires Distinct(children) && r < k < |children|
    ensures children[r..k + 1] == children[r..k] + [children[k]]
    ensures children[..k + 1] == children[..k] + [children[k]]
    ensures children[r + 1..k + 1] == children[r + 1..k] + [children[k]]
    ensures children[k] !in children[..k] && children[k] !in children[r..k] && children[k] !in children[..r]
    ensures children[k] != children[r]
  {
    assert forall a :: 0 <= a < k ==> children[a] != children[k];
  }

  lemma StepCounters(children: seq<int>, itemId: int, r: nat, k: nat, s: Sweep, t: Sweep)
    requires Distinct(children) && r < k < |children|
    requires RefCounters(children, itemId, r, k, s)
    requires children[k] != itemId ==> t == Sweep(s.i + 1, s.itemPos, true, s.pos[children[k] := s.i])
    requires children[k] == itemId ==> t == s.(pos := s.pos[children[k] := s.itemPos])
    ensures RefCounters(children, itemId, r, k + 1, t)
  {
    Slices(children, r, k);
  }

  lemma StepKeys(children: seq<int>, itemId: int, r: nat, k: nat, s: Sweep, t: Sweep)
    requires Distinct(children) && r < k < |children|
    requires RefKeys(children, itemId, r, k, s)
    requires children[k] != itemId ==> t == Sweep(s.i + 1, s.itemPos, true, s.pos[children[k] := s.i])
    requires children[k] == itemId ==> t == s.(pos := s.pos[children[k] := s.itemPos])
    ensures RefKeys(children, itemId, r, k + 1, t)
  {
    Slices(children, r, k);
  }

  lemma StepValues(children: seq<int>, itemId: int, r: nat, k: nat, s: Sweep, t: Sweep)
    requires Distinct(children) && r < k < |children|
    requires RefCounters(children, itemId, r, k, s) && RefValues(children, itemId, r, k, s)
    requires children[k] != itemId ==> t == Sweep(s.i + 1, s.itemPos, true, s.pos[children[k] := s.i])
    requires children[k] == itemId ==> t == s.(pos := s.pos[children[k] := s.itemPos])
    ensures RefValues(children, itemId, r, k + 1, t)
  {
    Slices(children, r, k);
    forall a | r <= a < k + 1 && children[a] != itemId
      ensures children[a] in t.pos && t.pos[children[a]] == a + 1 - (if itemId in children[r..a] then 1 else 0)
    {
      if a < k {
        assert children[a] != children[k];
      }
    }
  }

  lemma StepItem(children: seq<int>, itemId: int, r: nat, k: nat, s: Sweep, t: Sweep)
    requires Distinct(children) && r < k < |children|
    requires RefCounters(children, itemId, r, k, s) && RefItem(children, itemId, r, k, s)
    requires children[k] != itemId ==> t == Sweep(s.i + 1, s.itemPos, true, s.pos[children[k] := s.i])
    requires children[k] == itemId ==> t == s.(pos := s.pos[children[k] := s.itemPos])
    ensures RefItem(children, itemId, r, k + 1, t)
  {
    Slices(children, r, k);
  }

  /** One turn past the reference keeps the four parts of `FromReference`. */
  lemma VisitAfterReference(children: seq<int>, itemId: int, referenceId: int, r: nat, k: nat, s: Sweep)
    requires Distinct(children) && r < k < |children|
    requires children[r] == referenceId && referenceId != 0 && referenceId != itemId
    requires FromReference(children, itemId, r, k, s) == true
    ensures FromReference(children, itemId, r, k + 1, Visit(s, k, children[k], itemId, referenceId)) == true
  {
    Slices(children, r, k);
    VisitPast(s, k, children[k], itemId, referenceId);
    var t := Visit(s, k, children[k], itemId, referenceId);
    StepCounters(children, itemId, r, k, s, t);
    StepKeys(children, itemId, r, k, s, t);
    StepValues(children, itemId, r, k, s, t);
    StepItem(children, itemId, r, k, s, t);
  }

  /** The sweep over the first `k` children, once past the reference, keeps the four parts of `FromReference`.
      (`FromReference` is written as one equation, `== true`, so that it travels as a single fact.) */
  lemma {:induction false} SweepFromReference(children: seq<int>, itemId: int, referenceId: int, r: nat, k: nat)
    requires Distinct(children) && r < k <= |children|
    requires children[r] == referenceId && referenceId != 0 && referenceId != itemId
    ensures FromReference(children, itemId, r, k, Sweeps(children, k, |children|, itemId, referenceId)) == true
  {
    var j := k - 1;
    assert j + 1 == k;
    if j == r {
      AtReference(children, itemId, referenceId, j);
    } else {
      SweepFromReference(children, itemId, referenceId, r, j);
      SweepFromReferenceStep(children, itemId, referenceId, r, j);
    }
  }

  /** The induction step of `SweepFromReference`: from `j` children to `j + 1`. */
  lemma SweepFromReferenceStep(children: seq<int>, itemId: int, referenceId: int, r: nat, j: nat)
    requires Distinct(children) && r < j < |children|
    requires children[r] == referenceId && referenceId != 0 && referenceId != itemId
    requires FromReference(children, itemId, r, j, Sweeps(children, j, |children|, itemId, referenceId)) == true
    ensures FromReference(children, itemId, r, j + 1, Sweeps(children, j + 1, |children|, itemId, referenceId)) == true
  {
    var s := Sweeps(children, j, |children|, itemId, referenceId);
    VisitAfterReference(children, itemId, referenceId, r, j, s);
    assert Sweeps(children, j + 1, |children|, itemId, referenceId) == Visit(s, j, children[j], itemId, referenceId);
  }

  /** `rebuildOrder` with reference 0: the moved item goes first (position 0) and every other
      child gets a positive position, in the children's order. */
  lemma ZeroReference(children: seq<int>, itemId: int)
    requires Distinct(children) && 0 !in children
    ensures var pos := Resequence(children, itemId, 0);
      (forall x :: x in pos <==> x in children)
      && (itemId in children ==> pos[itemId] == 0)
      && (forall a, b :: 0 <= a < b < |children| && children[a] != itemId && children[b] != itemId ==>
            0 < pos[children[a]] < pos[children[b]])
  {
    var n := |children|;
    SweepZero(children, itemId, n);
    assert children[..n] == children;
  }

  lemma {:induction false} SweepZero(children: seq<int>, itemId: int, k: nat)
    requires Distinct(children) && 0 !in children && k <= |children|
    ensures var s := Sweeps(children, k, |children|, itemId, 0);
      (k > 0 ==> s.check && s.itemPos == 0)
      && s.i == 2 * k - (if itemId in children[..k] then 1 else 0)
      && (forall x :: x in s.pos <==> x in children[..k])
      && (forall a :: 0 <= a < k && children[a] != itemId ==>
            s.pos[children[a]] == 2 * a + 1 - (if itemId in children[..a] then 1 else 0))
      && (itemId in children[..k] ==> s.pos[itemId] == 0)
  {
    if k > 0 {
      assert children[..k] == children[..k - 1] + [children[k - 1]];
      assert children[k - 1] !in children[..k - 1];
      SweepZero(children, itemId, k - 1);
    }
  }

  /** `rebuildOrder` with a reference among the children: the siblings before the reference
      keep their positions, the reference and the later siblings are numbered from the
      reference's index plus one, skipping the moved item, and the moved item shares the
      reference's position when it came after it. */
  lemma WithReference(children: seq<int>, itemId: int, r: nat)
    requires Distinct(children) && r < |children|
    requires children[r] != 0 && children[r] != itemId
    ensures var pos := Resequence(children, itemId, children[r]);
      (forall a :: 0 <= a < r && children[a] != itemId ==> children[a] !in pos)
      && (forall a :: r <= a < |children| && children[a] != itemId ==>
            children[a] in pos && pos[children[a]] == a + 1 - (if itemId in children[r..a] then 1 else 0))
      && children[r] in pos && pos[children[r]] == r + 1
      && (itemId in children[..r] ==> itemId in pos && pos[itemId] == |children|)
      && (itemId in children[r + 1..] ==> itemId in pos && pos[itemId] == r + 1)
      && (itemId !in children ==> itemId !in pos)
  {
    var n := |children|;
    SweepFromReference(children, itemId, children[r], r, n);
    assert children[..n] == children;
    forall a | 0 <= a < r && children[a] != itemId ensures children[a] !in children[r..n] {
      assert forall b :: r <= b < n ==> children[b] != children[a];
    }
  }

  /** `rebuildOrder` with a reference that is not among the children moves the item to the
      end and leaves the others alone. */
  lemma ReferenceAbsent(children: seq<int>, itemId: int, referenceId: int)
    requires referenceId != 0 && referenceId !in children
    ensures Resequence(children, itemId, referenceId)
      == if itemId in children then map[itemId := |children|] else map[]
  {
    SweepBeforeReference(children, |children|, itemId, referenceId, |children|);
    assert children[..|children|] == children;
  }

  /** The stored categories after the positions of `pos` have been set. */
  function Repositioned(cats: map<int, Category>, pos: map<int, int>): (r: map<int, Category>)
    ensures r.Keys == cats.Keys
    ensures forall x :: x in cats && x in pos ==> r[x] == cats[x].(position := pos[x])
    ensures forall x :: x in cats && x !in pos ==> r[x] == cats[x]
  {
    map x | x in cats :: if x in pos then cats[x].(position := pos[x]) else cats[x]
  }

  /** The last index of `x` in `s`. */
  function LastIndexOf(s: seq<int>, x: int): (r: Option<nat>)
    ensures r.None? <==> x !in s
    ensures r.Some? ==> r.value < |s| && s[r.value] == x && x !in s[r.value + 1..]
  {
    if s == [] then None
    else if s[|s| - 1] == x then Some(|s| - 1)
    else
      var r := LastIndexOf(s[..|s| - 1], x);
      assert r.Some? ==> s[r.value + 1..] == s[..|s| - 1][r.value + 1..] + [s[|s| - 1]];
      r
  }

  /** Where `getNewPositionIndex` puts the moved item, the parent whose children it counts,
      and the sibling it goes next to. */
  datatype PositionIndex = PositionIndex(position: int, parent: Option<int>, previous: Option<int>)

  /** The parent `getNewPositionIndex` counts the children of: the reference's parent, or the
      moved category itself when the reference does not exist. */
  function NewParent(cats: map<int, Category>, moveItemId: int, referenceId: int): Option<int> {
    if referenceId in cats then cats[referenceId].parentId else Some(moveItemId)
  }

  /** The append branch of `getNewPositionIndex`: the child count, less one for every child
      that is the moved item itself. */
  method CountWithout(children: seq<int>, moveItemId: int) returns (position: int)
    requires Distinct(children)
    ensures position == |children| - (if moveItemId in children then 1 else 0)
  {
    position := |children|;
    var key := 0;
    while key < |children|
      invariant 0 <= key <= |children|
      invariant position == |children| - multiset(children[..key])[moveItemId]
    {
      assert children[..key + 1] == children[..key] + [children[key]];
      if children[key] == moveItemId {
        position := position - 1;
      }
      key := key + 1;
    }
    assert children[..key] == children;
    DistinctCounts(children);
  }

  /** The search for the reference among the sorted children; the last match wins. */
  method FindLast(sorted: seq<int>, referenceId: int) returns (found: Option<nat>)
    ensures found == LastIndexOf(sorted, referenceId)
  {
    found := None;
    var key := 0;
    while key < |sorted|
      invariant 0 <= key <= |sorted|
      invariant found == LastIndexOf(sorted[..key], referenceId)
    {
      assert sorted[..key + 1][..key] == sorted[..key];
      if sorted[key] == referenceId {
        found := Some(key);
      }
      key := key + 1;
    }
    assert sorted[..key] == sorted;
  }

  /** The loop of `rebuildOrder` that walks the children and sets their positions; the
      positions reach the table when the ORM flushes after the loop. */
  method Renumber(children: seq<int>, itemId: int, referenceId: int) returns (positions: map<int, int>)
    ensures positions == Resequence(children, itemId, referenceId)
  {
    positions := map[];
    var check := false;
    var i := 0;
    var itemPos := |children|;
    var key := 0;
    while key < |children|
      invariant 0 <= key <= |children|
      invariant Sweeps(children, key, |children|, itemId, referenceId) == Sweep(i, itemPos, check, positions)
    {
      var value := children[key];
      ghost var s := Sweep(i, itemPos, check, positions);
      if referenceId == 0 {
        itemPos := 0;
        i := i + 1;
        check := true;
      }
      assert Sweep(i, itemPos, check, positions) == ZeroReferenceTurn(s, referenceId);
      s := Sweep(i, itemPos, check, positions);
      if value == referenceId {
        i := key + 1;
        check := true;
        itemPos := key + 1;
      }
      assert Sweep(i, itemPos, check, positions) == MeetReference(s, key, value, referenceId);
      s := Sweep(i, itemPos, check, positions);
      if check && value != itemId {
        positions := positions[value := i];
        i := i + 1;
      }
      assert Sweep(i, itemPos, check, positions) == PlaceSibling(s, value, itemId);
      s := Sweep(i, itemPos, check, positions);
      if value == itemId {
        positions := positions[value := itemPos];
      }
      assert Sweep(i, itemPos, check, positions) == PlaceItem(s, value, itemId);
      key := key + 1;
    }
  }

  /** The category table, as the repository and the ORM keep it. */
  class CategoryRepository {
    var categories: map<int, Category>
    var nextId: int

    /** The next id is above every stored one. */
    ghost predicate Valid()
      reads this
    {
      forall id :: id in categories ==> id < nextId
    }

    constructor(categories: map<int, Category>, nextId: int)
      requires forall id :: id in categories ==> id < nextId
      ensures this.categories == categories && this.nextId == nextId && Valid()
    {
      this.categories := categories;
      this.nextId := nextId;
    }

    /** `categoryAdd`: a new category named `name` under the parent (1 for a parent id below
        1); when no such parent is stored, the new category has none. */
    method CategoryAdd(parentId: int, name: string) returns (id: int)
      requires Valid()
      modifies this
      ensures Valid()
      ensures id == old(nextId) && id !in old(categories)
      ensures var p := AddParent(parentId);
        categories == old(categories)[id := Category(if p in old(categories) then Some(p) else None, name, 0, 0)]
    {
      var p := AddParent(parentId);
      var parent := if p in categories then Some(p) else None;
      id := nextId;
      categories := categories[id := Category(parent, name, 0, 0)];
      nextId := nextId + 1;
    }

    /** `categoryRename`: fails when the category does not exist. */
    method CategoryRename(categoryId: int, name: string) returns (ok: bool)
      modifies this
      ensures ok <==> categoryId in old(categories)
      ensures ok ==> categories == old(categories)[categoryId := old(categories)[categoryId].(name := name)]
      ensures !ok ==> categories == old(categories)
      ensures nextId == old(nextId)
    {
      ok := categoryId in categories;
      if ok {
        categories := categories[categoryId := categories[categoryId].(name := name)];
      }
    }

    /** `categoryDelete`: removes the category when it exists; the answer is always ok. */
    method CategoryDelete(categoryId: int)
      modifies this
      ensures categories == old(categories) - {categoryId}
      ensures nextId == old(nextId)
    {
      if categoryId in categories {
        categories := categories - {categoryId};
      }
    }

    /** `rebuildOrder`: renumbers the children of `parentId` around `referenceId`. An append
        gives the item the child count; above and below are handled alike. Fails (a call on
        `null` in the source) when the parent, or for an append the item, is not stored. */
    method RebuildOrder(parentId: int, itemId: int, position: string, referenceId: int) returns (ok: bool)
      modifies this
      ensures ok <==> parentId in old(categories) && (position == "append" ==> itemId in old(categories))
      ensures nextId == old(nextId)
      ensures !ok ==> categories == old(categories)
      ensures ok && position == "append" ==>
        categories == old(categories)[itemId := old(categories)[itemId].(position := |ChildrenIn(old(categories), Some(parentId))|)]
      ensures ok && position != "append" ==>
        categories == Repositioned(old(categories), Resequence(ChildrenIn(old(categories), Some(parentId)), itemId, referenceId))
    {
      if parentId !in categories {
        ok := false;
      } else if position == "append" {
        if itemId !in categories {
          ok := false;
        } else {
          ghost var before := categories;
          var count := |ChildrenIn(categories, Some(parentId))|;
          categories := categories[itemId := categories[itemId].(position := count)];
          assert categories == before[itemId := before[itemId].(position := |ChildrenIn(before, Some(parentId))|)];
          ok := true;
        }
      } else {
        ghost var before := categories;
        var positions := Renumber(ChildrenIn(categories, Some(parentId)), itemId, referenceId);
        categories := Repositioned(categories, positions);
        assert categories == Repositioned(before, Resequence(ChildrenIn(before, Some(parentId)), itemId, referenceId));
        ok := true;
      }
    }

    /** `getNewPositionIndex`: fails for an unknown category. For an append the position is
        the child count, one less when the item is already a child; otherwise it is the
        reference's index among the children sorted by left value, 1 for the first, and 0
        with no sibling when the reference is not among them. */
    method GetNewPositionIndex(moveItemId: int, positionType: string, referenceId: int) returns (r: Result<PositionIndex>)
      ensures r.Err? <==> moveItemId !in categories
      ensures r.Ok? ==> r.value.parent == NewParent(categories, moveItemId, referenceId)
      ensures r.Ok? && positionType == "append" ==>
        var cs := ChildrenIn(categories, r.value.parent);
        r.value.position == |cs| - (if moveItemId in cs then 1 else 0) && r.value.previous == None
      ensures r.Ok? && positionType != "append" ==>
        var cs := ByLeft(categories, ChildrenIn(categories, r.value.parent));
        (referenceId !in cs ==> r.value.position == 0 && r.value.previous == None)
        && (referenceId in cs ==>
              r.value.previous == Some(referenceId)
              && (cs[0] == referenceId ==> r.value.position == 1)
              && (cs[0] != referenceId ==> 0 < r.value.position < |cs| && cs[r.value.position] == referenceId))
    {
      if moveItemId !in categories {
        return Err("Could not find the category to be moved");
      }
      var parent := NewParent(categories, moveItemId, referenceId);
      var children := ChildrenIn(categories, parent);
      if positionType == "append" {
        var position := CountWithout(children, moveItemId);
        return Ok(PositionIndex(position, parent, None));
      }
      var sorted := ByLeft(categories, children);
      var found := FindLast(sorted, referenceId);
      var position := 0;
      var previous: Option<int> := None;
      if found == Some(0) {
        position := 1;
        previous := Some(sorted[0]);
      } else if found.Some? {
        position := found.value;
        previous := Some(referenceId);
      }
      r := Ok(PositionIndex(position, parent, previous));
    }
  }
}
