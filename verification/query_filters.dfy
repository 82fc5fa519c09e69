/** Translation of a hub list request's filters into the parts of a database query: where
    clauses, ordering, offset and limit, with hub field names mapped to shop columns. */
module QueryFilters {
  import opened Wrappers
  import opened Strings

  /** One filter of a list request: the hub field, the filter type and its value. */
  datatype Filter = Filter(field: string, dataType: string, value: string)

  /** A request sends either a bare list of filters or a wrapper that also carries paging and
      sorting; in the wrapper the filter list may be missing. */
  datatype Filters =
    | Bare(filters: seq<Filter>)
    | Wrapped(filter: Option<seq<Filter>>, sortColName: string, sortOrder: string, start: int, limit: int)

  /** The query parts handed back to the caller. */
  datatype Query = Query(limit: int, offset: int, order: seq<string>, where: seq<string>)

  /** `explode`: the pieces of `s` between occurrences of `sep`. */
  function Explode(s: string, sep: char): (parts: seq<string>)
    ensures |parts| >= 1
    ensures forall k :: 0 <= k < |parts| ==> sep !in parts[k]
    decreases |s|
  {
    match IndexOf(s, sep)
    case None => [s]
    case Some(i) => [s[..i]] + Explode(s[i + 1..], sep)
  }

  /** `implode`: the pieces joined with `sep` between neighbours. */
  function Implode(parts: seq<string>, sep: char): string
    requires |parts| >= 1
  {
    if |parts| == 1 then parts[0] else parts[0] + [sep] + Implode(parts[1..], sep)
  }

  /** Splitting and joining again gives back the value. */
  lemma {:induction false} ImplodeExplode(s: string, sep: char)
    ensures Implode(Explode(s, sep), sep) == s
    decreases |s|
  {
    match IndexOf(s, sep)
    case None =>
    case Some(i) =>
      var rest := Explode(s[i + 1..], sep);
      assert Explode(s, sep) == [s[..i]] + rest;
      assert ([s[..i]] + rest)[1..] == rest;
      ImplodeExplode(s[i + 1..], sep);
      assert s == s[..i] + [sep] + s[i + 1..];
  }

  /** The first separator of `s` ends its separator-free head `p`. */
  lemma FirstSeparator(s: string, p: string, sep: char)
    requires |p| < |s| && s[..|p|] == p && s[|p|] == sep && sep !in p
    ensures IndexOf(s, sep) == Some(|p|)
  {
    assert s[|p|] in s;
  }

  /** Joining pieces that hold no separator and splitting again gives back the pieces. */
  lemma {:induction false} ExplodeImplode(parts: seq<string>, sep: char)
    requires |parts| >= 1
    requires forall k :: 0 <= k < |parts| ==> sep !in parts[k]
    ensures Explode(Implode(parts, sep), sep) == parts
  {
    if |parts| > 1 {
      var s := Implode(parts, sep);
      var head := parts[0];
      var rest := Implode(parts[1..], sep);
      assert s == head + [sep] + rest;
      assert s[..|head|] == head;
      assert s[|head|] == sep;
      assert s[|head| + 1..] == rest;
      FirstSeparator(s, head, sep);
      ExplodeImplode(parts[1..], sep);
      assert Explode(s, sep) == [head] + Explode(rest, sep);
      assert [head] + parts[1..] == parts;
    }
  }

  /** The where clause of one filter: a `list` filter becomes an `IN` over its comma separated
      values, quoted by the database layer; every other filter adds nothing. */
  function FilterClause(f: Filter, columnMap: map<string, string>, quote: seq<string> -> string): (r: seq<string>)
    requires f.field in columnMap
    ensures f.dataType == "list" ==> r == [columnMap[f.field] + " IN (" + quote(Explode(f.value, ',')) + ")"]
    ensures f.dataType != "list" ==> r == []
  {
    if f.dataType == "list" then [columnMap[f.field] + " IN (" + quote(Explode(f.value, ',')) + ")"] else []
  }

  predicate AllKnown(fs: seq<Filter>, columnMap: map<string, string>) {
    forall k :: 0 <= k < |fs| ==> fs[k].field in columnMap
  }

  /** The clauses the filters add, in filter order. */
  function Clauses(fs: seq<Filter>, columnMap: map<string, string>, quote: seq<string> -> string): (r: seq<string>)
    requires AllKnown(fs, columnMap)
    ensures |r| <= |fs|
  {
    if fs == [] then []
    else
      var init := fs[..|fs| - 1];
      Clauses(init, columnMap, quote) + FilterClause(fs[|fs| - 1], columnMap, quote)
  }

  /** The ordering: always "1", then the mapped sort column (with its direction when one is sent)
      if a known column was asked for. */
  function Order(sortColName: string, sortOrder: string, columnMap: map<string, string>): (r: seq<string>)
    ensures 1 <= |r| <= 2 && r[0] == "1"
    ensures |r| == 2 <==> !PhpEmpty(sortColName) && sortColName in columnMap
    ensures |r| == 2 && PhpEmpty(sortOrder) ==> r[1] == columnMap[sortColName]
    ensures |r| == 2 && !PhpEmpty(sortOrder) ==> r[1] == columnMap[sortColName] + " " + sortOrder
  {
    if !PhpEmpty(sortColName) && sortColName in columnMap then
      ["1", if !PhpEmpty(sortOrder) then columnMap[sortColName] + " " + sortOrder else columnMap[sortColName]]
    else ["1"]
  }

  function WhereFilters(filters: Filters): seq<Filter> {
    match filters
    case Bare(fs) => fs
    case Wrapped(f, _, _, _, _) => if f.Some? then f.value else []
  }

  /** `createQueryFromFilters` as a value. A field without a column is an error; otherwise where
      and order always start from "1", and paging and sorting are only taken from a wrapped request. */
  function CreateQuery(filters: Filters, columnMap: map<string, string>, quote: seq<string> -> string): (r: Result<Query>)
    ensures r.Err? <==> exists k :: 0 <= k < |WhereFilters(filters)| && WhereFilters(filters)[k].field !in columnMap
    ensures r.Ok? ==> |r.value.where| >= 1 && r.value.where[0] == "1" && |r.value.order| >= 1 && r.value.order[0] == "1"
    ensures r.Ok? && filters.Bare? ==> r.value.limit == 0 && r.value.offset == 0 && r.value.order == ["1"]
    ensures r.Ok? && filters.Wrapped? ==> r.value.limit == filters.limit && r.value.offset == filters.start
  {
    var fs := WhereFilters(filters);
    if !AllKnown(fs, columnMap) then
      var k := FirstUnknown(fs, columnMap);
      Err("Unknown filter field found while building query: " + fs[k].field)
    else
      var where := ["1"] + Clauses(fs, columnMap, quote);
      match filters
      case Bare(_) => Ok(Query(0, 0, ["1"], where))
      case Wrapped(_, col, dir, start, limit) =>
        Ok(Query(limit, start, Order(col, dir, columnMap), where))
  }

  /** The index of the first filter whose field has no column. */
  function FirstUnknown(fs: seq<Filter>, columnMap: map<string, string>): (k: nat)
    requires !AllKnown(fs, columnMap)
    ensures k < |fs| && fs[k].field !in columnMap && AllKnown(fs[..k], columnMap)
  {
    if fs[0].field !in columnMap then 0
    else
      assert !AllKnown(fs[1..], columnMap) by {
        var j :| 0 <= j < |fs| && fs[j].field !in columnMap;
        assert fs[1..][j - 1] == fs[j];
      }
      var k := FirstUnknown(fs[1..], columnMap);
      assert fs[..k + 1] == [fs[0]] + fs[1..][..k];
      k + 1
  }

  /** Every `list` filter contributes exactly one `IN` clause, in filter order, and no other
      filter contributes one. */
  lemma {:induction false} ClausesOfLists(fs: seq<Filter>, columnMap: map<string, string>, quote: seq<string> -> string)
    requires AllKnown(fs, columnMap)
    ensures |Clauses(fs, columnMap, quote)| == |ListFilters(fs)|
    ensures forall k :: 0 <= k < |ListFilters(fs)| ==>
      Clauses(fs, columnMap, quote)[k] == FilterClause(ListFilters(fs)[k], columnMap, quote)[0]
  {
    if fs != [] {
      var init := fs[..|fs| - 1];
      assert AllKnown(init, columnMap);
      assert ListFilters(fs) == ListFilters(init) + (if fs[|fs| - 1].dataType == "list" then [fs[|fs| - 1]] else []);
      ClausesOfLists(init, columnMap, quote);
    }
  }

  /** The `list` filters, in order. */
  function ListFilters(fs: seq<Filter>): (r: seq<Filter>)
    ensures forall k :: 0 <= k < |r| ==> r[k].dataType == "list" && r[k] in fs
  {
    if fs == [] then []
    else ListFilters(fs[..|fs| - 1]) + (if fs[|fs| - 1].dataType == "list" then [fs[|fs| - 1]] else [])
  }

  /** The filter loop: appends the clause of each filter after the leading "1", stopping at
      the first unknown field. */
  method WhereClauses(fs: seq<Filter>, columnMap: map<string, string>, quote: seq<string> -> string)
    returns (r: Result<seq<string>>)
    ensures AllKnown(fs, columnMap) ==> r == Ok(["1"] + Clauses(fs, columnMap, quote))
    ensures !AllKnown(fs, columnMap) ==>
      r == Err("Unknown filter field found while building query: " + fs[FirstUnknown(fs, columnMap)].field)
  {
    var where := ["1"];
    var i := 0;
    while i < |fs|
      invariant 0 <= i <= |fs|
      invariant AllKnown(fs[..i], columnMap)
      invariant where == ["1"] + Clauses(fs[..i], columnMap, quote)
    {
      var f := fs[i];
      assert fs[..i + 1][..i] == fs[..i];
      if f.field !in columnMap {
        FirstUnknownAt(fs, columnMap, i);
        return Err("Unknown filter field found while building query: " + f.field);
      }
      where := where + FilterClause(f, columnMap, quote);
      i := i + 1;
    }
    assert fs[..i] == fs;
    r := Ok(where);
  }

  /** `createQueryFromFilters`: paging and sorting from a wrapped request, then the filter loop. */
  method CreateQueryFromFilters(filters: Filters, columnMap: map<string, string>, quote: seq<string> -> string)
    returns (r: Result<Query>)
    ensures r == CreateQuery(filters, columnMap, quote)
  {
    var query := Query(0, 0, ["1"], ["1"]);
    var fs: seq<Filter>;
    match filters {
      case Bare(list) =>
        fs := list;
      case Wrapped(f, col, dir, start, limit) =>
        fs := if f.Some? then f.value else [];
        query := query.(order := Order(col, dir, columnMap));
        if start != 0 {
          query := query.(offset := start);
        }
        if limit != 0 {
          query := query.(limit := limit);
        }
    }
    var where := WhereClauses(fs, columnMap, quote);
    if where.Err? {
      return Err(where.error);
    }
    r := Ok(query.(where := where.value));
  }

  /** The first unknown field is found by the first index whose field is unknown. */
  lemma FirstUnknownAt(fs: seq<Filter>, columnMap: map<string, string>, i: nat)
    requires i < |fs| && fs[i].field !in columnMap && AllKnown(fs[..i], columnMap)
    ensures !AllKnown(fs, columnMap) && FirstUnknown(fs, columnMap) == i
  {
    var k := FirstUnknown(fs, columnMap);
  }
}
