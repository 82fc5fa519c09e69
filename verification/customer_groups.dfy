/**
 * The customer group table as the connector's utility class caches it
 * (`getCustomerGroups`) and the lookups built on it.
 */
module CustomerGroups {
  import opened Wrappers

  /** A row of `s_core_customergroups`; `taxInput` 0 means prices are entered net. */
  datatype CustomerGroup = CustomerGroup(id: int, groupKey: string, taxInput: int)

  /** The table keyed by id, as the cache holds it. */
  ghost predicate DistinctIds(groups: seq<CustomerGroup>) {
    forall i, j :: 0 <= i < j < |groups| ==> groups[i].id != groups[j].id
  }

  /** `findCustomerGroupById`: the group with that id, or nothing. */
  function FindById(groups: seq<CustomerGroup>, id: int): (r: Option<CustomerGroup>)
    ensures r.None? <==> forall k :: 0 <= k < |groups| ==> groups[k].id != id
    ensures r.Some? ==> r.value in groups && r.value.id == id
  {
    if groups == [] then None
    else if groups[0].id == id then Some(groups[0])
    else FindById(groups[1..], id)
  }

  /** With distinct ids the group found is the only one carrying that id. */
  lemma FindByIdUnique(groups: seq<CustomerGroup>, k: nat)
    requires DistinctIds(groups) && k < |groups|
    ensures FindById(groups, groups[k].id) == Some(groups[k])
  {
    if k > 0 {
      assert groups[0].id != groups[k].id;
      assert DistinctIds(groups[1..]) by {
        forall i, j | 0 <= i < j < |groups| - 1 ensures groups[1..][i].id != groups[1..][j].id {
          assert groups[1..][i] == groups[i + 1] && groups[1..][j] == groups[j + 1];
        }
      }
      FindByIdUnique(groups[1..], k - 1);
    }
  }

  /** `findCustomerGroupTaxById`: 1 when the group exists and takes net prices, else 0. */
  function TaxInputNet(groups: seq<CustomerGroup>, id: int): (r: int)
    ensures r == 0 || r == 1
    ensures r == 1 <==> exists k :: 0 <= k < |groups| && groups[k].id == id && FindById(groups, id) == Some(groups[k]) && groups[k].taxInput == 0
  {
    match FindById(groups, id)
    case None => 0
    case Some(g) =>
      var k :| 0 <= k < |groups| && groups[k] == g;
      if g.taxInput == 0 then 1 else 0
  }

  /** The ids of all groups, in table order. */
  function Ids(groups: seq<CustomerGroup>): (r: seq<int>)
    ensures |r| == |groups| && forall k :: 0 <= k < |groups| ==> r[k] == groups[k].id
  {
    if groups == [] then [] else [groups[0].id] + Ids(groups[1..])
  }
}
