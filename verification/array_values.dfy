/** The two list helpers the variant matching is built on: equality of value lists
    regardless of order, and mapping every value of a list through an id map. */
module ArrayValues {
  import opened Wrappers
  import opened Sorting

  /** `arrayValuesEqual`: both lists sorted numerically, then compared position by position. */
  function ArrayValuesEqual(a: seq<int>, b: seq<int>): bool
  {
    SortBy(a, Identity) == SortBy(b, Identity)
  }

  /** Comparing sorted copies is exactly multiset equality: the order of the values never matters,
      their multiplicities do. */
  lemma ArrayValuesEqualIsMultisetEquality(a: seq<int>, b: seq<int>)
    ensures ArrayValuesEqual(a, b) <==> multiset(a) == multiset(b)
  {
    var sa, sb := SortBy(a, Identity), SortBy(b, Identity);
    if multiset(a) == multiset(b) {
      AscendingByIdentity(sa);
      AscendingByIdentity(sb);
      SortedUnique(sa, sb);
    }
  }

  /** The list with every value replaced by its image, when every value has one. */
  function ReplaceAll(values: seq<int>, m: map<int, int>): (r: Option<seq<int>>)
    ensures r.None? <==> exists k :: 0 <= k < |values| && values[k] !in m
    ensures r.Some? ==> |r.value| == |values| && forall k :: 0 <= k < |values| ==> values[k] in m && r.value[k] == m[values[k]]
  {
    if forall k :: 0 <= k < |values| ==> values[k] in m
    then Some(seq(|values|, k requires 0 <= k < |values| => m[values[k]]))
    else None
  }

  /** `arrayValuesReplace`: rewrites the list in place, giving up at the first value without an image. */
  method ArrayValuesReplace(values: seq<int>, m: map<int, int>) returns (r: Option<seq<int>>)
    ensures r == ReplaceAll(values, m)
  {
    var out := values;
    var i := 0;
    while i < |out|
      invariant 0 <= i <= |out| == |values|
      invariant forall k :: 0 <= k < i ==> values[k] in m && out[k] == m[values[k]]
      invariant out[i..] == values[i..]
    {
      if out[i] !in m {
        assert values[i] !in m;
        return None;
      }
      out := out[i := m[out[i]]];
      i := i + 1;
    }
    assert forall k :: 0 <= k < |values| ==> values[k] in m;
    assert out == seq(|values|, k requires 0 <= k < |values| => m[values[k]]);
    r := Some(out);
  }
}
