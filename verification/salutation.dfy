/** Translation of machine salutation keys into the human-readable form the hub shows. */
module Salutation {
  import opened Wrappers

  /** The salutation table in declaration order: key and readable value. */
  const SalutationMap: seq<(string, string)> := [("mr", "Herr"), ("mrs", "Frau"), ("ms", "Frau"), ("company", "Firma")]

  predicate IsKey(key: string) {
    exists k :: 0 <= k < |SalutationMap| && SalutationMap[k].0 == key
  }

  predicate IsReadable(value: string) {
    exists k :: 0 <= k < |SalutationMap| && SalutationMap[k].1 == value
  }

  /** The value stored under `key`; the table's keys are distinct. */
  function Lookup(key: string): (r: string)
    requires IsKey(key)
    ensures exists k :: 0 <= k < |SalutationMap| && SalutationMap[k] == (key, r)
  {
    if key == "mr" then "Herr" else if key == "mrs" then "Frau" else if key == "ms" then "Frau" else "Firma"
  }

  /** `getSalutation` with a key: a known key is translated, a value that is already readable is
      returned as it is, anything else falls back to the first value of the table. */
  function GetSalutation(key: string): (r: string)
    ensures IsReadable(r)
    ensures IsKey(key) ==> r == Lookup(key)
    ensures !IsKey(key) && IsReadable(key) ==> r == key
    ensures !IsKey(key) && !IsReadable(key) ==> r == "Herr"
  {
    if IsKey(key) then Lookup(key)
    else if IsReadable(key) then key
    else SalutationMap[0].1
  }

  /** What `getSalutation` answers: one readable value, or the whole table when no key is given. */
  datatype SalutationAnswer = One(value: string) | Whole(table: seq<(string, string)>)

  /** `getSalutation($key = null)`: without a key the whole table, with one its translation. */
  function GetSalutationCall(key: Option<string>): (r: SalutationAnswer)
    ensures r.Whole? <==> key.None?
    ensures r.Whole? ==> r.table == SalutationMap
    ensures r.One? ==> IsReadable(r.value) && r.value == GetSalutation(key.value)
  {
    match key
    case None => Whole(SalutationMap)
    case Some(k) => One(GetSalutation(k))
  }

  /** No readable value is itself a key, so translating twice changes nothing. */
  lemma GetSalutationIdempotent(key: string)
    ensures GetSalutation(GetSalutation(key)) == GetSalutation(key)
  {
    var r := GetSalutation(key);
    assert !IsKey(r);
  }
}
