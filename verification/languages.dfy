/** The shop's languages as the connector reports them: one entry per language id, filled once
    from the shops-and-locales query and then served from a cache. */
module Languages {
  import opened Wrappers
  import opened Strings

  /** One row of the shops-and-locales query, in the query's order (default shop first). */
  datatype LanguageRow = LanguageRow(languageId: int, locale: string, languageName: string, isDefault: bool)

  /** The fields kept for one language; `languageCode` is derived from the locale. */
  datatype LanguageInfo = LanguageInfo(locale: string, languageName: string, isDefault: bool, languageCode: string)

  /** An entry of the ordered language table. The key is the language id; `None` stands for the
      empty key PHP creates when the default flag is forced onto an empty table. */
  datatype Entry = Entry(key: Option<int>, info: LanguageInfo)

  /** `array_shift(explode('_', locale))`: the part of the locale before the first underscore. */
  function LanguageCode(locale: string): (r: string)
    ensures '_' !in r
    ensures |r| <= |locale| && r == locale[..|r|]
    ensures |r| < |locale| ==> locale[|r|] == '_'
  {
    match IndexOf(locale, '_')
    case None => locale
    case Some(i) => locale[..i]
  }

  function InfoOf(row: LanguageRow): LanguageInfo {
    LanguageInfo(row.locale, row.languageName, row.isDefault, LanguageCode(row.locale))
  }

  /** The value stored under `key`, if any. */
  function Get(es: seq<Entry>, key: Option<int>): (r: Option<LanguageInfo>)
    ensures r.None? <==> forall i :: 0 <= i < |es| ==> es[i].key != key
    ensures r.Some? ==> exists i :: 0 <= i < |es| && es[i] == Entry(key, r.value)
  {
    if es == [] then None
    else if es[0].key == key then Some(es[0].info)
    else Get(es[1..], key)
  }

  ghost predicate DistinctKeys(es: seq<Entry>) {
    forall i, j :: 0 <= i < j < |es| ==> es[i].key != es[j].key
  }

  /** PHP array assignment: an existing key keeps its position and takes the new value,
      a new key is appended. */
  function Put(es: seq<Entry>, key: Option<int>, v: LanguageInfo): (r: seq<Entry>)
    requires DistinctKeys(es)
    ensures DistinctKeys(r)
    ensures Get(r, key) == Some(v)
    ensures forall k :: k != key ==> Get(r, k) == Get(es, k)
    ensures |es| <= |r| && forall i :: 0 <= i < |es| ==> r[i].key == es[i].key
  {
    if i :| 0 <= i < |es| && es[i].key == key then
      var r := es[i := Entry(key, v)];
      assert forall k :: k != key ==> Get(r, k) == Get(es, k) by {
        forall k | k != key ensures Get(r, k) == Get(es, k) {
          GetUpdated(es, i, Entry(key, v), k);
        }
      }
      FirstKeyGet(r, i);
      r
    else
      var r := es + [Entry(key, v)];
      forall k | k != key ensures Get(r, k) == Get(es, k) {
        GetAppended(es, Entry(key, v), k);
      }
      FirstKeyGet(r, |es|);
      r
  }

  lemma {:induction false} GetUpdated(es: seq<Entry>, i: nat, e: Entry, k: Option<int>)
    requires i < |es| && e.key == es[i].key && k != e.key
    ensures Get(es[i := e], k) == Get(es, k)
  {
    if i > 0 {
      assert es[i := e][1..] == es[1..][i - 1 := e];
      GetUpdated(es[1..], i - 1, e, k);
    }
  }

  lemma {:induction false} GetAppended(es: seq<Entry>, e: Entry, k: Option<int>)
    requires k != e.key
    ensures Get(es + [e], k) == Get(es, k)
  {
    if es != [] {
      assert (es + [e])[1..] == es[1..] + [e];
      GetAppended(es[1..], e, k);
    }
  }

  lemma {:induction false} FirstKeyGet(es: seq<Entry>, i: nat)
    requires DistinctKeys(es) && i < |es|
    ensures Get(es, es[i].key) == Some(es[i].info)
  {
    if i > 0 {
      assert DistinctKeys(es[1..]);
      FirstKeyGet(es[1..], i - 1);
    }
  }

  /** The table the query loop builds, row by row. */
  function BuildEntries(rows: seq<LanguageRow>): (es: seq<Entry>)
    ensures DistinctKeys(es)
    ensures |es| <= |rows|
    ensures es == [] <==> rows == []
    ensures rows != [] ==> es[0].key == Some(rows[0].languageId)
  {
    if rows == [] then []
    else
      var init := rows[..|rows| - 1];
      var row := rows[|rows| - 1];
      Put(BuildEntries(init), Some(row.languageId), InfoOf(row))
  }

  /** Every queried language has an entry, and the entry holds the last row with that id:
      later rows overwrite earlier ones. */
  lemma {:induction false} BuildEntriesLastWins(rows: seq<LanguageRow>, j: nat)
    requires j < |rows|
    requires forall k :: j < k < |rows| ==> rows[k].languageId != rows[j].languageId
    ensures Get(BuildEntries(rows), Some(rows[j].languageId)) == Some(InfoOf(rows[j]))
  {
    var init := rows[..|rows| - 1];
    if j < |rows| - 1 {
      assert init[j] == rows[j];
      BuildEntriesLastWins(init, j);
    }
  }

  /** No entry without a queried row, apart from none at all. */
  lemma {:induction false} BuildEntriesKeys(rows: seq<LanguageRow>, key: Option<int>)
    requires Get(BuildEntries(rows), key).Some?
    ensures exists j :: 0 <= j < |rows| && key == Some(rows[j].languageId)
  {
    var init := rows[..|rows| - 1];
    var row := rows[|rows| - 1];
    if key != Some(row.languageId) {
      BuildEntriesKeys(init, key);
      var j :| 0 <= j < |init| && key == Some(init[j].languageId);
      assert rows[j] == init[j];
    }
  }

  /** After the loop the first entry is always flagged as default; on an empty table that
      creates an entry under the empty key holding nothing but the flag. */
  function Languages(rows: seq<LanguageRow>): (es: seq<Entry>)
    ensures |es| >= 1 && es[0].info.isDefault
    ensures rows == [] ==> es == [Entry(None, LanguageInfo("", "", true, ""))]
    ensures rows != [] ==> es[0].key == Some(rows[0].languageId)
  {
    var built := BuildEntries(rows);
    if built == [] then [Entry(None, LanguageInfo("", "", true, ""))]
    else built[0 := built[0].(info := built[0].info.(isDefault := true))]
  }

  /** Only the first entry's default flag is touched; every other entry is the built one. */
  lemma LanguagesKeepRest(rows: seq<LanguageRow>)
    requires rows != []
    ensures |Languages(rows)| == |BuildEntries(rows)|
    ensures forall i :: 0 < i < |Languages(rows)| ==> Languages(rows)[i] == BuildEntries(rows)[i]
    ensures Languages(rows)[0].info == BuildEntries(rows)[0].info.(isDefault := true)
  {
  }

  /** The lazily filled language cache of the utility object. */
  class LanguageCache {
    /** The rows the shops-and-locales query returns. */
    const rows: seq<LanguageRow>
    var languageCache: Option<seq<Entry>>

    ghost predicate Valid()
      reads this
    {
      languageCache.None? || languageCache == Some(Languages(rows))
    }

    constructor(rows: seq<LanguageRow>)
      ensures this.rows == rows && languageCache == None && Valid()
    {
      this.rows := rows;
      languageCache := None;
    }

    /** `getLanguages`: fills the cache on first use and returns it. */
    method GetLanguages() returns (es: seq<Entry>)
      requires Valid()
      modifies this
      ensures Valid() && languageCache == Some(es)
      ensures es == Languages(rows)
    {
      if languageCache.None? {
        var built: seq<Entry> := [];
        var k := 0;
        while k < |rows|
          invariant 0 <= k <= |rows|
          invariant built == BuildEntries(rows[..k])
        {
          assert rows[..k + 1][..k] == rows[..k];
          built := Put(built, Some(rows[k].languageId), InfoOf(rows[k]));
          k := k + 1;
        }
        assert rows[..k] == rows;
        if built == [] {
          built := [Entry(None, LanguageInfo("", "", true, ""))];
        } else {
          built := built[0 := built[0].(info := built[0].info.(isDefault := true))];
        }
        languageCache := Some(built);
      }
      es := languageCache.value;
    }

    /** `getDefaultLanguage`: the key of the first entry flagged as default. */
    method GetDefaultLanguage() returns (key: Option<Option<int>>)
      requires Valid()
      modifies this
      ensures Valid() && languageCache == Some(Languages(rows))
      ensures key == Some(Languages(rows)[0].key)
    {
      var es := GetLanguages();
      key := None;
      var i := 0;
      while i < |es| && key.None?
        invariant 0 <= i <= |es|
        invariant key.None? ==> forall k :: 0 <= k < i ==> !es[k].info.isDefault
        invariant key.Some? ==> key == Some(es[0].key)
      {
        if es[i].info.isDefault {
          key := Some(es[i].key);
        }
        i := i + 1;
      }
    }
  }

  /** The default language is the first one the query returns, whatever the flags say. */
  lemma DefaultIsFirstRow(rows: seq<LanguageRow>)
    requires rows != []
    ensures Languages(rows)[0].key == Some(rows[0].languageId)
    ensures Get(Languages(rows), Some(rows[0].languageId)).Some?
  {
    var es := Languages(rows);
    assert es[0].key == Some(rows[0].languageId);
  }
}
