/** Master numbers of variant articles. The shop has no main article for a variant article, so
    the connector derives one ordernumber per article from its variants' ordernumbers, stores it
    in the article attributes and resolves hub ordernumbers back to articles through it. */
module MasterNumber {
  import opened Wrappers
  import opened Strings

  /** The suffix appended to a candidate until it is free, and the fallback base's tail. */
  const Suffix: string := "-hauptartikel"

  // ---------------------------------------------------------------------------------------
  // Longest common prefix

  ghost predicate CommonPrefix(p: string, strs: seq<string>) {
    forall k :: 0 <= k < |strs| ==> p <= strs[k]
  }

  /** The longest common prefix of two strings. */
  function Prefix2(a: string, b: string): (r: string)
    ensures r <= a && r <= b
    ensures |r| == |a| || |r| == |b| || a[|r|] != b[|r|]
  {
    if a == [] || b == [] || a[0] != b[0] then []
    else [a[0]] + Prefix2(a[1..], b[1..])
  }

  /** A common prefix of two strings is a prefix of their longest common prefix. */
  lemma {:induction false} Prefix2Longest(p: string, a: string, b: string)
    requires p <= a && p <= b
    ensures p <= Prefix2(a, b)
  {
    if p != [] {
      assert a[0] == p[0] == b[0];
      assert p[1..] <= a[1..] && p[1..] <= b[1..];
      Prefix2Longest(p[1..], a[1..], b[1..]);
    }
  }

  /** The longest string that is a prefix of every input; "" for no input. */
  function Lcp(strs: seq<string>): (r: string)
    ensures CommonPrefix(r, strs)
  {
    if strs == [] then ""
    else if |strs| == 1 then strs[0]
    else
      var init := strs[..|strs| - 1];
      var r := Prefix2(Lcp(init), strs[|strs| - 1]);
      assert forall k :: 0 <= k < |init| ==> r <= init[k];
      r
  }

  /** Every common prefix is a prefix of `Lcp`, so nothing longer is common to all inputs. */
  lemma {:induction false} LcpLongest(p: string, strs: seq<string>)
    requires strs != [] && CommonPrefix(p, strs)
    ensures p <= Lcp(strs)
  {
    if |strs| > 1 {
      var init := strs[..|strs| - 1];
      assert CommonPrefix(p, init) by {
        forall k | 0 <= k < |init| ensures p <= init[k] { assert init[k] == strs[k]; }
      }
      LcpLongest(p, init);
      Prefix2Longest(p, Lcp(init), strs[|strs| - 1]);
    }
  }

  /** Two prefixes of one string with the same length are the same string. */
  lemma PrefixesEqual(p: string, q: string, s: string)
    requires p <= s && q <= s && |p| == |q|
    ensures p == q
  {
  }

  /** The character at `i`, or nothing past the end (PHP's string offset yields "" there). */
  function CharAt(s: string, i: nat): (r: Option<char>)
    ensures r.Some? <==> i < |s|
  {
    if i < |s| then Some(s[i]) else None
  }

  /** `_findStringCongruence`: the bound loop, then the character loop that stops at the first
      position where some string disagrees with the first one. */
  method FindStringCongruence(strs: seq<string>) returns (out: string)
    ensures out == Lcp(strs)
  {
    var bound := 0;
    var k := 0;
    while k < |strs|
      invariant 0 <= k <= |strs|
      invariant bound == 0 || exists j :: 0 <= j < k && |strs[j]| == bound
      invariant (forall j :: 0 <= j < k ==> |strs[j]| > 0) ==> forall j :: 0 <= j < k ==> bound <= |strs[j]|
      invariant (forall j :: 0 <= j < k ==> |strs[j]| > 0) && k > 0 ==> bound > 0
    {
      bound := if bound == 0 then |strs[k]| else if bound < |strs[k]| then bound else |strs[k]|;
      k := k + 1;
    }
    out := "";
    var i := 0;
    var mismatch := false;
    while i < bound && !mismatch
      invariant 0 <= i <= bound
      invariant |out| == i && CommonPrefix(out, strs)
      invariant mismatch ==> exists j :: 0 <= j < |strs| && CharAt(strs[j], i) != CharAt(strs[0], i)
      decreases bound - i, (if mismatch then 0 else 1)
    {
      var c := CharAt(strs[0], i);
      var j := 0;
      while j < |strs| && !mismatch
        invariant 0 <= j <= |strs|
        invariant !mismatch ==> forall m :: 0 <= m < j ==> CharAt(strs[m], i) == c
        invariant mismatch ==> exists m :: 0 <= m < |strs| && CharAt(strs[m], i) != CharAt(strs[0], i)
      {
        if CharAt(strs[j], i) != c {
          mismatch := true;
        }
        j := j + 1;
      }
      if !mismatch {
        var w :| 0 <= w < |strs| && |strs[w]| == bound;
        assert CharAt(strs[w], i) == c;
        out := out + [c.value];
        i := i + 1;
        forall m | 0 <= m < |strs| ensures out <= strs[m] {
          assert out[..i - 1] <= strs[m];
        }
      }
    }
    if strs != [] {
      LcpLongest(out, strs);
      PrefixesEqual(out, Lcp(strs), strs[0]);
    }
  }

  // ---------------------------------------------------------------------------------------
  // Trailing punctuation

  predicate IsAlnum(c: char) {
    'a' <= c <= 'z' || 'A' <= c <= 'Z' || '0' <= c <= '9'
  }

  /** Removing the run `[^a-zA-Z0-9]+` at the end of the string. */
  function StripTrailing(s: string): (r: string)
    ensures r <= s
    ensures r == [] || IsAlnum(r[|r| - 1])
    ensures forall k :: |r| <= k < |s| ==> !IsAlnum(s[k])
  {
    if s == [] || IsAlnum(s[|s| - 1]) then s else StripTrailing(s[..|s| - 1])
  }

  // ---------------------------------------------------------------------------------------
  // Variant details and article attributes

  /** A row of the variant details: detail id, article id and the variant's ordernumber. */
  datatype DetailRow = DetailRow(detailId: int, articleId: int, ordernumber: string)

  /** A row of the article attributes; `masternumber` is `None` when the column is NULL. */
  datatype AttrRow = AttrRow(articleId: int, masternumber: Option<string>)

  /** The first detail row carrying `number`, as a single-row lookup returns it. */
  function FirstDetail(details: seq<DetailRow>, number: string): (r: Option<DetailRow>)
    ensures r.None? <==> forall k :: 0 <= k < |details| ==> details[k].ordernumber != number
    ensures r.Some? ==> r.value in details && r.value.ordernumber == number
  {
    if details == [] then None
    else if details[0].ordernumber == number then Some(details[0])
    else FirstDetail(details[1..], number)
  }

  /** The existence check of the suffix loop: a row is found and its id is not 0. */
  predicate Taken(details: seq<DetailRow>, number: string) {
    FirstDetail(details, number).Some? && FirstDetail(details, number).value.detailId != 0
  }

  function MaxLen(details: seq<DetailRow>): (m: nat)
    ensures forall k :: 0 <= k < |details| ==> |details[k].ordernumber| <= m
  {
    if details == [] then 0
    else
      var rest := MaxLen(details[1..]);
      assert forall k :: 1 <= k < |details| ==> details[k] == details[1..][k - 1];
      if |details[0].ordernumber| > rest then |details[0].ordernumber| else rest
  }

  /** `base` followed by `n` copies of the suffix. */
  function Suffixed(base: string, n: nat): (r: string)
    ensures |r| == |base| + n * |Suffix|
  {
    if n == 0 then base else Suffixed(base, n - 1) + Suffix
  }

  /** The number the suffix loop settles on: the first of `base`, `base` + suffix, ... that no
      variant carries. */
  function Free(details: seq<DetailRow>, base: string): (r: string)
    ensures !Taken(details, r)
    decreases MaxLen(details) + 1 - |base|
  {
    if Taken(details, base) then Free(details, base + Suffix) else base
  }

  /** The loop's number is the least free one in the suffix chain. */
  lemma {:induction false} FreeIsLeast(details: seq<DetailRow>, base: string) returns (n: nat)
    ensures Free(details, base) == Suffixed(base, n)
    ensures forall m :: 0 <= m < n ==> Taken(details, Suffixed(base, m))
    decreases MaxLen(details) + 1 - |base|
  {
    if Taken(details, base) {
      var n' := FreeIsLeast(details, base + Suffix);
      SuffixedShift(base, n');
      TakenShift(details, base, n');
      n := n' + 1;
    } else {
      n := 0;
    }
  }

  /** If `base` and the first `n` numbers of the chain from `base` + suffix are taken, so are the
      first `n + 1` numbers of the chain from `base`. */
  lemma TakenShift(details: seq<DetailRow>, base: string, n: nat)
    requires Taken(details, base)
    requires forall m :: 0 <= m < n ==> Taken(details, Suffixed(base + Suffix, m))
    ensures forall m :: 0 <= m < n + 1 ==> Taken(details, Suffixed(base, m))
  {
    forall m | 0 <= m < n + 1 ensures Taken(details, Suffixed(base, m)) {
      if m > 0 {
        var j := m - 1;
        assert j + 1 == m;
        SuffixedShift(base, j);
        assert Taken(details, Suffixed(base + Suffix, j));
      }
    }
  }

  /** The loop only appends the suffix, so the number keeps its base and its last character stays
      alphanumeric. */
  lemma {:induction false} FreeEnds(details: seq<DetailRow>, base: string)
    requires !PhpEmpty(base) && IsAlnum(base[|base| - 1])
    ensures var r := Free(details, base); base <= r && !PhpEmpty(r) && IsAlnum(r[|r| - 1])
    decreases MaxLen(details) + 1 - |base|
  {
    if Taken(details, base) {
      FreeEnds(details, base + Suffix);
    }
  }

  lemma {:induction false} SuffixedShift(base: string, n: nat)
    ensures Suffixed(base + Suffix, n) == Suffixed(base, n + 1)
  {
    if n > 0 { SuffixedShift(base, n - 1); }
  }

  /** The suffix loop: append the suffix while a variant carries the number. */
  method FindFreeNumber(details: seq<DetailRow>, base: string) returns (number: string)
    ensures number == Free(details, base)
  {
    number := base;
    while Taken(details, number)
      invariant Free(details, number) == Free(details, base)
      decreases MaxLen(details) + 1 - |number|
    {
      number := number + Suffix;
    }
  }

  /** The candidate before the suffix loop: the common prefix without trailing punctuation, or
      the first variant's number with the suffix when that is empty in PHP's sense. */
  function MasterBase(numbers: seq<string>): (r: string)
    requires numbers != []
    ensures !PhpEmpty(r)
    ensures IsAlnum(r[|r| - 1])
  {
    var stripped := StripTrailing(Lcp(numbers));
    if PhpEmpty(stripped) then numbers[0] + Suffix else stripped
  }

  /** The master number derived from an article's variant ordernumbers. */
  function Master(details: seq<DetailRow>, numbers: seq<string>): (r: string)
    requires numbers != []
    ensures !Taken(details, r)
    ensures !PhpEmpty(r) && IsAlnum(r[|r| - 1])
    ensures MasterBase(numbers) <= r
  {
    FreeEnds(details, MasterBase(numbers));
    Free(details, MasterBase(numbers))
  }

  /** The ordernumbers of one article's variants, in row order. */
  function NumbersOf(details: seq<DetailRow>, articleId: int): (r: seq<string>)
    ensures r == [] <==> forall k :: 0 <= k < |details| ==> details[k].articleId != articleId
  {
    if details == [] then []
    else
      var init := details[..|details| - 1];
      var d := details[|details| - 1];
      assert forall k :: 0 <= k < |init| ==> init[k] == details[k];
      NumbersOf(init, articleId) + (if d.articleId == articleId then [d.ordernumber] else [])
  }

  /** The master number read back for an article: the last attribute row of it with a value
      that is not empty in PHP's sense. */
  function Stored(attrs: seq<AttrRow>, articleId: int): (r: Option<string>)
    ensures r.Some? ==> !PhpEmpty(r.value)
    ensures r.Some? ==> exists k :: 0 <= k < |attrs| && attrs[k] == AttrRow(articleId, Some(r.value))
  {
    if attrs == [] then None
    else
      var init := attrs[..|attrs| - 1];
      var a := attrs[|attrs| - 1];
      if a.articleId == articleId && a.masternumber.Some? && !PhpEmpty(a.masternumber.value)
      then Some(a.masternumber.value)
      else
        var r := Stored(init, articleId);
        assert r.Some? ==> exists k :: 0 <= k < |init| && init[k] == AttrRow(articleId, Some(r.value));
        assert forall k :: 0 <= k < |init| ==> init[k] == attrs[k];
        r
  }

  predicate HasRow(attrs: seq<AttrRow>, articleId: int) {
    exists k :: 0 <= k < |attrs| && attrs[k].articleId == articleId
  }

  /** `setOrdernumberForVariantArticle`: an update of every attribute row of the article; an
      article without attribute rows is left without a stored number. */
  function SetMaster(attrs: seq<AttrRow>, articleId: int, number: string): (r: seq<AttrRow>)
    ensures |r| == |attrs|
    ensures forall k :: 0 <= k < |attrs| ==> r[k].articleId == attrs[k].articleId
    ensures forall k :: 0 <= k < |attrs| ==> r[k] == if attrs[k].articleId == articleId then AttrRow(articleId, Some(number)) else attrs[k]
  {
    seq(|attrs|, k requires 0 <= k < |attrs| => if attrs[k].articleId == articleId then AttrRow(articleId, Some(number)) else attrs[k])
  }

  /** Storing a number that is not empty makes it the article's stored number when the article has
      attribute rows, and leaves every other article's stored number as it was. */
  lemma {:induction false} SetMasterStored(attrs: seq<AttrRow>, articleId: int, number: string, other: int)
    requires !PhpEmpty(number)
    ensures Stored(SetMaster(attrs, articleId, number), articleId) == if HasRow(attrs, articleId) then Some(number) else None
    ensures other != articleId ==> Stored(SetMaster(attrs, articleId, number), other) == Stored(attrs, other)
  {
    if attrs != [] {
      var init := attrs[..|attrs| - 1];
      assert SetMaster(attrs, articleId, number)[..|attrs| - 1] == SetMaster(init, articleId, number);
      SetMasterStored(init, articleId, number, other);
      if !HasRow(init, articleId) && attrs[|attrs| - 1].articleId != articleId {
        assert !HasRow(attrs, articleId) by {
          forall k | 0 <= k < |attrs| ensures attrs[k].articleId != articleId {
            if k < |init| { assert init[k] == attrs[k]; }
          }
        }
      }
      if HasRow(init, articleId) {
        var k :| 0 <= k < |init| && init[k].articleId == articleId;
        assert attrs[k].articleId == articleId;
      }
    } else {
      assert !HasRow(attrs, articleId);
    }
  }

  // ---------------------------------------------------------------------------------------
  // Resolving an ordernumber to an article

  /** The first attribute row whose stored number is `number`. */
  function FirstMaster(attrs: seq<AttrRow>, number: string): (r: Option<AttrRow>)
    ensures r.None? <==> forall k :: 0 <= k < |attrs| ==> attrs[k].masternumber != Some(number)
    ensures r.Some? ==> r.value in attrs && r.value.masternumber == Some(number)
  {
    if attrs == [] then None
    else if attrs[0].masternumber == Some(number) then Some(attrs[0])
    else FirstMaster(attrs[1..], number)
  }

  /** `findArticleIdByOrdernumber`: the article of the variant with this number; failing that,
      the article whose stored master number it is; failing that, an error. An id 0 counts as
      not found. */
  function FindArticleId(details: seq<DetailRow>, attrs: seq<AttrRow>, number: string): (r: Result<int>)
    ensures r.Ok? ==> r.value != 0
    ensures r.Ok? ==> ((FirstDetail(details, number).Some? && FirstDetail(details, number).value.articleId == r.value)
                    || (FirstMaster(attrs, number).Some? && FirstMaster(attrs, number).value.articleId == r.value))
    ensures r.Ok? && FirstDetail(details, number).Some? && FirstDetail(details, number).value.articleId != 0 ==>
      r.value == FirstDetail(details, number).value.articleId
    ensures r.Err? <==> ((FirstDetail(details, number).None? || FirstDetail(details, number).value.articleId == 0)
                      && (FirstMaster(attrs, number).None? || FirstMaster(attrs, number).value.articleId == 0))
  {
    var direct := if FirstDetail(details, number).Some? then FirstDetail(details, number).value.articleId else 0;
    if direct != 0 then Ok(direct)
    else
      var master := if FirstMaster(attrs, number).Some? then FirstMaster(attrs, number).value.articleId else 0;
      if master != 0 then Ok(master)
      else Err("Could not find article with this ordernumber: " + number)
  }

  /** A stored master number resolves back to its article, provided no variant carries that
      number and no other article stores the same number. */
  lemma StoredResolves(details: seq<DetailRow>, attrs: seq<AttrRow>, articleId: int, number: string)
    requires articleId != 0
    requires forall k :: 0 <= k < |details| ==> details[k].ordernumber != number
    requires forall k :: 0 <= k < |attrs| && attrs[k].masternumber == Some(number) ==> attrs[k].articleId == articleId
    requires Stored(attrs, articleId) == Some(number)
    ensures FindArticleId(details, attrs, number) == Ok(articleId)
  {
    var k :| 0 <= k < |attrs| && attrs[k] == AttrRow(articleId, Some(number));
    assert FirstMaster(attrs, number).Some?;
  }

  // ---------------------------------------------------------------------------------------
  // The article store

  /** The rows of the variant details and of the article attributes; only the stored master
      numbers change. */
  class ArticleStore {
    const details: seq<DetailRow>
    var attributes: seq<AttrRow>

    constructor(details: seq<DetailRow>, attributes: seq<AttrRow>)
      ensures this.details == details && this.attributes == attributes
    {
      this.details := details;
      this.attributes := attributes;
    }

    /** `findOrdernumberForVariantArticle` for a list of article ids: ids 0 are dropped; an
        article with a stored number gets it back; every other article with variants gets its
        derived master number, which is stored when the article has attribute rows. */
    method FindOrdernumbers(ids: seq<int>) returns (articles: map<int, string>)
      modifies this
      ensures forall id :: id in articles ==> id != 0 && id in ids
      ensures forall id :: id in ids && id != 0 && Stored(old(attributes), id).Some? ==>
        id in articles && articles[id] == Stored(old(attributes), id).value
      ensures forall id :: id in ids && id != 0 && Stored(old(attributes), id).None? ==>
        (id in articles <==> NumbersOf(details, id) != [])
      ensures forall id :: id in articles && Stored(old(attributes), id).None? ==>
        NumbersOf(details, id) != [] && articles[id] == Master(details, NumbersOf(details, id))
      ensures forall id :: id in articles ==>
        Stored(attributes, id) == if HasRow(old(attributes), id) then Some(articles[id]) else None
      ensures forall id :: id !in articles ==> Stored(attributes, id) == Stored(old(attributes), id)
      ensures SameArticles(attributes, old(attributes))
    {
      var wanted := set id | id in ids && id != 0;
      var found := ReadStored(wanted);
      var todo := set id | id in wanted && id !in found && NumbersOf(details, id) != [];
      var derived := DeriveAll(todo);
      articles := found + derived;
      forall id | id in articles ensures id in wanted && (id in found || id in todo) {
        if id !in found { assert id in derived; }
      }
      forall id | id in found ensures id !in derived && articles[id] == found[id] {
        assert id !in todo;
      }
      forall id | id in derived ensures articles[id] == derived[id] {
      }
    }

    /** The second pass over the articles without a stored number. */
    method DeriveAll(todo0: set<int>) returns (derived: map<int, string>)
      requires forall id :: id in todo0 ==> NumbersOf(details, id) != []
      modifies this
      ensures forall id :: id in derived <==> id in todo0
      ensures forall id :: id in derived ==> derived[id] == Master(details, NumbersOf(details, id))
      ensures forall id :: id in todo0 ==> Stored(attributes, id) == if HasRow(old(attributes), id) then Some(derived[id]) else None
      ensures forall id :: id !in todo0 ==> Stored(attributes, id) == Stored(old(attributes), id)
      ensures SameArticles(attributes, old(attributes))
    {
      derived := map[];
      var todo := todo0;
      ghost var attrs0 := attributes;
      while todo != {}
        invariant todo <= todo0
        invariant forall id :: id in derived <==> id in todo0 && id !in todo
        invariant forall id :: id in derived ==> derived[id] == Master(details, NumbersOf(details, id))
        invariant SameArticles(attributes, attrs0)
        invariant forall id :: Stored(attributes, id) == StoredAfter(attrs0, derived, id)
        decreases |todo|
      {
        if forall x :: x !in todo { assert false; }
        var id :| id in todo;
        ghost var before := attributes;
        var number := DeriveAndStore(id);
        SameArticlesHasRow(before, attrs0, id);
        forall other ensures Stored(attributes, other) == StoredAfter(attrs0, derived[id := number], other) {
          if other != id {
            assert Stored(attributes, other) == Stored(before, other);
          }
        }
        derived := derived[id := number];
        todo := todo - {id};
      }
    }

    /** What the stored numbers are once the articles in `derived` have been written. */
    ghost function StoredAfter(attrs0: seq<AttrRow>, derived: map<int, string>, id: int): Option<string> {
      if id in derived then (if HasRow(attrs0, id) then Some(derived[id]) else None) else Stored(attrs0, id)
    }


    /** The first pass: the stored numbers of the wanted articles; the last usable row wins. */
    method ReadStored(wanted: set<int>) returns (articles: map<int, string>)
      ensures forall id :: id in articles <==> id in wanted && Stored(attributes, id).Some?
      ensures forall id :: id in articles ==> articles[id] == Stored(attributes, id).value
    {
      articles := map[];
      var k := 0;
      while k < |attributes|
        invariant 0 <= k <= |attributes|
        invariant forall id :: id in articles <==> id in wanted && Stored(attributes[..k], id).Some?
        invariant forall id :: id in articles ==> articles[id] == Stored(attributes[..k], id).value
      {
        var a := attributes[k];
        assert attributes[..k + 1][..k] == attributes[..k];
        if a.articleId in wanted && a.masternumber.Some? && !PhpEmpty(a.masternumber.value) {
          articles := articles[a.articleId := a.masternumber.value];
        }
        k := k + 1;
      }
      assert attributes[..k] == attributes;
    }

    /** One article of the second pass: derive the number from its variants, make it free and
        store it. */
    method DeriveAndStore(id: int) returns (number: string)
      requires NumbersOf(details, id) != []
      modifies this
      ensures number == Master(details, NumbersOf(details, id))
      ensures Stored(attributes, id) == if HasRow(old(attributes), id) then Some(number) else None
      ensures forall other :: other != id ==> Stored(attributes, other) == Stored(old(attributes), other)
      ensures SameArticles(attributes, old(attributes))
      ensures forall a :: HasRow(attributes, a) == HasRow(old(attributes), a)
    {
      var numbers := NumbersOfMethod(id);
      var congruence := FindStringCongruence(numbers);
      number := StripTrailing(congruence);
      if PhpEmpty(number) {
        number := numbers[0] + Suffix;
      }
      number := FindFreeNumber(details, number);
      assert number == Master(details, numbers);
      ghost var before := attributes;
      attributes := SetMaster(attributes, id, number);
      forall other ensures Stored(attributes, other) == (if other == id then (if HasRow(before, id) then Some(number) else None) else Stored(before, other)) {
        SetMasterStored(before, id, number, other);
      }
      forall a ensures HasRow(attributes, a) == HasRow(before, a) {
        if HasRow(before, a) {
          var j :| 0 <= j < |before| && before[j].articleId == a;
          assert attributes[j].articleId == a;
        }
      }
    }

    /** Collects the ordernumbers of one article's variants, in row order. */
    method NumbersOfMethod(articleId: int) returns (numbers: seq<string>)
      ensures numbers == NumbersOf(details, articleId)
    {
      numbers := [];
      var k := 0;
      while k < |details|
        invariant 0 <= k <= |details|
        invariant numbers == NumbersOf(details[..k], articleId)
      {
        assert details[..k + 1][..k] == details[..k];
        if details[k].articleId == articleId {
          numbers := numbers + [details[k].ordernumber];
        }
        k := k + 1;
      }
      assert details[..k] == details;
    }

    /** The single-id form: the number for that article, or nothing. */
    method FindOrdernumber(id: int) returns (number: Option<string>)
      modifies this
      ensures id == 0 ==> number.None?
      ensures id != 0 && Stored(old(attributes), id).Some? ==> number == Stored(old(attributes), id)
      ensures id != 0 && Stored(old(attributes), id).None? ==>
        number == if NumbersOf(details, id) != [] then Some(Master(details, NumbersOf(details, id))) else None
      ensures Stored(old(attributes), id).Some? ==> Stored(attributes, id) == Stored(old(attributes), id)
      ensures id != 0 && number.Some? ==> Stored(attributes, id) == if HasRow(old(attributes), id) then number else None
      ensures number.None? ==> Stored(attributes, id) == Stored(old(attributes), id)
      ensures HasRow(attributes, id) == HasRow(old(attributes), id)
    {
      var articles := FindOrdernumbers([id]);
      SameArticlesHasRow(attributes, old(attributes), id);
      number := if id in articles then Some(articles[id]) else None;
    }
  }

  ghost predicate SameArticles(a: seq<AttrRow>, b: seq<AttrRow>) {
    |a| == |b| && forall k :: 0 <= k < |a| ==> a[k].articleId == b[k].articleId
  }

  lemma SameArticlesHasRow(a: seq<AttrRow>, b: seq<AttrRow>, id: int)
    requires SameArticles(a, b)
    ensures HasRow(a, id) == HasRow(b, id)
  {
    if HasRow(b, id) {
      var j :| 0 <= j < |b| && b[j].articleId == id;
      assert a[j].articleId == id;
    }
  }

  /** Asking twice gives the same number: the first call stores what it derived, and the second
      reads it back. */
  method AskTwice(store: ArticleStore, id: int) returns (first: Option<string>, second: Option<string>)
    requires id != 0 && HasRow(store.attributes, id)
    modifies store
    ensures first == second
  {
    first := store.FindOrdernumber(id);
    second := store.FindOrdernumber(id);
  }
}
