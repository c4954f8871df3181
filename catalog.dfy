/**
 * The `GetProducts` query pipeline of `ProductsController`: filter by the
 * search term, count, order by id descending, skip, take, and compute the
 * page count. The product table is read as a value.
 */
module Catalog {
  import opened Wrappers
  import opened DotNetText
  import opened IntParsing
  import opened Products

  /** The `Products` set: each stored product under its primary key. */
  type Table = map<int32, Product>

  /** The primary key of every row is the product's own `Id`. */
  predicate KeyedById(t: Table)
  {
    forall k :: k in t ==> t[k].id == k
  }

  /** The one-strategy-per-query choice `GetProducts` makes from its `search` argument. */
  datatype SearchFilter =
    | Unfiltered
    | IdEquals(id: int32)
    | TextContains(term: string)

  /** The JSON body of a `GetProducts` response. */
  datatype ProductPage = ProductPage(data: seq<Product>, page: int, totalPages: int, totalCount: int)

  /**
   * A null or empty term filters nothing; a term `int.TryParse` accepts selects
   * by id; any other term is a text search.
   */
  function FilterFor(search: Option<string>): (f: SearchFilter)
    ensures f.Unfiltered? <==> IsNullOrEmpty(search)
    ensures f.IdEquals? <==> !IsNullOrEmpty(search) && TryParse(search.value).Some?
    ensures f.IdEquals? ==> TryParse(search.value) == Some(f.id)
    ensures f.TextContains? ==> f.term == search.value
  {
    if IsNullOrEmpty(search) then Unfiltered
    else match TryParse(search.value)
      case Some(n) => IdEquals(n)
      case None => TextContains(search.value)
  }

  /** The text predicate a non-numeric term applies, stated with substrings. */
  ghost predicate TextMatch(p: Product, term: string)
  {
    || IsSubstring(ToLower(term), ToLower(p.name))
    || (p.description.Some? && IsSubstring(ToLower(term), ToLower(p.description.value)))
  }

  /** The `Contains` scans of the text search agree with `TextMatch`. */
  lemma ContainsScansMatchText(p: Product, term: string)
    ensures (|| Contains(ToLower(p.name), ToLower(term))
             || (p.description.Some? && Contains(ToLower(p.description.value), ToLower(term))))
            <==> TextMatch(p, term)
  {
    ContainsIsSubstring(ToLower(p.name), ToLower(term));
    if p.description.Some? {
      ContainsIsSubstring(ToLower(p.description.value), ToLower(term));
    }
  }

  /**
   * The `Where` predicate of each strategy. The text search keeps a product
   * exactly when the lower-cased term occurs in its lower-cased name or in
   * its non-null lower-cased description.
   */
  predicate Matches(p: Product, f: SearchFilter)
    ensures f.TextContains? ==> (Matches(p, f) <==> TextMatch(p, f.term))
  {
    match f
    case Unfiltered => true
    case IdEquals(n) => p.id == n
    case TextContains(term) =>
      ContainsScansMatchText(p, term);
      || Contains(ToLower(p.name), ToLower(term))
      || (p.description.Some? && Contains(ToLower(p.description.value), ToLower(term)))
  }

  /** The keys of the rows the filter keeps. */
  function MatchingIds(t: Table, f: SearchFilter): set<int32>
  {
    set k | k in t && Matches(t[k], f)
  }

  /** The ids of a sequence are strictly decreasing. */
  predicate StrictlyDescending(ids: seq<int32>)
  {
    forall i, j :: 0 <= i < j < |ids| ==> ids[i] > ids[j]
  }

  /** `m` is the largest id of `ids`. */
  predicate IsMaxOf(m: int32, ids: set<int32>)
  {
    m in ids && forall k :: k in ids ==> k <= m
  }

  lemma {:induction false} MaxIdExists(ids: set<int32>)
    requires ids != {}
    ensures exists m :: IsMaxOf(m, ids)
    decreases |ids|
  {
    var x :| x in ids;
    if ids == {x} {
      assert IsMaxOf(x, ids);
    } else {
      var rest := ids - {x};
      assert ids == rest + {x};
      MaxIdExists(rest);
      var m :| IsMaxOf(m, rest);
      if x > m {
        assert IsMaxOf(x, ids);
      } else {
        assert IsMaxOf(m, ids);
      }
    }
  }

  /** The largest id of a non-empty set. */
  function MaxId(ids: set<int32>): (m: int32)
    requires ids != {}
    ensures IsMaxOf(m, ids)
  {
    MaxIdExists(ids);
    var m :| IsMaxOf(m, ids);
    m
  }

  /** `r` lists exactly the ids of `ids`. */
  ghost predicate SameIds(r: seq<int32>, ids: set<int32>)
  {
    forall k :: k in r <==> k in ids
  }

  /** `OrderByDescending(p => p.Id)` on a set of ids. */
  function OrderByIdDescending(ids: set<int32>): (r: seq<int32>)
    ensures |r| == |ids|
    ensures SameIds(r, ids)
    ensures StrictlyDescending(r)
    decreases |ids|
  {
    if ids == {} then []
    else
      var m := MaxId(ids);
      [m] + OrderByIdDescending(ids - {m})
  }

  /** A strictly descending listing of a non-empty set starts with its largest id. */
  lemma ListingStartsWithMax(ids: set<int32>, r: seq<int32>)
    requires ids != {} && StrictlyDescending(r) && SameIds(r, ids)
    ensures r != [] && r[0] == MaxId(ids)
  {
    var m := MaxId(ids);
    assert m in r;
    var i :| 0 <= i < |r| && r[i] == m;
    assert r[0] in ids;
    assert r[0] >= r[i];
  }

  /** The rest of such a listing is a strictly descending listing of the other ids. */
  lemma ListingTail(ids: set<int32>, r: seq<int32>)
    requires r != [] && StrictlyDescending(r) && SameIds(r, ids)
    ensures StrictlyDescending(r[1..]) && SameIds(r[1..], ids - {r[0]})
  {
    var tail := r[1..];
    forall k
      ensures k in tail <==> k in ids - {r[0]}
    {
      if k in tail {
        var i :| 0 <= i < |tail| && tail[i] == k;
        assert r[i + 1] == k;
      }
      if k in ids - {r[0]} {
        var i :| 0 <= i < |r| && r[i] == k;
        assert tail[i - 1] == k;
      }
    }
  }

  /** There is only one strictly descending listing of a set of ids. */
  lemma {:induction false} OrderingIsUnique(ids: set<int32>, r: seq<int32>)
    requires StrictlyDescending(r)
    requires SameIds(r, ids)
    ensures r == OrderByIdDescending(ids)
    decreases |ids|
  {
    if ids != {} {
      ListingStartsWithMax(ids, r);
      ListingTail(ids, r);
      var m := MaxId(ids);
      OrderingIsUnique(ids - {m}, r[1..]);
      calc {
        OrderByIdDescending(ids);
        [m] + OrderByIdDescending(ids - {m});
        [r[0]] + r[1..];
        r;
      }
    }
  }

  /** The rows of the given keys, in the given order. */
  function ProductsOf(t: Table, ids: seq<int32>): (r: seq<Product>)
    requires forall k :: k in ids ==> k in t
    ensures |r| == |ids|
    ensures forall i :: 0 <= i < |ids| ==> r[i] == t[ids[i]]
  {
    seq(|ids|, i requires 0 <= i < |ids| => t[ids[i]])
  }

  /** The products the filter keeps, ordered by id descending: everything before `Skip`. */
  function OrderedMatches(t: Table, f: SearchFilter): (r: seq<Product>)
    ensures |r| == |MatchingIds(t, f)|
    ensures forall p :: p in r <==> p in t.Values && Matches(p, f)
    ensures KeyedById(t) ==> forall i, j :: 0 <= i < j < |r| ==> r[i].id > r[j].id
  {
    var ids := OrderByIdDescending(MatchingIds(t, f));
    var r := ProductsOf(t, ids);
    assert forall p :: p in r <==> p in t.Values && Matches(p, f) by {
      forall p
        ensures p in r <==> p in t.Values && Matches(p, f)
      {
        if p in r {
          var i :| 0 <= i < |r| && r[i] == p;
          assert ids[i] in MatchingIds(t, f);
        }
        if p in t.Values && Matches(p, f) {
          var k :| k in t && t[k] == p;
          assert k in ids;
          var i :| 0 <= i < |ids| && ids[i] == k;
          assert r[i] == p;
        }
      }
    }
    r
  }

  /** `n` clamped into `[0, len]`: how far `OFFSET` and `LIMIT` can reach. */
  function Clamp(n: int, len: nat): (c: nat)
    ensures c <= len
  {
    if n < 0 then 0 else if n > len then len else n
  }

  /**
   * `Skip(n)` on the query, sent to the database as `OFFSET n`: drops the
   * first `n` rows, all of them when `n` is past the end. A negative `OFFSET`
   * is an error, so the count is a `nat` here.
   */
  function Skip<T>(s: seq<T>, n: nat): (r: seq<T>)
    ensures r == s[Clamp(n, |s|)..]
  {
    if n >= |s| then [] else s[n..]
  }

  /**
   * `Take(n)` on the query, sent as `LIMIT n`: keeps the first `n` rows, all
   * of them when `n` is past the end.
   */
  function Take<T>(s: seq<T>, n: nat): (r: seq<T>)
    ensures r == s[..Clamp(n, |s|)]
  {
    if n >= |s| then s else s[..n]
  }

  /** `pages` pages of `pageSize` items hold `count` items, and one page fewer would not. */
  predicate IsPageCount(pages: int, count: int, pageSize: int)
  {
    count <= pages * pageSize && (pages - 1) * pageSize < count
  }

  /** `(int)Math.Ceiling(n / (double)d)`: the fewest pages of `d` items that hold `n` items. */
  function CeilDiv(n: nat, d: int): (q: nat)
    requires d >= 1
    ensures IsPageCount(q, n, d)
  {
    var q := (n + d - 1) / d;
    assert q * d + (n + d - 1) % d == n + d - 1;
    q
  }

  /** Where page `page` of `pageSize` items starts in the ordered result, before clamping. */
  function PageStart(page: int, pageSize: int): int
  {
    (page - 1) * pageSize
  }

  /** `GetProducts(search, page, pageSize)` over the table `t`. */
  function GetProducts(t: Table, search: Option<string>, page: int32, pageSize: int32): (r: ProductPage)
    requires page >= 1 && pageSize >= 1
    ensures r.page == page
    ensures r.totalCount == |MatchingIds(t, FilterFor(search))|
    ensures IsPageCount(r.totalPages, r.totalCount, pageSize)
    ensures |r.data| <= pageSize
    ensures forall p :: p in r.data ==> p in t.Values && Matches(p, FilterFor(search))
  {
    PageStartMonotone(1, page, pageSize);
    var f := FilterFor(search);
    var totalCount := |MatchingIds(t, f)|;
    var ordered := OrderedMatches(t, f);
    var data := Take(Skip(ordered, PageStart(page, pageSize)), pageSize);
    assert forall p :: p in data ==> p in ordered by {
      forall p | p in data
        ensures p in ordered
      {
        var i :| 0 <= i < |data| && data[i] == p;
        assert p == ordered[Clamp(PageStart(page, pageSize), |ordered|) + i];
      }
    }
    ProductPage(data, page, CeilDiv(totalCount, pageSize), totalCount)
  }

  /** Where page `page` of `pageSize` items starts and ends in an ordered result of `count` items. */
  function PageBounds(page: int, pageSize: int, count: nat): (bounds: (nat, nat))
    requires page >= 1 && pageSize >= 1
    ensures bounds.0 <= bounds.1 <= count
  {
    var lo := Clamp(PageStart(page, pageSize), count);
    (lo, Clamp(lo + pageSize, count))
  }

  /** Page `page` is exactly its slice of the filtered products ordered by id descending. */
  lemma PageIsSliceOfOrderedMatches(t: Table, search: Option<string>, page: int32, pageSize: int32)
    requires page >= 1 && pageSize >= 1
    ensures var ordered := OrderedMatches(t, FilterFor(search));
            var bounds := PageBounds(page, pageSize, |ordered|);
            GetProducts(t, search, page, pageSize).data == ordered[bounds.0..bounds.1]
  {
    var ordered := OrderedMatches(t, FilterFor(search));
    PageStartMonotone(1, page, pageSize);
    var rest := Skip(ordered, PageStart(page, pageSize));
    assert Take(rest, pageSize) == ordered[PageBounds(page, pageSize, |ordered|).0..PageBounds(page, pageSize, |ordered|).1];
  }

  lemma PageStartMonotone(x: int, y: int, pageSize: nat)
    requires x <= y
    ensures PageStart(x, pageSize) <= PageStart(y, pageSize)
  {
    assert PageStart(y, pageSize) - PageStart(x, pageSize) == (y - x) * pageSize;
  }

  lemma PageStartNext(page: int, pageSize: int)
    ensures PageStart(page, pageSize) + pageSize == PageStart(page + 1, pageSize)
  {
  }

  /** The page arithmetic alone: how many of `count` items page `page` holds. */
  lemma PageBoundsLength(page: int, pages: int, pageSize: int, count: nat)
    requires page >= 1 && pageSize >= 1
    requires IsPageCount(pages, count, pageSize)
    ensures var bounds := PageBounds(page, pageSize, count);
            bounds.1 - bounds.0 == if page < pages then pageSize
                                   else if page == pages then count - PageStart(page, pageSize)
                                   else 0
  {
    PageStartNext(page, pageSize);
    assert PageStart(pages + 1, pageSize) >= count by {
      PageStartNext(pages, pageSize);
    }
    assert PageStart(pages, pageSize) < count;
    if page < pages {
      PageStartMonotone(page + 1, pages, pageSize);
    } else if page > pages {
      PageStartMonotone(pages + 1, page, pageSize);
    }
  }

  /** Every page before the last is full, the last holds the remainder, and pages past it are empty. */
  lemma PageLength(t: Table, search: Option<string>, page: int32, pageSize: int32)
    requires page >= 1 && pageSize >= 1
    ensures var r := GetProducts(t, search, page, pageSize);
            |r.data| == if page < r.totalPages then pageSize as int
                        else if page == r.totalPages then r.totalCount - PageStart(page, pageSize)
                        else 0
  {
    var r := GetProducts(t, search, page, pageSize);
    PageIsSliceOfOrderedMatches(t, search, page, pageSize);
    PageBoundsLength(page, r.totalPages, pageSize, r.totalCount);
  }

  /** Asking for a page past `TotalPages` gives no items, with the same counts. */
  lemma PagePastEndIsEmpty(t: Table, search: Option<string>, page: int32, pageSize: int32)
    requires page >= 1 && pageSize >= 1
    requires page > GetProducts(t, search, page, pageSize).totalPages
    ensures GetProducts(t, search, page, pageSize).data == []
    ensures GetProducts(t, search, page, pageSize).totalCount == GetProducts(t, search, 1, pageSize).totalCount
  {
    PageLength(t, search, page, pageSize);
  }

  /** Within a page the ids are strictly decreasing. */
  lemma PageIsOrderedByIdDescending(t: Table, search: Option<string>, page: int32, pageSize: int32)
    requires KeyedById(t)
    requires page >= 1 && pageSize >= 1
    ensures var data := GetProducts(t, search, page, pageSize).data;
            forall i, j :: 0 <= i < j < |data| ==> data[i].id > data[j].id
  {
    PageIsSliceOfOrderedMatches(t, search, page, pageSize);
  }

  /** The page arithmetic alone: an earlier page ends where a later one starts, or before. */
  lemma PageBoundsOrdered(early: int, late: int, pageSize: int, count: nat)
    requires 1 <= early < late && pageSize >= 1
    ensures PageBounds(early, pageSize, count).1 <= PageBounds(late, pageSize, count).0
  {
    PageStartNext(early, pageSize);
    PageStartMonotone(early + 1, late, pageSize);
  }

  /** In a sequence ordered by id descending, an earlier slice has the higher ids. */
  lemma EarlierSliceHasHigherIds(ordered: seq<Product>, e0: nat, e1: nat, l0: nat, l1: nat)
    requires e0 <= e1 <= l0 <= l1 <= |ordered|
    requires forall i, j :: 0 <= i < j < |ordered| ==> ordered[i].id > ordered[j].id
    ensures forall p, q :: p in ordered[e0..e1] && q in ordered[l0..l1] ==> p.id > q.id
  {
    forall p, q | p in ordered[e0..e1] && q in ordered[l0..l1]
      ensures p.id > q.id
    {
      var i :| 0 <= i < e1 - e0 && ordered[e0..e1][i] == p;
      var j :| 0 <= j < l1 - l0 && ordered[l0..l1][j] == q;
      assert ordered[e0 + i] == p && ordered[l0 + j] == q;
    }
  }

  /** No item of a later page has an id as high as any item of an earlier page. */
  lemma EarlierPagesHaveHigherIds(t: Table, search: Option<string>, early: int32, late: int32, pageSize: int32)
    requires KeyedById(t)
    requires 1 <= early < late && pageSize >= 1
    ensures forall p, q ::
              p in GetProducts(t, search, early, pageSize).data && q in GetProducts(t, search, late, pageSize).data
              ==> p.id > q.id
  {
    var ordered := OrderedMatches(t, FilterFor(search));
    PageIsSliceOfOrderedMatches(t, search, early, pageSize);
    PageIsSliceOfOrderedMatches(t, search, late, pageSize);
    var e := PageBounds(early, pageSize, |ordered|);
    var l := PageBounds(late, pageSize, |ordered|);
    PageBoundsOrdered(early, late, pageSize, |ordered|);
    EarlierSliceHasHigherIds(ordered, e.0, e.1, l.0, l.1);
  }

  /** A null or empty term filters nothing: every product is counted and listed. */
  lemma UnfilteredCountsEveryProduct(t: Table, search: Option<string>, page: int32, pageSize: int32)
    requires IsNullOrEmpty(search)
    requires page >= 1 && pageSize >= 1
    ensures GetProducts(t, search, page, pageSize).totalCount == |t|
    ensures forall p :: p in OrderedMatches(t, FilterFor(search)) <==> p in t.Values
  {
    assert MatchingIds(t, FilterFor(search)) == t.Keys;
  }

  /**
   * A term that parses as the integer `n` selects by id alone, even when names
   * or descriptions contain its digits: at most the product with id `n`, and
   * only on the first page.
   */
  lemma IdSearchSelectsOnlyThatId(t: Table, term: string, n: int32, page: int32, pageSize: int32)
    requires KeyedById(t)
    requires term != [] && TryParse(term) == Some(n)
    requires page >= 1 && pageSize >= 1
    ensures var r := GetProducts(t, Some(term), page, pageSize);
            && r.totalCount == (if n in t then 1 else 0)
            && r.data == (if n in t && page == 1 then [t[n]] else [])
  {
    assert FilterFor(Some(term)) == IdEquals(n);
    IdFilterOrdered(t, n);
    IdPage(t, n, OrderedMatches(t, IdEquals(n)), page, pageSize);
    PageIsSliceOfOrderedMatches(t, Some(term), page, pageSize);
  }

  /** The slice page `page` takes of the id filter's result: the row on page 1, nothing after. */
  lemma IdPage(t: Table, n: int32, ordered: seq<Product>, page: int32, pageSize: int32)
    requires page >= 1 && pageSize >= 1
    requires ordered == if n in t then [t[n]] else []
    ensures var bounds := PageBounds(page, pageSize, |ordered|);
            ordered[bounds.0..bounds.1] == if n in t && page == 1 then [t[n]] else []
  {
    var bounds := PageBounds(page, pageSize, |ordered|);
    if page == 1 {
      assert bounds == (0, |ordered|);
    } else {
      PageStartMonotone(2, page, pageSize);
      assert bounds.0 == |ordered|;
    }
  }

  /** On a keyed table the id filter keeps the row under key `n`, if any, and nothing else. */
  lemma IdFilterOrdered(t: Table, n: int32)
    requires KeyedById(t)
    ensures MatchingIds(t, IdEquals(n)) == if n in t then {n} else {}
    ensures OrderedMatches(t, IdEquals(n)) == if n in t then [t[n]] else []
  {
    var ids := MatchingIds(t, IdEquals(n));
    assert ids == if n in t then {n} else {};
    var ordered := OrderedMatches(t, IdEquals(n));
    if n in t {
      assert t[n] in ordered;
    }
  }

  /**
   * A non-empty term that does not parse as an integer keeps exactly the
   * products whose lower-cased name, or non-null lower-cased description,
   * contains the lower-cased term.
   */
  lemma TextSearchMatchesNameOrDescription(t: Table, term: string, page: int32, pageSize: int32)
    requires term != [] && TryParse(term).None?
    requires page >= 1 && pageSize >= 1
    ensures forall p :: p in t.Values ==> (p in OrderedMatches(t, FilterFor(Some(term))) <==> TextMatch(p, term))
    ensures forall p :: p in GetProducts(t, Some(term), page, pageSize).data ==> TextMatch(p, term)
  {
  }

  /** C#'s unchecked 32-bit arithmetic: the two's-complement value of `x`. */
  function Wrap32(x: int): (w: int32)
    ensures (x - w) % 0x1_0000_0000 == 0
  {
    (x + 0x8000_0000) % 0x1_0000_0000 - 0x8000_0000
  }

  /** The skip count as the source computes it: `(page - 1) * pageSize` in `int` arithmetic. */
  function SkipCountAsWritten(page: int32, pageSize: int32): (n: int32)
    requires page >= 1 && pageSize >= 1
    ensures PageStart(page, pageSize) <= Int32Max ==> n == PageStart(page, pageSize)
  {
    Wrap32(PageStart(page, pageSize))
  }

  /**
   * `GetProducts` with the skip count wrapped to 32 bits, as the source
   * computes it. A wrapped count below zero reaches the database as a
   * negative `OFFSET`, which PostgreSQL rejects: the request fails (`None`).
   */
  function GetProductsAsWritten(t: Table, search: Option<string>, page: int32, pageSize: int32): (r: Option<ProductPage>)
    requires page >= 1 && pageSize >= 1
    ensures r.None? <==> SkipCountAsWritten(page, pageSize) < 0
    ensures PageStart(page, pageSize) <= Int32Max ==> r == Some(GetProducts(t, search, page, pageSize))
  {
    PageStartMonotone(1, page, pageSize);
    var skip := SkipCountAsWritten(page, pageSize);
    if skip < 0 then None
    else
      var f := FilterFor(search);
      var totalCount := |MatchingIds(t, f)|;
      var ordered := OrderedMatches(t, f);
      var data := Take(Skip(ordered, skip), pageSize);
      Some(ProductPage(data, page, CeilDiv(totalCount, pageSize), totalCount))
  }

  /**
   * With one product, page 65537 of 65536 items lies far past the last page,
   * yet the wrapped skip count is 0 and the source serves the first page again;
   * the unwrapped skip count gives the empty page.
   */
  lemma WrappedSkipServesFirstPageAgain(w: Product)
    requires w.id == 1
    ensures var r := GetProductsAsWritten(map[1 := w], None, 65537, 65536);
            r.Some? && r.value.totalPages == 1 && r.value.page > r.value.totalPages && r.value.data == [w]
    ensures GetProducts(map[1 := w], None, 65537, 65536).data == []
  {
    var t := map[1 := w];
    var ordered := OrderedMatches(t, Unfiltered);
    assert MatchingIds(t, Unfiltered) == {1};
    assert w in ordered;
    assert ordered == [w];
    assert PageStart(65537, 65536) == 0x1_0000_0000;
    assert SkipCountAsWritten(65537, 65536) == 0;
    PagePastEndIsEmpty(t, None, 65537, 65536);
  }

  /**
   * Page 32769 of 65536 items wraps the skip count to the smallest `int`,
   * so that request fails for every table and term, where the unwrapped
   * query answers with an empty page.
   */
  lemma WrappedSkipGoesNegative(t: Table, search: Option<string>)
    ensures SkipCountAsWritten(32769, 65536) == Int32Min
    ensures GetProductsAsWritten(t, search, 32769, 65536).None?
    ensures GetProducts(t, search, 32769, 65536).page == 32769
  {
    assert PageStart(32769, 65536) == 0x8000_0000;
  }

  /** A number outside the 32-bit range, however written by `ToString`, is searched as text. */
  lemma OutOfRangeNumberIsText(n: int)
    requires n < Int32Min || Int32Max < n
    ensures FilterFor(Some(Format(n))) == TextContains(Format(n))
  {
    TryParseFormat(n);
  }
}
