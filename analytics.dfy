/**
 * Local page-view analytics (src/utils/analytics.ts). The browser's
 * `localStorage` is the `storage` field of an `AnalyticsStore`; it holds the
 * visitor id under one key and the JSON text of the analytics record under
 * another. `JSON.parse` and `JSON.stringify` are the store's `parse` and
 * `stringify`, about which only the laws in `CodecLaws` are assumed.
 * `new Date()` is the integer `now` that each operation receives, and the
 * random part of a generated visitor id is the parameter `randomPart`.
 */
module Analytics {
  import opened Wrappers
  import StableSort

  const AnalyticsKey: string := "kxrim_analytics"
  const VisitorKey: string := "kxrim_visitor_id"
  const VisitorPrefix: string := "visitor_"
  const TopPagesLimit: nat := 10

  // ---------------------------------------------------------------------
  // The page-view counters

  /** One entry of the `pageViews` object: a page and its count. */
  datatype PageCount = PageCount(page: string, views: nat)

  /**
   * The `pageViews` object is kept as its entries in insertion order, which is
   * the order `Object.entries` and `Object.values` visit them. The keys of a
   * JavaScript object are distinct.
   */
  predicate DistinctPages(pv: seq<PageCount>)
  {
    forall i, j :: 0 <= i < j < |pv| ==> pv[i].page != pv[j].page
  }

  /** `Object.keys(pageViews)` as a set. */
  function Pages(pv: seq<PageCount>): (r: set<string>)
    ensures forall p :: p in r <==> exists i :: 0 <= i < |pv| && pv[i].page == p
  {
    if pv == [] then {}
    else
      assert forall i :: 1 <= i < |pv| ==> pv[i] == pv[1..][i - 1];
      {pv[0].page} + Pages(pv[1..])
  }

  /** `pageViews[page] || 0`: the count of `page`, and 0 for a page never seen. */
  function ViewsOf(pv: seq<PageCount>, page: string): (r: nat)
    ensures page !in Pages(pv) ==> r == 0
    ensures DistinctPages(pv) ==> forall i :: 0 <= i < |pv| && pv[i].page == page ==> r == pv[i].views
  {
    DistinctTail(pv);
    if pv == [] then 0
    else if pv[0].page == page then pv[0].views
    else ViewsOf(pv[1..], page)
  }

  /** `Object.values(pageViews).reduce((sum, views) => sum + views, 0)`. */
  function TotalViews(pv: seq<PageCount>): (t: nat)
    ensures forall i :: 0 <= i < |pv| ==> pv[i].views <= t
  {
    if pv == [] then 0 else pv[0].views + TotalViews(pv[1..])
  }

  /**
   * `pageViews[page] = (pageViews[page] || 0) + 1`: an existing key keeps its
   * place and is raised by one; a new key is appended with count 1.
   */
  function Bump(pv: seq<PageCount>, page: string): (r: seq<PageCount>)
    ensures Pages(r) == Pages(pv) + {page}
    ensures |r| == |pv| + (if page in Pages(pv) then 0 else 1)
  {
    if pv == [] then [PageCount(page, 1)]
    else if pv[0].page == page then [PageCount(page, pv[0].views + 1)] + pv[1..]
    else [pv[0]] + Bump(pv[1..], page)
  }

  /** Every existing entry keeps its place and its page; an entry for another page is unchanged. */
  lemma {:induction false} BumpKeepsPlaces(pv: seq<PageCount>, page: string, i: int)
    requires 0 <= i < |pv|
    ensures i < |Bump(pv, page)|
    ensures Bump(pv, page)[i].page == pv[i].page
    ensures pv[i].page != page ==> Bump(pv, page)[i] == pv[i]
  {
    if pv[0].page != page && i > 0 {
      BumpKeepsPlaces(pv[1..], page, i - 1);
      assert ([pv[0]] + Bump(pv[1..], page))[i] == Bump(pv[1..], page)[i - 1];
    }
  }

  /** A page with no entry yet is appended after every existing entry, with count 1. */
  lemma {:induction false} BumpNewAppends(pv: seq<PageCount>, page: string)
    ensures page !in Pages(pv) ==> Bump(pv, page) == pv + [PageCount(page, 1)]
  {
    if pv != [] && page !in Pages(pv) {
      assert page != pv[0].page;
      assert page !in Pages(pv[1..]);
      BumpNewAppends(pv[1..], page);
      assert pv == [pv[0]] + pv[1..];
    }
  }

  /** Tracking `page` raises its count by exactly one, an absent entry counting as 0, and changes no other count. */
  lemma {:induction false} BumpViews(pv: seq<PageCount>, page: string, q: string)
    ensures ViewsOf(Bump(pv, page), q) == ViewsOf(pv, q) + (if q == page then 1 else 0)
  {
    if pv != [] && pv[0].page != page {
      BumpViews(pv[1..], page, q);
      assert ([pv[0]] + Bump(pv[1..], page))[1..] == Bump(pv[1..], page);
    }
  }

  /** `BumpViews` for every page at once. */
  lemma BumpAllViews(pv: seq<PageCount>, page: string)
    ensures ViewsOf(Bump(pv, page), page) == ViewsOf(pv, page) + 1
    ensures forall q :: q != page ==> ViewsOf(Bump(pv, page), q) == ViewsOf(pv, q)
  {
    forall q ensures ViewsOf(Bump(pv, page), q) == ViewsOf(pv, q) + (if q == page then 1 else 0) {
      BumpViews(pv, page, q);
    }
  }

  /** Tracking one page raises the sum of all counts by exactly one. */
  lemma {:induction false} BumpTotal(pv: seq<PageCount>, page: string)
    ensures TotalViews(Bump(pv, page)) == TotalViews(pv) + 1
  {
    if pv == [] {
      assert TotalViews([PageCount(page, 1)]) == 1 + TotalViews([]);
    } else if pv[0].page == page {
      assert ([PageCount(page, pv[0].views + 1)] + pv[1..])[1..] == pv[1..];
    } else {
      BumpTotal(pv[1..], page);
      assert ([pv[0]] + Bump(pv[1..], page))[1..] == Bump(pv[1..], page);
    }
  }

  /** An entry whose page the rest lacks can go in front of distinct entries. */
  lemma DistinctCons(e: PageCount, rest: seq<PageCount>)
    requires DistinctPages(rest) && e.page !in Pages(rest)
    ensures DistinctPages([e] + rest)
  {
    var r := [e] + rest;
    forall i, j | 0 <= i < j < |r|
      ensures r[i].page != r[j].page
    {
      assert r[j] == rest[j - 1];
      if i > 0 {
        assert r[i] == rest[i - 1];
      }
    }
  }

  /** The entries after the first of distinct entries are distinct and lack the first page. */
  lemma DistinctTail(pv: seq<PageCount>)
    ensures pv != [] && DistinctPages(pv) ==> DistinctPages(pv[1..]) && pv[0].page !in Pages(pv[1..])
  {
    if pv != [] {
      var rest := pv[1..];
      assert forall i :: 0 <= i < |rest| ==> rest[i] == pv[i + 1];
    }
  }

  /** Tracking keeps the keys distinct. */
  lemma {:induction false} BumpDistinct(pv: seq<PageCount>, page: string)
    ensures DistinctPages(pv) ==> DistinctPages(Bump(pv, page))
  {
    if pv != [] && DistinctPages(pv) {
      DistinctTail(pv);
      if pv[0].page == page {
        DistinctCons(PageCount(page, pv[0].views + 1), pv[1..]);
      } else {
        BumpDistinct(pv[1..], page);
        DistinctCons(pv[0], Bump(pv[1..], page));
      }
    }
  }

  /** With distinct keys, `Object.keys(pageViews).length` is the number of distinct pages. */
  lemma {:induction false} DistinctPagesCount(pv: seq<PageCount>)
    ensures DistinctPages(pv) ==> |Pages(pv)| == |pv|
  {
    if pv != [] && DistinctPages(pv) {
      assert DistinctPages(pv[1..]);
      DistinctPagesCount(pv[1..]);
      assert pv[0].page !in Pages(pv[1..]);
    }
  }

  // ---------------------------------------------------------------------
  // The stored record

  /** `AnalyticsData`, with the two ISO timestamps as integers. */
  datatype AnalyticsData = AnalyticsData(
    pageViews: seq<PageCount>,
    uniqueVisitors: int,
    lastVisit: int,
    firstVisit: int)

  predicate WellFormed(d: AnalyticsData)
  {
    DistinctPages(d.pageViews)
  }

  /** The record `getAnalyticsData` builds when nothing usable is stored. */
  function DefaultData(now: int): (d: AnalyticsData)
    ensures d.pageViews == [] && d.uniqueVisitors == 0
    ensures d.lastVisit == now && d.firstVisit == now
    ensures WellFormed(d)
  {
    AnalyticsData([], 0, now, now)
  }

  /** The record after one `trackPageView(page)` at time `now`. */
  function Track(d: AnalyticsData, page: string, now: int): (r: AnalyticsData)
    ensures ViewsOf(r.pageViews, page) == ViewsOf(d.pageViews, page) + 1
    ensures forall q :: q != page ==> ViewsOf(r.pageViews, q) == ViewsOf(d.pageViews, q)
    ensures Pages(r.pageViews) == Pages(d.pageViews) + {page}
    ensures r.uniqueVisitors == d.uniqueVisitors && r.firstVisit == d.firstVisit
    ensures r.lastVisit == now
    ensures WellFormed(d) ==> WellFormed(r)
  {
    BumpAllViews(d.pageViews, page);
    BumpDistinct(d.pageViews, page);
    d.(pageViews := Bump(d.pageViews, page), lastVisit := now)
  }

  /** What `JSON.parse` makes of a stored text. */
  datatype Decoded =
    | Record(data: AnalyticsData)   // an object of the `AnalyticsData` shape
    | OtherValue                    // valid JSON of another shape (a number, `null`, an object without `pageViews`)
    | SyntaxError                   // `JSON.parse` throws

  /** What `getAnalyticsData` returns. */
  datatype Loaded =
    | Data(data: AnalyticsData)
    | Foreign                       // the parsed value is returned as it is, and reading its fields fails later

  /**
   * The assumptions about JSON: a well-formed record survives the round trip
   * through its text, which is never the empty string, and whatever parses as
   * a record has distinct keys.
   */
  ghost predicate CodecLaws(parse: string -> Decoded, stringify: AnalyticsData -> string)
  {
    && (forall d :: WellFormed(d) ==> stringify(d) != "" && parse(stringify(d)) == Record(d))
    && (forall s :: parse(s).Record? ==> WellFormed(parse(s).data))
  }

  /** `getAnalyticsData` on the stored text: a missing or empty text and a syntax error give the default record. */
  function LoadAnalytics(stored: Option<string>, parse: string -> Decoded, now: int): (r: Loaded)
    ensures stored.None? || stored.value == "" ==> r == Data(DefaultData(now))
    ensures stored.Some? && stored.value != "" ==>
      match parse(stored.value)
      case Record(d) => r == Data(d)
      case OtherValue => r == Foreign
      case SyntaxError => r == Data(DefaultData(now))
  {
    match stored
    case None => Data(DefaultData(now))
    case Some(text) =>
      if text == "" then Data(DefaultData(now))
      else match parse(text)
        case Record(d) => Data(d)
        case OtherValue => Foreign
        case SyntaxError => Data(DefaultData(now))
  }

  /** `localStorage.getItem(key)`. */
  function GetItem(storage: map<string, string>, key: string): (r: Option<string>)
    ensures r.Some? <==> key in storage
    ensures r.Some? ==> r.value == storage[key]
  {
    if key in storage then Some(storage[key]) else None
  }

  // ---------------------------------------------------------------------
  // The visitor id

  /** The stored visitor id, unless it is missing or the empty (falsy) string. */
  function StoredVisitorId(storage: map<string, string>): (r: Option<string>)
    ensures r.Some? <==> VisitorKey in storage && storage[VisitorKey] != ""
    ensures r.Some? ==> r.value == storage[VisitorKey]
  {
    if VisitorKey in storage && storage[VisitorKey] != "" then Some(storage[VisitorKey]) else None
  }

  /** `getVisitorId` on the storage: the new storage and the id returned. */
  function EnsureVisitorId(storage: map<string, string>, randomPart: string): (r: (map<string, string>, string))
    ensures StoredVisitorId(r.0) == Some(r.1)
    ensures StoredVisitorId(storage).Some? ==> r.0 == storage && r.1 == storage[VisitorKey]
    ensures StoredVisitorId(storage).None? ==>
      r.1 == VisitorPrefix + randomPart && r.0 == storage[VisitorKey := r.1]
  {
    match StoredVisitorId(storage)
    case Some(id) => (storage, id)
    case None =>
      var id := VisitorPrefix + randomPart;
      (storage[VisitorKey := id], id)
  }

  /** A second `getVisitorId` returns the id of the first and writes nothing, whatever its random part. */
  lemma VisitorIdIsStable(storage: map<string, string>, first: string, second: string)
    ensures var (after, id) := EnsureVisitorId(storage, first);
      EnsureVisitorId(after, second) == (after, id)
  {
  }

  /** `trackPageView` on the storage. */
  function TrackedStorage(storage: map<string, string>, page: string, randomPart: string, now: int,
                          parse: string -> Decoded, stringify: AnalyticsData -> string): (r: map<string, string>)
    ensures StoredVisitorId(r) == Some(EnsureVisitorId(storage, randomPart).1)
    ensures forall k :: k != AnalyticsKey && k != VisitorKey ==> GetItem(r, k) == GetItem(storage, k)
  {
    var withId := EnsureVisitorId(storage, randomPart).0;
    match LoadAnalytics(GetItem(withId, AnalyticsKey), parse, now)
    case Data(d) => withId[AnalyticsKey := stringify(Track(d, page, now))]
    case Foreign => withId
  }

  // ---------------------------------------------------------------------
  // The summary

  /** The return value of `getAnalyticsSummary`. */
  datatype Summary = Summary(
    totalPageViews: nat,
    uniquePages: nat,
    topPages: seq<PageCount>,
    lastVisit: int,
    firstVisit: int)

  /** The `views` sort key. */
  function Views(e: PageCount): int
  {
    e.views
  }

  /** The entries sorted by views, most viewed first (ties in insertion order), cut to the first ten. */
  function TopPages(pv: seq<PageCount>): (r: seq<PageCount>)
    ensures |r| == if |pv| < TopPagesLimit then |pv| else TopPagesLimit
    ensures StableSort.SortedDesc(r, Views)
    ensures multiset(r) <= multiset(pv)
    ensures forall e :: e in r ==> e in pv
    ensures forall e, t :: e in multiset(pv) - multiset(r) && t in r ==> e.views <= t.views
  {
    var sorted := StableSort.Sort(pv, Views);
    var n := if |sorted| < TopPagesLimit then |sorted| else TopPagesLimit;
    TopPrefixIsTop(pv, sorted, n);
    sorted[..n]
  }

  /**
   * A prefix of a permutation of `pv` sorted by views is sorted, is drawn from
   * `pv`, and holds entries at least as viewed as any entry left out.
   */
  lemma TopPrefixIsTop(pv: seq<PageCount>, sorted: seq<PageCount>, n: nat)
    requires multiset(sorted) == multiset(pv)
    requires StableSort.SortedDesc(sorted, Views)
    requires n <= |sorted|
    ensures StableSort.SortedDesc(sorted[..n], Views)
    ensures multiset(sorted[..n]) <= multiset(pv)
    ensures forall e :: e in sorted[..n] ==> e in pv
    ensures forall e, t :: e in multiset(pv) - multiset(sorted[..n]) && t in sorted[..n] ==> e.views <= t.views
  {
    var top := sorted[..n];
    assert sorted == top + sorted[n..];
    assert multiset(sorted) == multiset(top) + multiset(sorted[n..]);
    forall e | e in top
      ensures e in pv
    {
      assert e in multiset(top);
      assert e in multiset(pv);
    }
    forall e, t | e in multiset(pv) - multiset(top) && t in top
      ensures e.views <= t.views
    {
      assert e in multiset(sorted[n..]);
      assert e in sorted[n..];
      var j :| n <= j < |sorted| && sorted[j] == e;
      var i :| 0 <= i < n && sorted[i] == t;
      StableSort.SortedDescPairs(sorted, Views, i, j);
    }
  }

  /** `getAnalyticsSummary` on a record. */
  function SummaryOf(d: AnalyticsData): (s: Summary)
    ensures s.totalPageViews == TotalViews(d.pageViews)
    ensures s.uniquePages == |d.pageViews|
    ensures WellFormed(d) ==> s.uniquePages == |Pages(d.pageViews)|
    ensures |s.topPages| == if s.uniquePages < TopPagesLimit then s.uniquePages else TopPagesLimit
    ensures StableSort.SortedDesc(s.topPages, Views)
    ensures forall e :: e in s.topPages ==> e in d.pageViews
    ensures multiset(s.topPages) <= multiset(d.pageViews)
    ensures forall e, t :: e in multiset(d.pageViews) - multiset(s.topPages) && t in s.topPages ==> e.views <= t.views
    ensures s.topPages == TopPages(d.pageViews)
    ensures s.lastVisit == d.lastVisit && s.firstVisit == d.firstVisit
  {
    DistinctPagesCount(d.pageViews);
    Summary(TotalViews(d.pageViews), |d.pageViews|, TopPages(d.pageViews), d.lastVisit, d.firstVisit)
  }

  /** `getAnalyticsSummary`: None when the stored value is not a record and reading `pageViews` throws. */
  function SummaryOfLoaded(loaded: Loaded): (r: Option<Summary>)
    ensures r.Some? <==> loaded.Data?
    ensures loaded.Data? ==> r.value == SummaryOf(loaded.data)
  {
    match loaded
    case Data(d) => Some(SummaryOf(d))
    case Foreign => None
  }

  /**
   * One tracked view raises the total by exactly one, and the number of
   * distinct pages by one exactly when the page had no entry.
   */
  lemma SummaryAfterTrack(d: AnalyticsData, page: string, now: int)
    requires WellFormed(d)
    ensures var before, after := SummaryOf(d), SummaryOf(Track(d, page, now));
      && after.totalPageViews == before.totalPageViews + 1
      && after.uniquePages == before.uniquePages + (if page in Pages(d.pageViews) then 0 else 1)
      && after.firstVisit == before.firstVisit
      && after.lastVisit == now
  {
    BumpTotal(d.pageViews, page);
    var t := Track(d, page, now);
    assert t.pageViews == Bump(d.pageViews, page);
  }

  /** The default record summarises to nothing viewed. */
  lemma DefaultSummary(now: int)
    ensures SummaryOf(DefaultData(now)) == Summary(0, 0, [], now, now)
  {
  }

  // ---------------------------------------------------------------------
  // The store

  /** `localStorage` together with the JSON codec the module uses on it. */
  class AnalyticsStore {
    var storage: map<string, string>
    const parse: string -> Decoded
    const stringify: AnalyticsData -> string

    ghost predicate Valid()
    {
      CodecLaws(parse, stringify)
    }

    constructor (initial: map<string, string>, parse: string -> Decoded, stringify: AnalyticsData -> string)
      requires CodecLaws(parse, stringify)
      ensures Valid()
      ensures storage == initial && this.parse == parse && this.stringify == stringify
    {
      this.storage := initial;
      this.parse := parse;
      this.stringify := stringify;
    }

    /** `getAnalyticsData()` at time `now`. */
    function GetAnalyticsData(now: int): (r: Loaded)
      reads this
      ensures AnalyticsKey !in storage || storage[AnalyticsKey] == "" ==> r == Data(DefaultData(now))
      ensures AnalyticsKey in storage && storage[AnalyticsKey] != "" && parse(storage[AnalyticsKey]).Record? ==>
        r == Data(parse(storage[AnalyticsKey]).data)
      ensures AnalyticsKey in storage && storage[AnalyticsKey] != "" && parse(storage[AnalyticsKey]).SyntaxError? ==>
        r == Data(DefaultData(now))
      ensures r.Foreign? <==> AnalyticsKey in storage && storage[AnalyticsKey] != "" && parse(storage[AnalyticsKey]).OtherValue?
    {
      LoadAnalytics(GetItem(storage, AnalyticsKey), parse, now)
    }

    /** `getAnalyticsSummary()` at time `now`. */
    function GetAnalyticsSummary(now: int): (r: Option<Summary>)
      reads this
      ensures AnalyticsKey !in storage || storage[AnalyticsKey] == "" ==> r == Some(Summary(0, 0, [], now, now))
      ensures r.Some? <==> GetAnalyticsData(now).Data?
      ensures GetAnalyticsData(now).Data? ==> r == Some(SummaryOf(GetAnalyticsData(now).data))
    {
      DefaultSummary(now);
      SummaryOfLoaded(GetAnalyticsData(now))
    }

    /** `getVisitorId()`, where a freshly generated id is `visitor_` followed by `randomPart`. */
    method GetVisitorId(randomPart: string) returns (id: string)
      modifies this
      ensures (storage, id) == EnsureVisitorId(old(storage), randomPart)
      ensures old(StoredVisitorId(storage)).Some? ==> id == old(storage)[VisitorKey] && storage == old(storage)
      ensures old(StoredVisitorId(storage)).None? ==>
        id == VisitorPrefix + randomPart && storage == old(storage)[VisitorKey := id]
      ensures StoredVisitorId(storage) == Some(id)
    {
      var stored := GetItem(storage, VisitorKey);
      if stored.Some? && stored.value != "" {
        id := stored.value;
      } else {
        id := VisitorPrefix + randomPart;
        storage := storage[VisitorKey := id];
      }
    }

    /**
     * `trackPageView(page)` at time `now`. When the stored value is a record
     * (or nothing usable, read as the default record), the stored record
     * afterwards is the tracked one; when it is a foreign JSON value, the
     * field access throws, the error is caught, and only the visitor id may
     * have been written.
     */
    method TrackPageView(page: string, randomPart: string, now: int)
      requires Valid()
      modifies this
      ensures storage == TrackedStorage(old(storage), page, randomPart, now, parse, stringify)
      ensures StoredVisitorId(storage).Some?
      ensures old(GetAnalyticsData(now)).Data? ==>
        forall later :: GetAnalyticsData(later) == Data(Track(old(GetAnalyticsData(now)).data, page, now))
      ensures old(GetAnalyticsData(now)).Foreign? ==> GetItem(storage, AnalyticsKey) == old(GetItem(storage, AnalyticsKey))
      ensures forall k :: k != AnalyticsKey && k != VisitorKey ==> GetItem(storage, k) == old(GetItem(storage, k))
    {
      var _ := GetVisitorId(randomPart);
      var loaded := LoadAnalytics(GetItem(storage, AnalyticsKey), parse, now);
      assert loaded == old(GetAnalyticsData(now));
      match loaded {
        case Data(d) =>
          var tracked := Track(d, page, now);
          assert WellFormed(d);
          storage := storage[AnalyticsKey := stringify(tracked)];
          assert parse(stringify(tracked)) == Record(tracked);
        case Foreign =>
      }
    }
  }
}
