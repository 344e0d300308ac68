/**
 * The two aggregations that read the view events directly:
 * `get_grouped_analytics` (distinct blogs `y` and views `z` per country or
 * author, by descending `z`) and `get_top_analytics` (the ten groups with
 * the most views, by descending `y`). Each query is a function of the event
 * table; each endpoint is a method that reads through the shared cache.
 *
 * SQL leaves the order of equal sort keys open; the model fixes one (groups
 * in order of first appearance, then a stable sort that keeps ties in that
 * order).
 */
module LiveAggregates {
  import opened Wrappers
  import opened Models
  import opened Params
  import opened Seqs
  import opened ResultCache
  import QueryFilters
  import CanonicalJson

  /** The views that pass the filters. */
  function Matching(f: FilterDict, events: seq<BlogView>): seq<BlogView> {
    Filter(events, QueryFilters.ViewPredicate(f))
  }

  /** The views of one group. */
  function Members(es: seq<BlogView>, key: BlogView -> Option<string>, g: Option<string>): seq<BlogView> {
    Filter(es, e => key(e) == g)
  }

  function BlogIdOf(e: BlogView): Id { e.blog.id }

  /** `Count("blog", distinct=True)`. */
  function DistinctBlogs(es: seq<BlogView>): (n: nat)
    ensures n <= |es|
  {
    |Image(es, BlogIdOf)|
  }

  function CountryIdOf(e: BlogView): Id {
    if e.country.Some? then e.country.value.id else 0
  }

  predicate HasCountry(e: BlogView) { e.country.Some? }

  /** `Count("country", distinct=True)`: views without a country are not counted. */
  function DistinctCountries(es: seq<BlogView>): (n: nat)
    ensures n <= |es|
  {
    |Image(Filter(es, HasCountry), CountryIdOf)|
  }

  function YOf(r: Row): int { r.y }
  function ZOf(r: Row): int { r.z }

  // ---------------------------------------------------------------------
  // get_grouped_analytics

  /** `country__code` for `object_type == "country"`, otherwise `blog__author__username`. */
  function GroupedKey(objectType: string): BlogView -> Option<string> {
    (e: BlogView) =>
      if objectType == "country" then (if e.country.Some? then Some(e.country.value.code) else None)
      else Some(e.blog.author.username)
  }

  function GroupedRows(es: seq<BlogView>, key: BlogView -> Option<string>): seq<Row> {
    var gs := DistinctValues(es, key);
    seq(|gs|, i requires 0 <= i < |gs| => Row(gs[i], DistinctBlogs(Members(es, key, gs[i])), |Members(es, key, gs[i])|))
  }

  /** The grouped query: one row per group value, by descending `z`. */
  function GroupedAnalytics(objectType: string, f: FilterDict, events: seq<BlogView>): seq<Row> {
    SortDesc(GroupedRows(Matching(f, events), GroupedKey(objectType)), ZOf)
  }

  /** Every row of a grouped answer counts its group. */
  predicate CountsGroups(es: seq<BlogView>, key: BlogView -> Option<string>, r: seq<Row>) {
    forall k :: 0 <= k < |r| ==>
      && r[k].z == |Members(es, key, r[k].x)| >= 1
      && r[k].y == DistinctBlogs(Members(es, key, r[k].x))
  }

  /** Every group of a view in `es` has a row. */
  predicate CoversGroups(es: seq<BlogView>, key: BlogView -> Option<string>, r: seq<Row>) {
    forall e :: e in es ==> exists k :: 0 <= k < |r| && r[k].x == key(e)
  }

  /** No group has two rows. */
  predicate DistinctGroups(r: seq<Row>) {
    forall k, l :: 0 <= k < l < |r| ==> r[k].x != r[l].x
  }

  /**
   * Each row reports its group's view count as `z` and the number of distinct
   * blogs among those views as `y` (so `y <= z`); every group of a matching view
   * has exactly one row; rows come by non-increasing `z`.
   */
  lemma GroupedAnalyticsMeaning(objectType: string, f: FilterDict, events: seq<BlogView>)
    ensures SortedDesc(GroupedAnalytics(objectType, f, events), ZOf)
    ensures CountsGroups(Matching(f, events), GroupedKey(objectType), GroupedAnalytics(objectType, f, events))
    ensures CoversGroups(Matching(f, events), GroupedKey(objectType), GroupedAnalytics(objectType, f, events))
    ensures DistinctGroups(GroupedAnalytics(objectType, f, events))
    ensures forall row :: row in GroupedAnalytics(objectType, f, events) ==> row.y <= row.z
  {
    var es, key := Matching(f, events), GroupedKey(objectType);
    var rows := GroupedRows(es, key);
    var r := SortDesc(rows, ZOf);
    RowsOfGroups(es, key, rows);
    SortedRowsOfGroups(es, key, rows, r);
  }

  lemma {:induction false} SortedRowsOfGroups(es: seq<BlogView>, key: BlogView -> Option<string>, rows: seq<Row>, r: seq<Row>)
    requires multiset(rows) == multiset(r) && NoDup(rows)
    requires forall row :: row in rows ==>
      && row.z == |Members(es, key, row.x)| >= 1
      && row.y == DistinctBlogs(Members(es, key, row.x))
    requires forall g :: g in DistinctValues(es, key) ==> exists j :: 0 <= j < |rows| && rows[j].x == g
    requires forall j, l :: 0 <= j < |rows| && 0 <= l < |rows| && rows[j].x == rows[l].x ==> j == l
    ensures CountsGroups(es, key, r) && CoversGroups(es, key, r) && DistinctGroups(r)
    ensures forall row :: row in r ==> row.y <= row.z
  {
    PermutationKeepsMembers(rows, r);
    PermutationKeepsNoDup(rows, r);
    forall k | 0 <= k < |r|
      ensures r[k].z == |Members(es, key, r[k].x)| >= 1
      ensures r[k].y == DistinctBlogs(Members(es, key, r[k].x))
    {
      assert r[k] in rows;
    }
    forall e | e in es ensures exists k :: 0 <= k < |r| && r[k].x == key(e) {
      var i :| 0 <= i < |es| && es[i] == e;
      assert key(e) in DistinctValues(es, key);
      var j :| 0 <= j < |rows| && rows[j].x == key(e);
      assert rows[j] in r;
    }
    forall k, l | 0 <= k < l < |r| ensures r[k].x != r[l].x {
      assert r[k] in rows && r[l] in rows;
      var a :| 0 <= a < |rows| && rows[a] == r[k];
      var b :| 0 <= b < |rows| && rows[b] == r[l];
      assert r[k] != r[l];
    }
    forall row | row in r ensures row.y <= row.z {
      assert row in rows;
    }
  }

  /** The unsorted rows: one per distinct group, with its counts. */
  lemma RowsOfGroups(es: seq<BlogView>, key: BlogView -> Option<string>, rows: seq<Row>)
    requires rows == GroupedRows(es, key)
    ensures NoDup(rows)
    ensures forall row :: row in rows ==>
      && row.z == |Members(es, key, row.x)| >= 1
      && row.y == DistinctBlogs(Members(es, key, row.x))
    ensures forall g :: g in DistinctValues(es, key) ==> exists j :: 0 <= j < |rows| && rows[j].x == g
    ensures forall j, l :: 0 <= j < |rows| && 0 <= l < |rows| && rows[j].x == rows[l].x ==> j == l
  {
    var gs := DistinctValues(es, key);
    forall row | row in rows
      ensures row.z == |Members(es, key, row.x)| >= 1
    {
      var j :| 0 <= j < |rows| && rows[j] == row;
      assert gs[j] in gs;
      var i :| 0 <= i < |es| && key(es[i]) == gs[j];
      assert es[i] in Members(es, key, gs[j]);
    }
    forall g | g in gs ensures exists j :: 0 <= j < |rows| && rows[j].x == g {
      var j :| 0 <= j < |gs| && gs[j] == g;
      assert rows[j].x == g;
    }
  }

  // ---------------------------------------------------------------------
  // get_top_analytics

  const TopLimit := 10

  predicate ValidTopType(topType: string) {
    topType == "blog" || topType == "user" || topType == "country"
  }

  /** The grouping field of `config[top_type]`. */
  function TopKey(topType: string): BlogView -> Option<string> {
    (e: BlogView) =>
      if topType == "blog" then Some(e.blog.title)
      else if topType == "user" then Some(e.blog.author.username)
      else if e.country.Some? then Some(e.country.value.code) else None
  }

  /** The `z` metric of `config[top_type]`. */
  function TopZ(topType: string, members: seq<BlogView>): nat {
    if topType == "blog" then DistinctCountries(members) else DistinctBlogs(members)
  }

  function TopRows(topType: string, es: seq<BlogView>): seq<Row> {
    var key := TopKey(topType);
    var gs := DistinctValues(es, key);
    seq(|gs|, i requires 0 <= i < |gs| => Row(gs[i], |Members(es, key, gs[i])|, TopZ(topType, Members(es, key, gs[i]))))
  }

  /** The top query: groups by descending view count `y`, the first ten. */
  function TopAnalytics(topType: string, f: FilterDict, events: seq<BlogView>): seq<Row>
    requires ValidTopType(topType)
  {
    var sorted := SortDesc(TopRows(topType, Matching(f, events)), YOf);
    sorted[..if |sorted| < TopLimit then |sorted| else TopLimit]
  }

  /** Every row of a top answer reports its group's views as `y` and its kind's metric as `z`. */
  predicate CountsTop(topType: string, es: seq<BlogView>, r: seq<Row>) {
    forall k :: 0 <= k < |r| ==>
      && r[k].y == |Members(es, TopKey(topType), r[k].x)| >= 1
      && r[k].z == TopZ(topType, Members(es, TopKey(topType), r[k].x))
  }

  /** A group without a row only happens once ten rows are full, and it has no more views than any of them. */
  predicate LeftOutHaveFewer(topType: string, es: seq<BlogView>, r: seq<Row>) {
    forall e :: e in es && (forall k :: 0 <= k < |r| ==> r[k].x != TopKey(topType)(e)) ==>
      && |r| == TopLimit
      && forall k :: 0 <= k < |r| ==> |Members(es, TopKey(topType), TopKey(topType)(e))| <= r[k].y
  }

  /**
   * At most ten rows, by non-increasing `y`; each row's `y` is its group's view
   * count and `z` the metric of its kind; a matching group left out has no more
   * views than any row returned (so nothing is left out when there are at
   * most ten groups); no group has two rows.
   */
  lemma TopAnalyticsMeaning(topType: string, f: FilterDict, events: seq<BlogView>)
    requires ValidTopType(topType)
    ensures |TopAnalytics(topType, f, events)| <= TopLimit
    ensures SortedDesc(TopAnalytics(topType, f, events), YOf)
    ensures CountsTop(topType, Matching(f, events), TopAnalytics(topType, f, events))
    ensures LeftOutHaveFewer(topType, Matching(f, events), TopAnalytics(topType, f, events))
    ensures DistinctGroups(TopAnalytics(topType, f, events))
  {
    var es := Matching(f, events);
    var rows := TopRows(topType, es);
    var sorted := SortDesc(rows, YOf);
    var n := if |sorted| < TopLimit then |sorted| else TopLimit;
    TopRowsOfGroups(topType, es, rows);
    TopPrefix(topType, es, rows, sorted, n);
    TopRowsDistinct(topType, es);
    PermutedGroupsDistinct(rows, sorted);
    PrefixDistinctGroups(sorted, n);
  }

  /** The unsorted top rows have one row per group. */
  lemma TopRowsDistinct(topType: string, es: seq<BlogView>)
    ensures DistinctGroups(TopRows(topType, es))
  {
    var gs := DistinctValues(es, TopKey(topType));
    var rows := TopRows(topType, es);
    forall k, l | 0 <= k < l < |rows| ensures rows[k].x != rows[l].x {
      assert rows[k].x == gs[k] && rows[l].x == gs[l];
    }
  }

  /** Reordering rows keeps their groups distinct. */
  lemma PermutedGroupsDistinct(rows: seq<Row>, r: seq<Row>)
    requires multiset(rows) == multiset(r) && DistinctGroups(rows)
    ensures DistinctGroups(r)
  {
    assert NoDup(rows) by {
      forall i, j | 0 <= i < j < |rows| ensures rows[i] != rows[j] {
        assert rows[i].x != rows[j].x;
      }
    }
    PermutationKeepsMembers(rows, r);
    PermutationKeepsNoDup(rows, r);
    forall k, l | 0 <= k < l < |r| ensures r[k].x != r[l].x {
      assert r[k] in rows && r[l] in rows;
      var a :| 0 <= a < |rows| && rows[a] == r[k];
      var b :| 0 <= b < |rows| && rows[b] == r[l];
      assert r[k] != r[l];
      if a < b { assert rows[a].x != rows[b].x; } else { assert rows[b].x != rows[a].x; }
    }
  }

  /** A prefix of rows with distinct groups has distinct groups. */
  lemma PrefixDistinctGroups(s: seq<Row>, n: nat)
    requires DistinctGroups(s) && n <= |s|
    ensures DistinctGroups(s[..n])
  {
    forall k, l | 0 <= k < l < n ensures s[..n][k].x != s[..n][l].x {
      assert s[..n][k] == s[k] && s[..n][l] == s[l];
    }
  }

  /** Every row of the unsorted top rows reports its group's views and metric. */
  predicate RowsCountTop(topType: string, es: seq<BlogView>, rows: seq<Row>) {
    forall row :: row in rows ==>
      && row.y == |Members(es, TopKey(topType), row.x)| >= 1
      && row.z == TopZ(topType, Members(es, TopKey(topType), row.x))
  }

  /** Every matching view's group has a row. */
  predicate RowsCoverTop(topType: string, es: seq<BlogView>, rows: seq<Row>) {
    forall e :: e in es ==> exists j :: 0 <= j < |rows| && rows[j].x == TopKey(topType)(e) && rows[j].y == |Members(es, TopKey(topType), rows[j].x)|
  }

  lemma TopPrefix(topType: string, es: seq<BlogView>, rows: seq<Row>, sorted: seq<Row>, n: nat)
    requires multiset(rows) == multiset(sorted) && SortedDesc(sorted, YOf)
    requires n == if |sorted| < TopLimit then |sorted| else TopLimit
    requires RowsCountTop(topType, es, rows) && RowsCoverTop(topType, es, rows)
    ensures SortedDesc(sorted[..n], YOf)
    ensures CountsTop(topType, es, sorted[..n])
    ensures LeftOutHaveFewer(topType, es, sorted[..n])
  {
    PermutationKeepsMembers(rows, sorted);
    PrefixSortedDesc(sorted, n);
    TopPrefixCounts(topType, es, rows, sorted, n);
    TopPrefixLeftOut(topType, es, rows, sorted, n);
  }

  lemma PrefixSortedDesc(s: seq<Row>, n: nat)
    requires SortedDesc(s, YOf) && n <= |s|
    ensures SortedDesc(s[..n], YOf)
  {
    forall i, j | 0 <= i < j < n ensures YOf(s[..n][i]) >= YOf(s[..n][j]) {
      assert s[..n][i] == s[i] && s[..n][j] == s[j];
    }
  }

  lemma TopPrefixCounts(topType: string, es: seq<BlogView>, rows: seq<Row>, sorted: seq<Row>, n: nat)
    requires forall x :: x in rows <==> x in sorted
    requires n <= |sorted| && RowsCountTop(topType, es, rows)
    ensures CountsTop(topType, es, sorted[..n])
  {
    var r := sorted[..n];
    forall k | 0 <= k < |r|
      ensures r[k].y == |Members(es, TopKey(topType), r[k].x)| >= 1
      ensures r[k].z == TopZ(topType, Members(es, TopKey(topType), r[k].x))
    {
      assert r[k] == sorted[k];
      assert sorted[k] in rows;
    }
  }

  lemma TopPrefixLeftOut(topType: string, es: seq<BlogView>, rows: seq<Row>, sorted: seq<Row>, n: nat)
    requires forall x :: x in rows <==> x in sorted
    requires SortedDesc(sorted, YOf)
    requires n == if |sorted| < TopLimit then |sorted| else TopLimit
    requires RowsCoverTop(topType, es, rows)
    ensures LeftOutHaveFewer(topType, es, sorted[..n])
  {
    var key := TopKey(topType);
    var r := sorted[..n];
    forall e | e in es && (forall k :: 0 <= k < |r| ==> r[k].x != key(e))
      ensures |r| == TopLimit && forall k :: 0 <= k < |r| ==> |Members(es, key, key(e))| <= r[k].y
    {
      var j :| 0 <= j < |rows| && rows[j].x == key(e) && rows[j].y == |Members(es, key, rows[j].x)|;
      assert rows[j] in sorted;
      var m :| 0 <= m < |sorted| && sorted[m] == rows[j];
      assert forall k :: 0 <= k < n ==> sorted[k] == r[k];
      assert m >= n;
      forall k | 0 <= k < |r| ensures |Members(es, key, key(e))| <= r[k].y {
        assert r[k] == sorted[k];
        assert YOf(sorted[k]) >= YOf(sorted[m]);
      }
    }
  }

  lemma TopRowsOfGroups(topType: string, es: seq<BlogView>, rows: seq<Row>)
    requires rows == TopRows(topType, es)
    ensures RowsCountTop(topType, es, rows)
    ensures RowsCoverTop(topType, es, rows)
  {
    var key := TopKey(topType);
    var gs := DistinctValues(es, key);
    forall row | row in rows
      ensures row.y == |Members(es, key, row.x)| >= 1
    {
      var j :| 0 <= j < |rows| && rows[j] == row;
      assert gs[j] in gs;
      var i :| 0 <= i < |es| && key(es[i]) == gs[j];
      assert es[i] in Members(es, key, gs[j]);
    }
    forall e | e in es ensures exists j :: 0 <= j < |rows| && rows[j].x == key(e) && rows[j].y == |Members(es, key, rows[j].x)| {
      var i :| 0 <= i < |es| && es[i] == e;
      assert key(e) in gs;
      var j :| 0 <= j < |gs| && gs[j] == key(e);
      assert rows[j].x == key(e);
    }
  }

  // ---------------------------------------------------------------------
  // The endpoints, reading through the cache

  function GroupedCacheKey(hash: CanonicalJson.Json -> string, prefix: string, kind: string, f: FilterDict): string {
    CacheKey(hash, prefix, [CanonicalJson.Member("type", CanonicalJson.JStr(kind)), CanonicalJson.Member("filters", ToJson(f))])
  }

  /** A truthy cached list of rows under `key`, if there is one. */
  function CachedRows(entries: map<string, Cached>, key: string): Option<seq<Row>> {
    if key in entries && entries[key].Rows? && entries[key].rows != [] then Some(entries[key].rows) else None
  }

  /** `get_grouped_analytics`: a cached non-empty answer, else the query's answer, stored. */
  method GetGroupedAnalytics(cache: Cache, hash: CanonicalJson.Json -> string, objectType: string, f: FilterDict, events: seq<BlogView>)
    returns (data: seq<Row>)
    modifies cache
    ensures var key := GroupedCacheKey(hash, "grouped", objectType, f);
      match CachedRows(old(cache.entries), key)
      case Some(hit) => data == hit && cache.entries == old(cache.entries)
      case None =>
        data == GroupedAnalytics(objectType, f, events) && cache.entries == old(cache.entries)[key := Rows(data)]
  {
    var key := GroupedCacheKey(hash, "grouped", objectType, f);
    var cached := cache.Get(key);
    if cached.Some? && cached.value.Rows? && cached.value.rows != [] {
      return cached.value.rows;
    }
    data := GroupedAnalytics(objectType, f, events);
    cache.Set(key, Rows(data));
  }

  /** `get_top_analytics`, reading through the cache the same way. */
  method GetTopAnalytics(cache: Cache, hash: CanonicalJson.Json -> string, topType: string, f: FilterDict, events: seq<BlogView>)
    returns (data: seq<Row>)
    requires ValidTopType(topType)
    modifies cache
    ensures var key := GroupedCacheKey(hash, "top", topType, f);
      match CachedRows(old(cache.entries), key)
      case Some(hit) => data == hit && cache.entries == old(cache.entries)
      case None =>
        data == TopAnalytics(topType, f, events) && cache.entries == old(cache.entries)[key := Rows(data)]
  {
    var key := GroupedCacheKey(hash, "top", topType, f);
    var cached := cache.Get(key);
    if cached.Some? && cached.value.Rows? && cached.value.rows != [] {
      return cached.value.rows;
    }
    data := TopAnalytics(topType, f, events);
    cache.Set(key, Rows(data));
  }
}
