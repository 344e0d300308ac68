/**
 * `get_grouped_analytics_fast`: the grouped answer read from the daily
 * summary table instead of the events. `z` sums `total_views` per group;
 * `y` is overwritten by the number of distinct blogs over the group's days,
 * read from the HyperLogLog counters when they are enabled and reachable, and
 * from the union of the stored `blog_ids` otherwise or when the counter gives 0.
 * `pfcount` is a parameter: a count, or `None` when the call raises.
 */
module FastPath {
  import opened Wrappers
  import opened Seqs
  import opened Models
  import opened Params
  import opened ResultCache
  import Calendar
  import Text
  import CanonicalJson
  import QueryFilters
  import LiveAggregates

  /** `country__code` when grouping by country, `author__username` otherwise. */
  function GroupOf(dir: Directory, objectType: string): Summary -> Option<string> {
    (s: Summary) => if objectType == "country" then CountryCode(dir, s.countryId) else AuthorName(dir, s.authorId)
  }

  function Keep(dir: Directory, objectType: string, f: FilterDict): Summary -> bool {
    (s: Summary) => QueryFilters.SummaryPredicate(dir, f)(s) && GroupOf(dir, objectType)(s).Some?
  }

  /** `filter(_build_summary_filters(f)).filter(<group>__isnull=False)`. */
  function Selected(dir: Directory, objectType: string, f: FilterDict, table: seq<Summary>): seq<Summary> {
    Filter(table, Keep(dir, objectType, f))
  }

  function InGroup(group: Summary -> Option<string>, g: Option<string>): Summary -> bool {
    (s: Summary) => group(s) == g
  }

  /** The rows of one group. */
  function GroupRows(rows: seq<Summary>, group: Summary -> Option<string>, g: Option<string>): seq<Summary> {
    Filter(rows, InGroup(group, g))
  }

  function UniqueBlogsOf(s: Summary): int { s.uniqueBlogs }
  function TotalViewsOf(s: Summary): int { s.totalViews }

  /** `values(x=F(group)).annotate(y=Sum("unique_blogs"), z=Sum("total_views"))`. */
  function SumRows(rows: seq<Summary>, group: Summary -> Option<string>): seq<Row> {
    var gs := DistinctValues(rows, group);
    seq(|gs|, i requires 0 <= i < |gs| =>
      Row(gs[i], Sum(GroupRows(rows, group, gs[i]), UniqueBlogsOf), Sum(GroupRows(rows, group, gs[i]), TotalViewsOf)))
  }

  /** The aggregated rows by descending `z`, before `y` is replaced. */
  function SummedData(rows: seq<Summary>, group: Summary -> Option<string>): seq<Row> {
    SortDesc(SumRows(rows, group), LiveAggregates.ZOf)
  }

  // ---------------------------------------------------------------------
  // Exact distinct blogs: the union of `blog_ids`

  /** The distinct blogs of a group over all its rows (a null `blog_ids` adds none). */
  function GroupUnion(rows: seq<Summary>, group: Summary -> Option<string>, g: Option<string>): set<Id> {
    UnionOver(GroupRows(rows, group, g), BlogIdsOrEmpty)
  }

  lemma GroupUnionAppend(rows: seq<Summary>, x: Summary, group: Summary -> Option<string>, g: Option<string>)
    ensures GroupUnion(rows + [x], group, g) == GroupUnion(rows, group, g) + (if group(x) == g then BlogIdsOrEmpty(x) else {})
  {
    var gr := GroupRows(rows, group, g);
    FilterAppend(rows, x, InGroup(group, g));
    if group(x) == g {
      assert GroupRows(rows + [x], group, g) == gr + [x];
      UnionOverAppend(gr, x, BlogIdsOrEmpty);
    } else {
      assert GroupRows(rows + [x], group, g) == gr;
    }
  }

  /** `union_map.get(g, set())`. */
  function UnionFor(m: map<Option<string>, set<Id>>, g: Option<string>): set<Id> {
    if g in m then m[g] else {}
  }

  /** `m` is `union_map` after the first `i` rows: a key per group seen, holding that group's union. */
  ghost predicate UnionMapAfter(rows: seq<Summary>, i: nat, group: Summary -> Option<string>, m: map<Option<string>, set<Id>>)
    requires i <= |rows|
  {
    && (forall g :: g in m <==> exists j :: 0 <= j < i && group(rows[j]) == g)
    && forall g :: UnionFor(m, g) == GroupUnion(rows[..i], group, g)
  }

  /** The `union_map` loop: `union_map.setdefault(key, set()).update(blog_ids or [])` per row. */
  method ExactUnionMap(rows: seq<Summary>, group: Summary -> Option<string>) returns (m: map<Option<string>, set<Id>>)
    ensures forall g :: g in m <==> exists i :: 0 <= i < |rows| && group(rows[i]) == g
    ensures forall g :: UnionFor(m, g) == GroupUnion(rows, group, g)
  {
    m := map[];
    var i := 0;
    while i < |rows|
      invariant 0 <= i <= |rows|
      invariant UnionMapAfter(rows, i, group, m)
    {
      var key := group(rows[i]);
      ghost var before := m;
      m := m[key := UnionFor(m, key) + BlogIdsOrEmpty(rows[i])];
      UnionStep(rows, i, group, before, m);
      i := i + 1;
    }
    assert rows[..|rows|] == rows;
  }

  /** One more row adds its `blog_ids` to its own group's union and to no other. */
  lemma UnionStep(rows: seq<Summary>, i: nat, group: Summary -> Option<string>,
                  before: map<Option<string>, set<Id>>, after: map<Option<string>, set<Id>>)
    requires i < |rows| && UnionMapAfter(rows, i, group, before)
    requires after == before[group(rows[i]) := UnionFor(before, group(rows[i])) + BlogIdsOrEmpty(rows[i])]
    ensures UnionMapAfter(rows, i + 1, group, after)
  {
    forall g ensures g in after <==> exists j :: 0 <= j < i + 1 && group(rows[j]) == g {
      if g == group(rows[i]) {
        assert 0 <= i < i + 1 && group(rows[i]) == g;
      } else {
        assert g in after <==> g in before;
      }
    }
    TakeSnoc(rows, i);
    forall g ensures UnionFor(after, g) == GroupUnion(rows[..i + 1], group, g) {
      GroupUnionAppend(rows[..i], rows[i], group, g);
    }
  }

  /** `y` is the size of the union of its group's `blog_ids`; with `only_zero`, only where `y` is 0. */
  method FillExactY(data: seq<Row>, m: map<Option<string>, set<Id>>, onlyZero: bool) returns (out: seq<Row>)
    ensures |out| == |data|
    ensures forall k :: 0 <= k < |data| ==>
      out[k] == if !onlyZero || data[k].y == 0 then data[k].(y := |UnionFor(m, data[k].x)|) else data[k]
  {
    out := data;
    var k := 0;
    while k < |out|
      invariant 0 <= k <= |out| == |data|
      invariant forall j :: 0 <= j < k ==>
        out[j] == if !onlyZero || data[j].y == 0 then data[j].(y := |UnionFor(m, data[j].x)|) else data[j]
      invariant forall j :: k <= j < |out| ==> out[j] == data[j]
    {
      if !onlyZero || out[k].y == 0 {
        out := out[k := out[k].(y := |UnionFor(m, out[k].x)|)];
      }
      k := k + 1;
    }
  }

  // ---------------------------------------------------------------------
  // Approximate distinct blogs: PFCOUNT over the group's daily counters

  /** `{id or 'all'}`: a missing or zero id renders as `all`. */
  function IdText(id: Option<Id>): string {
    if id.None? || id.value == 0 then "all" else Text.NatText(id.value)
  }

  /** The counter key the fast path reads for a summary row (date, country id, author id). */
  function SummaryHllKey(date: Calendar.Date, countryId: Option<Id>, authorId: Option<Id>): string {
    "analytics:hll:" + Calendar.IsoDate(date) + ":" + IdText(countryId) + ":" + IdText(authorId)
  }

  /** The keys of a group's rows, in row order. */
  function HllKeysOf(rows: seq<Summary>, group: Summary -> Option<string>, g: Option<string>): (ks: seq<string>)
    ensures |ks| == Count(rows, InGroup(group, g))
  {
    if rows == [] then []
    else
      var last := rows[|rows| - 1];
      var init := rows[..|rows| - 1];
      assert rows == init + [last];
      FilterAppend(init, last, InGroup(group, g));
      HllKeysOf(init, group, g) + (if group(last) == g then [SummaryHllKey(last.date, last.countryId, last.authorId)] else [])
  }

  lemma HllKeysOfSnoc(rows: seq<Summary>, x: Summary, group: Summary -> Option<string>, g: Option<string>)
    ensures HllKeysOf(rows + [x], group, g)
         == HllKeysOf(rows, group, g) + (if group(x) == g then [SummaryHllKey(x.date, x.countryId, x.authorId)] else [])
  {
    assert (rows + [x])[..|rows + [x]| - 1] == rows;
  }

  /** `group_hll_keys.get(g) or []`. */
  function KeysFor(m: map<Option<string>, seq<string>>, g: Option<string>): seq<string> {
    if g in m then m[g] else []
  }

  /** The `group_hll_keys` loop: one key appended per row, under the row's group. */
  method GroupHllKeys(rows: seq<Summary>, group: Summary -> Option<string>, groupKeys: set<Option<string>>)
    returns (m: map<Option<string>, seq<string>>)
    requires forall r :: r in rows ==> group(r) in groupKeys
    ensures forall g :: g in m <==> g in groupKeys
    ensures forall g :: g in groupKeys ==> m[g] == HllKeysOf(rows, group, g)
  {
    m := map g | g in groupKeys :: [];
    var i := 0;
    while i < |rows|
      invariant 0 <= i <= |rows|
      invariant forall g :: g in m <==> g in groupKeys
      invariant forall g :: g in groupKeys ==> m[g] == HllKeysOf(rows[..i], group, g)
    {
      var r := rows[i];
      assert rows[..i + 1] == rows[..i] + [r];
      var gv := group(r);
      var key := SummaryHllKey(r.date, r.countryId, r.authorId);
      m := m[gv := m[gv] + [key]];
      forall g | g in groupKeys ensures m[g] == HllKeysOf(rows[..i + 1], group, g) {
        HllKeysOfSnoc(rows[..i], r, group, g);
      }
      i := i + 1;
    }
    assert rows[..|rows|] == rows;
  }

  /** `int(redis_conn.pfcount(*keys))`, or 0 when there are no keys or the call raises. */
  function HllY(pfcount: seq<string> -> Option<nat>, keys: seq<string>): nat {
    if keys == [] then 0
    else match pfcount(keys)
      case Some(n) => n
      case None => 0
  }

  /** The PFCOUNT loop over `data`. */
  method FillHllY(data: seq<Row>, m: map<Option<string>, seq<string>>, pfcount: seq<string> -> Option<nat>)
    returns (out: seq<Row>)
    ensures |out| == |data|
    ensures forall k :: 0 <= k < |data| ==> out[k] == data[k].(y := HllY(pfcount, KeysFor(m, data[k].x)))
  {
    out := data;
    var k := 0;
    while k < |out|
      invariant 0 <= k <= |out| == |data|
      invariant forall j :: 0 <= j < k ==> out[j] == data[j].(y := HllY(pfcount, KeysFor(m, data[j].x)))
      invariant forall j :: k <= j < |out| ==> out[j] == data[j]
    {
      var keys := KeysFor(m, out[k].x);
      if keys != [] {
        match pfcount(keys)
        case Some(approx) =>
          out := out[k := out[k].(y := approx)];
        case None =>
          out := out[k := out[k].(y := 0)];
      } else {
        out := out[k := out[k].(y := 0)];
      }
      k := k + 1;
    }
  }

  // ---------------------------------------------------------------------
  // The whole query

  /** The `y` a group ends with: the counter's value when HLL is on and it is non-zero, else the exact union. */
  function FinalY(useHll: bool, redisUp: bool, pfcount: seq<string> -> Option<nat>,
                  rows: seq<Summary>, group: Summary -> Option<string>, g: Option<string>): nat {
    var exact := |GroupUnion(rows, group, g)|;
    if useHll && redisUp then
      var h := HllY(pfcount, HllKeysOf(rows, group, g));
      if h == 0 then exact else h
    else exact
  }

  /** The fast grouped query: nothing for an empty table, else the summed rows with `y` replaced. */
  function FastAnalytics(objectType: string, f: FilterDict, dir: Directory, table: seq<Summary>,
                         useHll: bool, redisUp: bool, pfcount: seq<string> -> Option<nat>): seq<Row> {
    if table == [] then []
    else
      var rows := Selected(dir, objectType, f, table);
      var group := GroupOf(dir, objectType);
      WithFinalY(SummedData(rows, group), useHll, redisUp, pfcount, rows, group)
  }

  /** Every summed row with its `y` replaced by its group's distinct-blog count. */
  function WithFinalY(data: seq<Row>, useHll: bool, redisUp: bool, pfcount: seq<string> -> Option<nat>,
                      rows: seq<Summary>, group: Summary -> Option<string>): seq<Row> {
    seq(|data|, k requires 0 <= k < |data| => data[k].(y := FinalY(useHll, redisUp, pfcount, rows, group, data[k].x)))
  }

  /** `g` is the group of some selected row. */
  predicate IsGroupOf(rows: seq<Summary>, group: Summary -> Option<string>, g: Option<string>) {
    exists i :: 0 <= i < |rows| && group(rows[i]) == g
  }

  /** An aggregated row names a group of `rows` and carries that group's summed `total_views`. */
  predicate SumsGroup(rows: seq<Summary>, group: Summary -> Option<string>, row: Row) {
    IsGroupOf(rows, group, row.x) && row.z == Sum(GroupRows(rows, group, row.x), TotalViewsOf)
  }

  /** No two distinct rows of `d` share a group. */
  predicate OneRowPerGroup(d: seq<Row>) {
    forall a, b :: a in d && b in d && a.x == b.x ==> a == b
  }

  /** Every selected row's group has a row in `d`. */
  predicate CoversGroups(rows: seq<Summary>, group: Summary -> Option<string>, d: seq<Row>) {
    forall s :: s in rows ==> exists row :: row in d && row.x == group(s)
  }

  lemma SumRowsMeaning(rows: seq<Summary>, group: Summary -> Option<string>)
    ensures var raw := SumRows(rows, group);
      && (forall row :: row in raw ==> SumsGroup(rows, group, row))
      && NoDup(raw) && OneRowPerGroup(raw) && CoversGroups(rows, group, raw)
  {
    var gs := DistinctValues(rows, group);
    var raw := SumRows(rows, group);
    forall row | row in raw ensures SumsGroup(rows, group, row) {
      var a :| 0 <= a < |raw| && raw[a] == row;
      assert gs[a] in gs;
    }
    forall a, b | 0 <= a < b < |raw| ensures raw[a] != raw[b] && raw[a].x != raw[b].x {
      assert raw[a].x == gs[a] && raw[b].x == gs[b];
    }
    forall p, q | p in raw && q in raw && p.x == q.x ensures p == q {
      var a :| 0 <= a < |raw| && raw[a] == p;
      var b :| 0 <= b < |raw| && raw[b] == q;
      assert raw[a].x == raw[b].x;
    }
    forall s | s in rows ensures exists row :: row in raw && row.x == group(s) {
      var i :| 0 <= i < |rows| && rows[i] == s;
      assert group(rows[i]) in gs;
      var a :| 0 <= a < |gs| && gs[a] == group(rows[i]);
      assert raw[a] in raw;
    }
  }

  /** Every aggregated row is a selected group, once, with its `total_views` summed; every selected group has one. */
  lemma SummedDataMeaning(rows: seq<Summary>, group: Summary -> Option<string>)
    ensures var data := SummedData(rows, group);
      && SortedDesc(data, LiveAggregates.ZOf)
      && (forall row :: row in data ==> SumsGroup(rows, group, row))
      && (forall k, l :: 0 <= k < l < |data| ==> data[k].x != data[l].x)
      && CoversGroups(rows, group, data)
  {
    var raw := SumRows(rows, group);
    SumRowsMeaning(rows, group);
    SortedKeepsGroups(rows, group, raw, SummedData(rows, group));
  }

  lemma SortedKeepsGroups(rows: seq<Summary>, group: Summary -> Option<string>, raw: seq<Row>, data: seq<Row>)
    requires multiset(data) == multiset(raw)
    requires forall row :: row in raw ==> SumsGroup(rows, group, row)
    requires NoDup(raw) && OneRowPerGroup(raw) && CoversGroups(rows, group, raw)
    ensures forall row :: row in data ==> SumsGroup(rows, group, row)
    ensures forall k, l :: 0 <= k < l < |data| ==> data[k].x != data[l].x
    ensures CoversGroups(rows, group, data)
  {
    PermutationKeepsMembers(raw, data);
    PermutationKeepsNoDup(raw, data);
    forall k, l | 0 <= k < l < |data| ensures data[k].x != data[l].x {
      assert data[k] in raw && data[l] in raw;
      assert data[k] != data[l];
    }
    forall s | s in rows ensures exists row :: row in data && row.x == group(s) {
      var row :| row in raw && row.x == group(s);
      assert row in data;
    }
  }

  /**
   * No row has a null group, groups are distinct, every group is that of a
   * selected summary row and every selected summary row's group has a row, `z` is the group's total views and the order is by
   * non-increasing `z`; `y` is the group's final distinct-blog count.
   */
  lemma FastAnalyticsMeaning(objectType: string, f: FilterDict, dir: Directory, table: seq<Summary>,
                             useHll: bool, redisUp: bool, pfcount: seq<string> -> Option<nat>)
    ensures table == [] ==> FastAnalytics(objectType, f, dir, table, useHll, redisUp, pfcount) == []
    ensures var r := FastAnalytics(objectType, f, dir, table, useHll, redisUp, pfcount);
      var rows := Selected(dir, objectType, f, table); var group := GroupOf(dir, objectType);
      && SortedDesc(r, LiveAggregates.ZOf)
      && (forall k, l :: 0 <= k < l < |r| ==> r[k].x != r[l].x)
      && (forall k :: 0 <= k < |r| ==>
            && r[k].x.Some? && IsGroupOf(rows, group, r[k].x)
            && r[k].z == Sum(GroupRows(rows, group, r[k].x), TotalViewsOf)
            && r[k].y == FinalY(useHll, redisUp, pfcount, rows, group, r[k].x))
      && (table != [] ==> forall s :: s in rows ==> exists k :: 0 <= k < |r| && r[k].x == group(s))
  {
    if table != [] {
      var rows := Selected(dir, objectType, f, table);
      var group := GroupOf(dir, objectType);
      var data := SummedData(rows, group);
      var r := FastAnalytics(objectType, f, dir, table, useHll, redisUp, pfcount);
      SummedDataMeaning(rows, group);
      SelectedGroupsPresent(dir, objectType, f, table);
      ReplacedYKeepsGroups(rows, group, data, r);
    }
  }

  /** Every selected row has a non-null group. */
  lemma SelectedGroupsPresent(dir: Directory, objectType: string, f: FilterDict, table: seq<Summary>)
    ensures forall s :: s in Selected(dir, objectType, f, table) ==> GroupOf(dir, objectType)(s).Some?
  {
  }

  /** Rewriting `y` keeps the order, the groups and the sums of the aggregated rows. */
  lemma ReplacedYKeepsGroups(rows: seq<Summary>, group: Summary -> Option<string>, data: seq<Row>, r: seq<Row>)
    requires forall s :: s in rows ==> group(s).Some?
    requires SortedDesc(data, LiveAggregates.ZOf)
    requires forall row :: row in data ==> SumsGroup(rows, group, row)
    requires forall k, l :: 0 <= k < l < |data| ==> data[k].x != data[l].x
    requires CoversGroups(rows, group, data)
    requires |r| == |data| && forall k :: 0 <= k < |r| ==> r[k].x == data[k].x && r[k].z == data[k].z
    ensures SortedDesc(r, LiveAggregates.ZOf)
    ensures forall k, l :: 0 <= k < l < |r| ==> r[k].x != r[l].x
    ensures forall k :: 0 <= k < |r| ==>
      IsGroupOf(rows, group, r[k].x) && r[k].x.Some? && r[k].z == Sum(GroupRows(rows, group, r[k].x), TotalViewsOf)
    ensures forall s :: s in rows ==> exists k :: 0 <= k < |r| && r[k].x == group(s)
  {
    forall k | 0 <= k < |r|
      ensures IsGroupOf(rows, group, r[k].x) && r[k].x.Some? && r[k].z == Sum(GroupRows(rows, group, r[k].x), TotalViewsOf)
    {
      assert data[k] in data;
      assert SumsGroup(rows, group, data[k]);
      var i :| 0 <= i < |rows| && group(rows[i]) == data[k].x;
      assert rows[i] in rows;
    }
    assert SortedDesc(r, LiveAggregates.ZOf) by {
      forall i, j | 0 <= i < j < |r| ensures LiveAggregates.ZOf(r[i]) >= LiveAggregates.ZOf(r[j]) {
        assert LiveAggregates.ZOf(data[i]) >= LiveAggregates.ZOf(data[j]);
      }
    }
    forall s | s in rows ensures exists k :: 0 <= k < |r| && r[k].x == group(s) {
      var row :| row in data && row.x == group(s);
      var k :| 0 <= k < |data| && data[k] == row;
      assert r[k].x == group(s);
    }
  }

  /** With HLL off or Redis unreachable, `y` is the exact union of the group's `blog_ids`. */
  lemma ExactWithoutHll(useHll: bool, redisUp: bool, pfcount: seq<string> -> Option<nat>,
                        rows: seq<Summary>, group: Summary -> Option<string>, g: Option<string>)
    requires !useHll || !redisUp
    ensures FinalY(useHll, redisUp, pfcount, rows, group, g) == |GroupUnion(rows, group, g)|
  {
  }

  /** When PFCOUNT raises (or the group has no counter keys), the group falls back to the exact union. */
  lemma FailedCountFallsBack(useHll: bool, redisUp: bool, pfcount: seq<string> -> Option<nat>,
                             rows: seq<Summary>, group: Summary -> Option<string>, g: Option<string>)
    requires HllKeysOf(rows, group, g) == [] || pfcount(HllKeysOf(rows, group, g)).None?
    ensures FinalY(useHll, redisUp, pfcount, rows, group, g) == |GroupUnion(rows, group, g)|
  {
  }

  /** With HLL on, a non-zero counter value is taken as it is. */
  lemma CountTakenWhenPositive(pfcount: seq<string> -> Option<nat>,
                               rows: seq<Summary>, group: Summary -> Option<string>, g: Option<string>)
    requires HllKeysOf(rows, group, g) != []
    requires pfcount(HllKeysOf(rows, group, g)).Some? && pfcount(HllKeysOf(rows, group, g)).value > 0
    ensures FinalY(true, true, pfcount, rows, group, g) == pfcount(HllKeysOf(rows, group, g)).value
  {
  }

  /**
   * When each row's `unique_blogs` is the size of its `blog_ids` (as the
   * pre-computation writes them), the exact `y` never exceeds the summed
   * per-day counts it replaces, and is strictly smaller once a blog occurs on
   * two of the group's rows.
   */
  lemma UnionAtMostSummedCounts(rows: seq<Summary>, group: Summary -> Option<string>, g: Option<string>)
    requires forall i :: 0 <= i < |rows| ==> rows[i].uniqueBlogs == |BlogIdsOrEmpty(rows[i])|
    ensures |GroupUnion(rows, group, g)| <= Sum(GroupRows(rows, group, g), UniqueBlogsOf)
    ensures forall i, j, b ::
      (0 <= i < j < |GroupRows(rows, group, g)| && b in BlogIdsOrEmpty(GroupRows(rows, group, g)[i])
       && b in BlogIdsOrEmpty(GroupRows(rows, group, g)[j])) ==>
      |GroupUnion(rows, group, g)| < Sum(GroupRows(rows, group, g), UniqueBlogsOf)
  {
    var gr := GroupRows(rows, group, g);
    forall i | 0 <= i < |gr| ensures UniqueBlogsOf(gr[i]) == SizeOf(BlogIdsOrEmpty)(gr[i]) {
      assert gr[i] in rows;
    }
    SumPointwise(gr, UniqueBlogsOf, SizeOf(BlogIdsOrEmpty));
    UnionSizeAtMostSum(gr, BlogIdsOrEmpty);
    forall i, j, b | 0 <= i < j < |gr| && b in BlogIdsOrEmpty(gr[i]) && b in BlogIdsOrEmpty(gr[j])
      ensures |GroupUnion(rows, group, g)| < Sum(gr, UniqueBlogsOf)
    {
      SharedMemberShrinksUnion(gr, BlogIdsOrEmpty, i, j, b);
    }
  }

  /** Blog A viewed on two days and blog B on the first: two distinct blogs, where the summed counts say three. */
  lemma TwoDaysExample(d1: Calendar.Date, d2: Calendar.Date, country: Id, author: Id, a: Id, b: Id)
    requires d1 != d2 && a != b
    ensures var rows := [Summary(Some(1), d1, Some(country), Some(author), 2, 2, Some({a, b})),
                         Summary(Some(2), d2, Some(country), Some(author), 1, 1, Some({a}))];
      |UnionOver(rows, BlogIdsOrEmpty)| == 2 && Sum(rows, UniqueBlogsOf) == 3
  {
    var rows := [Summary(Some(1), d1, Some(country), Some(author), 2, 2, Some({a, b})),
                 Summary(Some(2), d2, Some(country), Some(author), 1, 1, Some({a}))];
    assert rows[1..] == [rows[1]] && rows[1..][1..] == [];
    assert UnionOver(rows, BlogIdsOrEmpty) == {a, b} + ({a} + {});
    assert {a, b} + ({a} + {}) == {a, b};
    assert |{a, b}| == 2 by { assert {a, b} == {a} + {b}; }
    assert Sum(rows, UniqueBlogsOf) == 2 + Sum(rows[1..], UniqueBlogsOf);
  }

  // ---------------------------------------------------------------------
  // The endpoint, reading through the cache

  predicate AnyZero(data: seq<Row>) {
    exists k :: 0 <= k < |data| && data[k].y == 0
  }

  /**
   * The `y` rewriting of the fast path: PFCOUNT per group when HLL is on and
   * reachable, then the exact union where that gave 0; the exact union for
   * every group otherwise.
   */
  method ReplaceY(rows: seq<Summary>, group: Summary -> Option<string>, data: seq<Row>,
                  useHll: bool, redisUp: bool, pfcount: seq<string> -> Option<nat>)
    returns (out: seq<Row>)
    requires CoversGroups(rows, group, data)
    ensures |out| == |data|
    ensures forall k :: 0 <= k < |data| ==> out[k] == data[k].(y := FinalY(useHll, redisUp, pfcount, rows, group, data[k].x))
  {
    if useHll && redisUp {
      out := PfCountY(rows, group, data, pfcount);
      if AnyZero(out) {
        var unionMap := ExactUnionMap(rows, group);
        out := FillExactY(out, unionMap, true);
      }
    } else {
      var unionMap := ExactUnionMap(rows, group);
      out := FillExactY(data, unionMap, false);
    }
  }

  /** `group_hll_keys` over the summed groups, then `y` from PFCOUNT per group. */
  method PfCountY(rows: seq<Summary>, group: Summary -> Option<string>, data: seq<Row>, pfcount: seq<string> -> Option<nat>)
    returns (out: seq<Row>)
    requires CoversGroups(rows, group, data)
    ensures |out| == |data|
    ensures forall k :: 0 <= k < |data| ==> out[k] == data[k].(y := HllY(pfcount, HllKeysOf(rows, group, data[k].x)))
  {
    var groupKeys := set row | row in data :: row.x;
    var hllKeys := GroupHllKeys(rows, group, groupKeys);
    out := FillHllY(data, hllKeys, pfcount);
    forall k | 0 <= k < |data| ensures KeysFor(hllKeys, data[k].x) == HllKeysOf(rows, group, data[k].x) {
      assert data[k] in data;
    }
  }

  /**
   * `get_grouped_analytics_fast`: a cached non-empty answer; otherwise nothing
   * for an empty summary table, else the query's answer, stored (even when empty).
   * The `__in group_keys` narrowing of the follow-up queries keeps every
   * selected row, since the group keys are exactly the selected rows' groups.
   */
  method GetGroupedAnalyticsFast(cache: Cache, hash: CanonicalJson.Json -> string, objectType: string, f: FilterDict,
                                 dir: Directory, table: seq<Summary>,
                                 useHll: bool, redisUp: bool, pfcount: seq<string> -> Option<nat>)
    returns (data: seq<Row>)
    modifies cache
    ensures var key := LiveAggregates.GroupedCacheKey(hash, "grouped_fast", objectType, f);
      match LiveAggregates.CachedRows(old(cache.entries), key)
      case Some(hit) => data == hit && cache.entries == old(cache.entries)
      case None =>
        && data == FastAnalytics(objectType, f, dir, table, useHll, redisUp, pfcount)
        && cache.entries == if table == [] then old(cache.entries) else old(cache.entries)[key := Rows(data)]
  {
    var key := LiveAggregates.GroupedCacheKey(hash, "grouped_fast", objectType, f);
    var cached := cache.Get(key);
    if cached.Some? && cached.value.Rows? && cached.value.rows != [] {
      return cached.value.rows;
    }
    if table == [] {
      return [];
    }
    data := QueryFast(objectType, f, dir, table, useHll, redisUp, pfcount);
    cache.Set(key, Rows(data));
  }

  /** The query part of the fast endpoint, on a non-empty summary table. */
  method QueryFast(objectType: string, f: FilterDict, dir: Directory, table: seq<Summary>,
                   useHll: bool, redisUp: bool, pfcount: seq<string> -> Option<nat>)
    returns (data: seq<Row>)
    requires table != []
    ensures data == FastAnalytics(objectType, f, dir, table, useHll, redisUp, pfcount)
  {
    var rows := Selected(dir, objectType, f, table);
    var group := GroupOf(dir, objectType);
    var summed := SummedData(rows, group);
    SummedCovers(rows, group);
    data := ReplaceY(rows, group, summed, useHll, redisUp, pfcount);
    assert data == WithFinalY(summed, useHll, redisUp, pfcount, rows, group);
  }

  /** Every selected row's group has a summed row. */
  lemma SummedCovers(rows: seq<Summary>, group: Summary -> Option<string>)
    ensures CoversGroups(rows, group, SummedData(rows, group))
  {
    SummedDataMeaning(rows, group);
  }
}
