/**
 * The `precalculate_stats` management command: it aggregates the view
 * events from a start date on into one summary row per (day, country,
 * author) key, upserts those rows into the summary table (update where the
 * key exists, create otherwise, never delete), optionally publishes the
 * day's blog ids to HyperLogLog counters, and guards the run with a cache
 * lock or a PostgreSQL advisory lock.
 */
module Precalc {
  import opened Wrappers
  import opened Seqs
  import opened Models
  import opened ResultCache
  import Calendar
  import Text
  import FastPath

  // ---------------------------------------------------------------------
  // The aggregation

  function CountryIdOf(e: BlogView): Option<Id> {
    match e.country
    case None => None
    case Some(c) => Some(c.id)
  }

  /** `(view_date, country, blog__author)` of a view; every blog has an author. */
  function EventKey(e: BlogView): SummaryKey {
    SummaryKey(Calendar.DateOf(e.timestamp), CountryIdOf(e), Some(e.blog.author.id))
  }

  function OnOrAfter(start: Calendar.Date): BlogView -> bool {
    (e: BlogView) => Calendar.DateOf(e.timestamp) >= start
  }

  /** `BlogView.objects.filter(timestamp__date__gte=start_date)`. */
  function InRange(events: seq<BlogView>, start: Calendar.Date): seq<BlogView> {
    Filter(events, OnOrAfter(start))
  }

  function HasKey(k: SummaryKey): BlogView -> bool {
    (e: BlogView) => EventKey(e) == k
  }

  function BlogIdOf(e: BlogView): Id { e.blog.id }

  /** The distinct blogs viewed under one key. */
  function BlogsOfKey(es: seq<BlogView>, k: SummaryKey): set<Id> {
    Image(Filter(es, HasKey(k)), BlogIdOf)
  }

  /** One row of `aggregated`: a key with `total_views` and `unique_blogs`. */
  datatype AggRow = AggRow(key: SummaryKey, totalViews: nat, uniqueBlogs: nat)

  /** `values(<key>).annotate(total_views=Count("id"), unique_blogs=Count("blog", distinct=True))`. */
  function AggregateRows(es: seq<BlogView>): seq<AggRow> {
    var ks := DistinctValues(es, EventKey);
    seq(|ks|, i requires 0 <= i < |ks| => AggRow(ks[i], Count(es, HasKey(ks[i])), |BlogsOfKey(es, ks[i])|))
  }

  /** The descending sort key that orders rows by ascending `view_date`. */
  function EarlierFirst(a: AggRow): int { -a.key.date }

  /** `aggregated`, `.order_by("view_date")`. */
  function Aggregated(events: seq<BlogView>, start: Calendar.Date): seq<AggRow> {
    SortDesc(AggregateRows(InRange(events, start)), EarlierFirst)
  }

  /** An aggregated row: a key of the range's views with their count and distinct blogs. */
  predicate CountsKey(events: seq<BlogView>, start: Calendar.Date, a: AggRow) {
    && a.key.date >= start
    && (exists e :: e in events && EventKey(e) == a.key)
    && a.totalViews == Count(InRange(events, start), HasKey(a.key))
    && a.uniqueBlogs == |BlogsOfKey(InRange(events, start), a.key)|
  }

  /** No two distinct rows of `agg` share a key. */
  predicate OneRowPerKey(agg: seq<AggRow>) {
    forall a, b :: a in agg && b in agg && a.key == b.key ==> a == b
  }

  /** Every view of the range has its key aggregated. */
  predicate CoversRange(events: seq<BlogView>, start: Calendar.Date, agg: seq<AggRow>) {
    forall e :: e in events && Calendar.DateOf(e.timestamp) >= start ==> exists a :: a in agg && a.key == EventKey(e)
  }

  lemma AggregateRowsMeaning(events: seq<BlogView>, start: Calendar.Date)
    ensures var raw := AggregateRows(InRange(events, start));
      && (forall a :: a in raw ==> CountsKey(events, start, a))
      && NoDup(raw) && OneRowPerKey(raw) && CoversRange(events, start, raw)
  {
    var es := InRange(events, start);
    var ks := DistinctValues(es, EventKey);
    var raw := AggregateRows(es);
    forall a | a in raw ensures CountsKey(events, start, a) {
      var i :| 0 <= i < |raw| && raw[i] == a;
      assert ks[i] in ks;
      var j :| 0 <= j < |es| && EventKey(es[j]) == ks[i];
      assert es[j] in es;
    }
    forall i, j | 0 <= i < j < |raw| ensures raw[i] != raw[j] {
      assert raw[i].key == ks[i] && raw[j].key == ks[j];
    }
    forall a, b | a in raw && b in raw && a.key == b.key ensures a == b {
      var i :| 0 <= i < |raw| && raw[i] == a;
      var j :| 0 <= j < |raw| && raw[j] == b;
      assert raw[i].key == raw[j].key;
    }
    forall e | e in events && Calendar.DateOf(e.timestamp) >= start ensures exists a :: a in raw && a.key == EventKey(e) {
      assert e in es;
      var j :| 0 <= j < |es| && es[j] == e;
      assert EventKey(e) in ks;
      var i :| 0 <= i < |ks| && ks[i] == EventKey(e);
      assert raw[i] in raw;
    }
  }

  /**
   * One row per (day, country, author) key among the views dated on or after
   * `start`, with the key's view count and distinct-blog count, by ascending day.
   */
  lemma AggregatedMeaning(events: seq<BlogView>, start: Calendar.Date)
    ensures var agg := Aggregated(events, start);
      && (forall i, j :: 0 <= i < j < |agg| ==> agg[i].key.date <= agg[j].key.date)
      && (forall i, j :: 0 <= i < j < |agg| ==> agg[i].key != agg[j].key)
      && (forall a :: a in agg ==> CountsKey(events, start, a))
      && CoversRange(events, start, agg)
      && NoDup(agg) && OneRowPerKey(agg)
  {
    var raw := AggregateRows(InRange(events, start));
    AggregateRowsMeaning(events, start);
    SortedKeepsKeys(events, start, raw, Aggregated(events, start));
  }

  lemma SortedKeepsKeys(events: seq<BlogView>, start: Calendar.Date, raw: seq<AggRow>, agg: seq<AggRow>)
    requires multiset(agg) == multiset(raw) && SortedDesc(agg, EarlierFirst)
    requires forall a :: a in raw ==> CountsKey(events, start, a)
    requires NoDup(raw) && OneRowPerKey(raw) && CoversRange(events, start, raw)
    ensures forall i, j :: 0 <= i < j < |agg| ==> agg[i].key.date <= agg[j].key.date
    ensures forall i, j :: 0 <= i < j < |agg| ==> agg[i].key != agg[j].key
    ensures forall a :: a in agg ==> CountsKey(events, start, a)
    ensures CoversRange(events, start, agg)
    ensures NoDup(agg) && OneRowPerKey(agg)
  {
    PermutationKeepsMembers(raw, agg);
    PermutationKeepsNoDup(raw, agg);
    forall i, j | 0 <= i < j < |agg| ensures agg[i].key.date <= agg[j].key.date {
      assert EarlierFirst(agg[i]) >= EarlierFirst(agg[j]);
    }
    forall i, j | 0 <= i < j < |agg| ensures agg[i].key != agg[j].key {
      assert agg[i] in raw && agg[j] in raw;
      assert agg[i] != agg[j];
    }
    forall e | e in events && Calendar.DateOf(e.timestamp) >= start ensures exists a :: a in agg && a.key == EventKey(e) {
      var a :| a in raw && a.key == EventKey(e);
      assert a in agg;
    }
  }

  // ---------------------------------------------------------------------
  // blog_ids_map

  /** One row of `blogid_rows`: a key and one blog viewed under it. */
  datatype KeyBlog = KeyBlog(key: SummaryKey, blog: Id)

  function KeyBlogOf(e: BlogView): KeyBlog {
    KeyBlog(EventKey(e), e.blog.id)
  }

  /** `values(<key>, "blog").distinct()`. */
  function BlogIdRows(es: seq<BlogView>): seq<KeyBlog> {
    Distinct(seq(|es|, i requires 0 <= i < |es| => KeyBlogOf(es[i])))
  }

  /** The blogs paired with key `k`. */
  function PairedBlogs(pairs: seq<KeyBlog>, k: SummaryKey): set<Id> {
    set p | p in pairs && p.key == k :: p.blog
  }

  /** `blog_ids_map.get(key, [])`. */
  function IdsFor(m: map<SummaryKey, set<Id>>, k: SummaryKey): set<Id> {
    if k in m then m[k] else {}
  }

  /** The `blog_ids_map` loop: `blog_ids_map.setdefault(key, set()).add(blog)` per row. */
  method BuildBlogIdsMap(pairs: seq<KeyBlog>) returns (m: map<SummaryKey, set<Id>>)
    ensures forall k :: k in m <==> exists p :: p in pairs && p.key == k
    ensures forall k :: IdsFor(m, k) == PairedBlogs(pairs, k)
    ensures m == BlogIdsMapOf(pairs)
  {
    m := map[];
    var i := 0;
    while i < |pairs|
      invariant 0 <= i <= |pairs|
      invariant forall k :: k in m <==> exists p :: p in pairs[..i] && p.key == k
      invariant forall k :: IdsFor(m, k) == PairedBlogs(pairs[..i], k)
    {
      var p := pairs[i];
      assert pairs[..i + 1] == pairs[..i] + [p];
      if p.key !in m {
        m := m[p.key := {}];
      }
      m := m[p.key := m[p.key] + {p.blog}];
      forall k ensures IdsFor(m, k) == PairedBlogs(pairs[..i + 1], k) {
        PairedBlogsSnoc(pairs[..i], p, k);
      }
      i := i + 1;
    }
    assert pairs[..|pairs|] == pairs;
    var spec := BlogIdsMapOf(pairs);
    forall k | k in m ensures k in spec && m[k] == spec[k] {
      var p :| p in pairs && p.key == k;
      assert IdsFor(m, k) == m[k];
    }
    forall k | k in spec ensures k in m {
      var p :| p in pairs && p.key == k;
    }
  }

  lemma PairedBlogsSnoc(pairs: seq<KeyBlog>, p: KeyBlog, k: SummaryKey)
    ensures PairedBlogs(pairs + [p], k) == PairedBlogs(pairs, k) + (if p.key == k then {p.blog} else {})
  {
  }

  /** The distinct (key, blog) rows give each key exactly the key's distinct blogs. */
  lemma BlogIdRowsMeaning(es: seq<BlogView>, k: SummaryKey)
    ensures PairedBlogs(BlogIdRows(es), k) == BlogsOfKey(es, k)
  {
    var all := seq(|es|, i requires 0 <= i < |es| => KeyBlogOf(es[i]));
    var ke := Filter(es, HasKey(k));
    forall b ensures b in PairedBlogs(BlogIdRows(es), k) <==> b in BlogsOfKey(es, k) {
      if b in PairedBlogs(BlogIdRows(es), k) {
        var p :| p in BlogIdRows(es) && p.key == k && p.blog == b;
        assert p in all;
        var i :| 0 <= i < |es| && all[i] == p;
        assert es[i] in ke;
        var j :| 0 <= j < |ke| && ke[j] == es[i];
      }
      if b in BlogsOfKey(es, k) {
        var j :| 0 <= j < |ke| && BlogIdOf(ke[j]) == b;
        assert ke[j] in ke;
        var i :| 0 <= i < |es| && es[i] == ke[j];
        assert all[i] in all;
        assert all[i] in BlogIdRows(es);
      }
    }
  }

  /** `blog_ids_map` as a value: each paired key with its blogs. */
  function BlogIdsMapOf(pairs: seq<KeyBlog>): map<SummaryKey, set<Id>> {
    map k | k in (set p | p in pairs :: p.key) :: PairedBlogs(pairs, k)
  }

  lemma BlogIdsMapOfMeaning(pairs: seq<KeyBlog>)
    ensures forall k :: IdsFor(BlogIdsMapOf(pairs), k) == PairedBlogs(pairs, k)
  {
    forall k ensures IdsFor(BlogIdsMapOf(pairs), k) == PairedBlogs(pairs, k) {
      if k !in BlogIdsMapOf(pairs) {
        assert forall p :: p in pairs ==> p.key != k;
      }
    }
  }

  // ---------------------------------------------------------------------
  // The upsert plan

  /**
   * The position `existing_map` files each key under: the last stored row
   * dated on or after `start` with that key, since a later row overwrites an
   * earlier one in the dictionary comprehension.
   */
  function ExistingIndex(table: seq<Summary>, start: Calendar.Date): (ix: map<SummaryKey, nat>)
    ensures forall k :: k in ix ==> ix[k] < |table| && KeyOf(table[ix[k]]) == k && table[ix[k]].date >= start
  {
    if table == [] then map[]
    else
      var n := |table| - 1;
      var m := ExistingIndex(table[..n], start);
      assert forall k :: k in m ==> table[..n][m[k]] == table[m[k]];
      if table[n].date >= start then m[KeyOf(table[n]) := n] else m
  }

  /** Every row from `start` on has its key filed, at its own position or a later one. */
  lemma {:induction false} ExistingIndexCovers(table: seq<Summary>, start: Calendar.Date, i: nat)
    requires i < |table| && table[i].date >= start
    ensures KeyOf(table[i]) in ExistingIndex(table, start) && i <= ExistingIndex(table, start)[KeyOf(table[i])]
  {
    var n := |table| - 1;
    if i < n {
      assert table[..n][i] == table[i];
      ExistingIndexCovers(table[..n], start, i);
    }
  }

  /** `existing_map`: the stored rows dated on or after `start`, by key (a later row wins). */
  function ExistingMap(table: seq<Summary>, start: Calendar.Date): map<SummaryKey, Summary> {
    var ix := ExistingIndex(table, start);
    map k | k in ix :: table[ix[k]]
  }

  /**
   * The keys of `existing_map` are the keys of the rows from `start` on; each
   * is filed with the last such row carrying it, and no later row from
   * `start` on has that key.
   */
  lemma ExistingMapKeys(table: seq<Summary>, start: Calendar.Date)
    ensures forall k :: k in ExistingMap(table, start) <==>
      exists i :: 0 <= i < |table| && table[i].date >= start && KeyOf(table[i]) == k
    ensures forall k :: k in ExistingMap(table, start) ==>
      && KeyOf(ExistingMap(table, start)[k]) == k
      && ExistingMap(table, start)[k] == table[ExistingIndex(table, start)[k]]
      && forall j :: ExistingIndex(table, start)[k] < j < |table| && table[j].date >= start ==> KeyOf(table[j]) != k
  {
    var ix := ExistingIndex(table, start);
    forall k | exists i :: 0 <= i < |table| && table[i].date >= start && KeyOf(table[i]) == k
      ensures k in ix
    {
      var i :| 0 <= i < |table| && table[i].date >= start && KeyOf(table[i]) == k;
      ExistingIndexCovers(table, start, i);
    }
    forall k, j | k in ix && ix[k] < j < |table| && table[j].date >= start ensures KeyOf(table[j]) != k {
      ExistingIndexCovers(table, start, j);
    }
  }

  /** Without two rows sharing a key, `existing_map` finds each row from `start` on under its key. */
  lemma ExistingMapFinds(table: seq<Summary>, start: Calendar.Date)
    requires UniqueKeys(table)
    ensures forall i :: 0 <= i < |table| && table[i].date >= start ==>
      KeyOf(table[i]) in ExistingMap(table, start) && ExistingMap(table, start)[KeyOf(table[i])] == table[i]
  {
    var ix := ExistingIndex(table, start);
    forall i | 0 <= i < |table| && table[i].date >= start
      ensures KeyOf(table[i]) in ExistingMap(table, start) && ExistingMap(table, start)[KeyOf(table[i])] == table[i]
    {
      ExistingIndexCovers(table, start, i);
      var j := ix[KeyOf(table[i])];
      assert KeyOf(table[j]) == KeyOf(table[i]);
    }
  }

  /** A new, unsaved summary row for an aggregated key. */
  function Fresh(a: AggRow, ids: map<SummaryKey, set<Id>>): Summary {
    Summary(None, a.key.date, a.key.countryId, a.key.authorId, a.totalViews, a.uniqueBlogs, Some(IdsFor(ids, a.key)))
  }

  /** An existing row with `total_views`, `unique_blogs` and `blog_ids` overwritten. */
  function Refresh(s: Summary, a: AggRow, ids: map<SummaryKey, set<Id>>): Summary {
    s.(totalViews := a.totalViews, uniqueBlogs := a.uniqueBlogs, blogIds := Some(IdsFor(ids, a.key)))
  }

  function IsNew(ex: map<SummaryKey, Summary>): AggRow -> bool {
    (a: AggRow) => a.key !in ex
  }

  function IsKnown(ex: map<SummaryKey, Summary>): AggRow -> bool {
    (a: AggRow) => a.key in ex
  }

  /** `summaries_to_create`. */
  function Creates(agg: seq<AggRow>, ids: map<SummaryKey, set<Id>>, ex: map<SummaryKey, Summary>): seq<Summary> {
    var news := Filter(agg, IsNew(ex));
    seq(|news|, i requires 0 <= i < |news| => Fresh(news[i], ids))
  }

  /** `summaries_to_update`. */
  function Updates(agg: seq<AggRow>, ids: map<SummaryKey, set<Id>>, ex: map<SummaryKey, Summary>): seq<Summary> {
    var olds := Filter(agg, IsKnown(ex));
    seq(|olds|, i requires 0 <= i < |olds| => assert olds[i] in olds; Refresh(ex[olds[i].key], olds[i], ids))
  }

  lemma CreatesSnoc(agg: seq<AggRow>, a: AggRow, ids: map<SummaryKey, set<Id>>, ex: map<SummaryKey, Summary>)
    ensures Creates(agg + [a], ids, ex) == Creates(agg, ids, ex) + (if a.key !in ex then [Fresh(a, ids)] else [])
  {
    FilterAppend(agg, a, IsNew(ex));
  }

  lemma UpdatesSnoc(agg: seq<AggRow>, a: AggRow, ids: map<SummaryKey, set<Id>>, ex: map<SummaryKey, Summary>)
    ensures Updates(agg + [a], ids, ex) == Updates(agg, ids, ex) + (if a.key in ex then [Refresh(ex[a.key], a, ids)] else [])
  {
    FilterAppend(agg, a, IsKnown(ex));
    var olds := Filter(agg, IsKnown(ex));
    var us, us2 := Updates(agg, ids, ex), Updates(agg + [a], ids, ex);
    if a.key in ex {
      assert Filter(agg + [a], IsKnown(ex)) == olds + [a];
      forall i | 0 <= i < |us| ensures us2[i] == us[i] {
        assert (olds + [a])[i] == olds[i];
      }
      assert us2[|us|] == Refresh(ex[a.key], a, ids);
      assert us2 == us + [Refresh(ex[a.key], a, ids)];
    } else {
      assert Filter(agg + [a], IsKnown(ex)) == olds;
    }
  }

  /** One more aggregated row extends exactly one of the two lists. */
  lemma PlanStep(agg: seq<AggRow>, i: nat, ids: map<SummaryKey, set<Id>>, ex: map<SummaryKey, Summary>)
    requires i < |agg|
    ensures Creates(agg[..i + 1], ids, ex) == Creates(agg[..i], ids, ex) + (if agg[i].key !in ex then [Fresh(agg[i], ids)] else [])
    ensures Updates(agg[..i + 1], ids, ex) == Updates(agg[..i], ids, ex) + (if agg[i].key in ex then [Refresh(ex[agg[i].key], agg[i], ids)] else [])
  {
    assert agg[..i + 1] == agg[..i] + [agg[i]];
    CreatesSnoc(agg[..i], agg[i], ids, ex);
    UpdatesSnoc(agg[..i], agg[i], ids, ex);
  }

  /** The upsert loop over `aggregated`. */
  method PlanUpserts(agg: seq<AggRow>, ids: map<SummaryKey, set<Id>>, ex: map<SummaryKey, Summary>)
    returns (toCreate: seq<Summary>, toUpdate: seq<Summary>)
    ensures toCreate == Creates(agg, ids, ex)
    ensures toUpdate == Updates(agg, ids, ex)
  {
    toCreate, toUpdate := [], [];
    var i := 0;
    while i < |agg|
      invariant 0 <= i <= |agg|
      invariant toCreate == Creates(agg[..i], ids, ex)
      invariant toUpdate == Updates(agg[..i], ids, ex)
    {
      var a := agg[i];
      PlanStep(agg, i, ids, ex);
      if a.key in ex {
        toUpdate := toUpdate + [Refresh(ex[a.key], a, ids)];
      } else {
        toCreate := toCreate + [Fresh(a, ids)];
      }
      i := i + 1;
    }
    assert agg[..|agg|] == agg;
  }

  /**
   * Every aggregated key lands in exactly one list: created when no stored row
   * from `start` on has it, updated otherwise; each listed row comes from an
   * aggregated row, an update from the stored row with only the three counters
   * overwritten.
   */
  lemma PlanPartitions(agg: seq<AggRow>, ids: map<SummaryKey, set<Id>>, ex: map<SummaryKey, Summary>)
    ensures forall c :: c in Creates(agg, ids, ex) ==> exists a :: a in agg && a.key !in ex && c == Fresh(a, ids)
    ensures forall u :: u in Updates(agg, ids, ex) ==> exists a :: a in agg && a.key in ex && u == Refresh(ex[a.key], a, ids)
    ensures forall a :: a in agg && a.key !in ex ==> Fresh(a, ids) in Creates(agg, ids, ex)
    ensures forall a :: a in agg && a.key in ex ==> Refresh(ex[a.key], a, ids) in Updates(agg, ids, ex)
  {
    var news := Filter(agg, IsNew(ex));
    var olds := Filter(agg, IsKnown(ex));
    var cs := Creates(agg, ids, ex);
    var us := Updates(agg, ids, ex);
    forall c | c in cs ensures exists a :: a in agg && a.key !in ex && c == Fresh(a, ids) {
      var i :| 0 <= i < |cs| && cs[i] == c;
      assert news[i] in news;
    }
    forall u | u in us ensures exists a :: a in agg && a.key in ex && u == Refresh(ex[a.key], a, ids) {
      var i :| 0 <= i < |us| && us[i] == u;
      assert olds[i] in olds;
    }
    forall a | a in agg && a.key !in ex ensures Fresh(a, ids) in cs {
      assert a in news;
      var i :| 0 <= i < |news| && news[i] == a;
      assert cs[i] == Fresh(a, ids);
    }
    forall a | a in agg && a.key in ex ensures Refresh(ex[a.key], a, ids) in us {
      assert a in olds;
      var i :| 0 <= i < |olds| && olds[i] == a;
      assert us[i] == Refresh(ex[a.key], a, ids);
    }
  }

  // ---------------------------------------------------------------------
  // Writing the table

  /** `s` with the three fields `bulk_update` writes taken from `u`. */
  function Overlay(s: Summary, u: Summary): Summary {
    s.(totalViews := u.totalViews, uniqueBlogs := u.uniqueBlogs, blogIds := u.blogIds)
  }

  /** `u` is an instance of the saved row `s`: both carry the same primary key. */
  predicate SamePk(u: Summary, s: Summary) {
    s.id.Some? && u.id == s.id
  }

  /**
   * What `bulk_update` leaves in place of the stored row `s`: the first listed
   * instance with its primary key decides (the first `WHEN pk = …` of the
   * `CASE` that matches).
   */
  function UpdateFor(ups: seq<Summary>, s: Summary): (r: Summary)
    ensures KeyOf(r) == KeyOf(s) && r.id == s.id
    ensures (forall u :: u in ups ==> !SamePk(u, s)) ==> r == s
    ensures (exists u :: u in ups && SamePk(u, s)) ==>
      exists u :: u in ups && SamePk(u, s) && r == Overlay(s, u)
  {
    if ups == [] then s
    else if SamePk(ups[0], s) then Overlay(s, ups[0])
    else
      assert forall u :: u in ups ==> u == ups[0] || u in ups[1..];
      UpdateFor(ups[1..], s)
  }

  /** The stored rows after `bulk_update(ups, ["total_views", "unique_blogs", "blog_ids"])`. */
  function Overwritten(rows: seq<Summary>, ups: seq<Summary>): (r: seq<Summary>)
    ensures |r| == |rows|
    ensures forall i :: 0 <= i < |rows| ==> KeyOf(r[i]) == KeyOf(rows[i]) && r[i].id == rows[i].id
  {
    seq(|rows|, i requires 0 <= i < |rows| => UpdateFor(ups, rows[i]))
  }

  /** One past the largest stored primary key: where the key sequence goes on. */
  function NextId(rows: seq<Summary>): (n: Id)
    ensures forall i :: 0 <= i < |rows| && rows[i].id.Some? ==> rows[i].id.value < n
  {
    if rows == [] then 1
    else
      var m := NextId(rows[..|rows| - 1]);
      var last := rows[|rows| - 1];
      assert forall i :: 0 <= i < |rows| - 1 ==> rows[..|rows| - 1][i] == rows[i];
      if last.id.Some? && last.id.value >= m then last.id.value + 1 else m
  }

  /** The new rows as `bulk_create` saves them, with consecutive primary keys from `next`. */
  function Assigned(news: seq<Summary>, next: Id): seq<Summary> {
    seq(|news|, p requires 0 <= p < |news| => news[p].(id := Some(next + p)))
  }

  /**
   * Creating keeps the saved rows' primary keys present and distinct, and
   * gives each new row its own key and fields.
   */
  lemma CreateKeepsStored(rows: seq<Summary>, news: seq<Summary>)
    requires StoredIds(rows)
    ensures var r := rows + Assigned(news, NextId(rows));
      && StoredIds(r)
      && forall p :: 0 <= p < |news| ==> KeyOf(r[|rows| + p]) == KeyOf(news[p]) && r[|rows| + p] == news[p].(id := r[|rows| + p].id)
  {
    var next := NextId(rows);
    var r := rows + Assigned(news, next);
    forall i, j | 0 <= i < j < |r| ensures r[i].id != r[j].id {
      if j >= |rows| {
        if i < |rows| {
          assert r[i].id.value < next;
        }
      }
    }
  }

  /** Updating keeps every saved row's primary key. */
  lemma UpdateKeepsStored(rows: seq<Summary>, ups: seq<Summary>)
    requires StoredIds(rows)
    ensures StoredIds(Overwritten(rows, ups))
  {
  }

  /**
   * The database as the command sees it: the `DailyAnalyticsSummary` rows and
   * whether this session holds the advisory lock.
   */
  class Database {
    var summaries: seq<Summary>
    var advisoryHeld: bool

    constructor (initial: seq<Summary>)
      ensures summaries == initial && !advisoryHeld
    {
      summaries := initial;
      advisoryHeld := false;
    }

    /** `bulk_create`: the new rows are saved after the others, each with a fresh primary key. */
    method BulkCreate(news: seq<Summary>)
      modifies this
      ensures summaries == old(summaries) + Assigned(news, NextId(old(summaries))) && advisoryHeld == old(advisoryHeld)
      ensures StoredIds(old(summaries)) ==> StoredIds(summaries)
    {
      if StoredIds(summaries) {
        CreateKeepsStored(summaries, news);
      }
      summaries := summaries + Assigned(news, NextId(summaries));
    }

    /** `bulk_update`: each stored row an instance shares a primary key with gets that instance's three counters. */
    method BulkUpdate(ups: seq<Summary>)
      modifies this
      ensures summaries == Overwritten(old(summaries), ups) && advisoryHeld == old(advisoryHeld)
      ensures StoredIds(old(summaries)) ==> StoredIds(summaries)
    {
      summaries := Overwritten(summaries, ups);
    }

    /** `SELECT pg_try_advisory_lock(1234567890)`: the server's answer is a parameter. */
    method TryAdvisoryLock(reply: AdvisoryReply) returns (granted: bool)
      modifies this
      ensures granted <==> reply == Granted
      ensures advisoryHeld == (old(advisoryHeld) || granted) && summaries == old(summaries)
    {
      granted := reply == Granted;
      if granted {
        advisoryHeld := true;
      }
    }

    /**
     * `SELECT pg_advisory_unlock(1234567890)`; when the query raises
     * (`completes` false) the lock stays as it was.
     */
    method AdvisoryUnlock(completes: bool)
      modifies this
      ensures advisoryHeld == (old(advisoryHeld) && !completes) && summaries == old(summaries)
    {
      if completes {
        advisoryHeld := false;
      }
    }
  }

  /** The table after the upserts of one run: updates in place, creations saved after the stored rows. */
  function Written(table: seq<Summary>, agg: seq<AggRow>, ids: map<SummaryKey, set<Id>>, ex: map<SummaryKey, Summary>): seq<Summary> {
    Overwritten(table, Updates(agg, ids, ex)) + Assigned(Creates(agg, ids, ex), NextId(table))
  }

  /** Aggregated rows with distinct keys, all dated on or after `start`. */
  predicate KeyedFrom(agg: seq<AggRow>, start: Calendar.Date) {
    && NoDup(agg) && OneRowPerKey(agg)
    && forall a :: a in agg ==> a.key.date >= start
  }

  /** A stored row holds the aggregated values of `a`. */
  predicate Current(s: Summary, a: AggRow, ids: map<SummaryKey, set<Id>>) {
    s.totalViews == a.totalViews && s.uniqueBlogs == a.uniqueBlogs && s.blogIds == Some(IdsFor(ids, a.key))
  }

  /** Some aggregated row has key `k`. */
  predicate Aggregates(agg: seq<AggRow>, k: SummaryKey) {
    exists a :: a in agg && a.key == k
  }

  /** Row `i` is the one `existing_map` holds for its key, and that key was aggregated. */
  predicate Chosen(table: seq<Summary>, start: Calendar.Date, agg: seq<AggRow>, i: nat) {
    var ix := ExistingIndex(table, start);
    i < |table| && KeyOf(table[i]) in ix && ix[KeyOf(table[i])] == i && Aggregates(agg, KeyOf(table[i]))
  }

  /** The row `existing_map` holds for an aggregated key is listed for update, refreshed. */
  lemma UpdateListed(agg: seq<AggRow>, ids: map<SummaryKey, set<Id>>, ex: map<SummaryKey, Summary>, a: AggRow)
    requires a in agg && a.key in ex
    ensures Refresh(ex[a.key], a, ids) in Updates(agg, ids, ex)
  {
    var olds := Filter(agg, IsKnown(ex));
    assert a in olds;
    var i :| 0 <= i < |olds| && olds[i] == a;
    assert Updates(agg, ids, ex)[i] == Refresh(ex[a.key], a, ids);
  }

  /** Every update is the row `existing_map` holds for an aggregated key, refreshed with that key's values. */
  lemma UpdateOrigin(table: seq<Summary>, start: Calendar.Date, agg: seq<AggRow>, ids: map<SummaryKey, set<Id>>, u: Summary)
    requires u in Updates(agg, ids, ExistingMap(table, start))
    ensures var ix := ExistingIndex(table, start);
      exists a :: a in agg && a.key in ix && u == Refresh(table[ix[a.key]], a, ids)
  {
    var ex := ExistingMap(table, start);
    var olds := Filter(agg, IsKnown(ex));
    var us := Updates(agg, ids, ex);
    var i :| 0 <= i < |us| && us[i] == u;
    assert olds[i] in olds;
  }

  /** The row `existing_map` holds for an aggregated key takes that key's values. */
  lemma WrittenRowUpdated(table: seq<Summary>, start: Calendar.Date, agg: seq<AggRow>, ids: map<SummaryKey, set<Id>>, a: AggRow)
    requires StoredIds(table) && KeyedFrom(agg, start)
    requires a in agg && a.key in ExistingIndex(table, start)
    ensures var i := ExistingIndex(table, start)[a.key];
      Written(table, agg, ids, ExistingMap(table, start))[i] == Refresh(table[i], a, ids)
  {
    var ix := ExistingIndex(table, start);
    var ex := ExistingMap(table, start);
    var us := Updates(agg, ids, ex);
    var i := ix[a.key];
    UpdateListed(agg, ids, ex, a);
    assert ex[a.key] == table[i];
    assert SamePk(Refresh(ex[a.key], a, ids), table[i]);
    WrittenStoredAt(table, agg, ids, ex, i);
    var u :| u in us && SamePk(u, table[i]) && UpdateFor(us, table[i]) == Overlay(table[i], u);
    UpdateOrigin(table, start, agg, ids, u);
    var b :| b in agg && b.key in ix && u == Refresh(table[ix[b.key]], b, ids);
    assert ix[b.key] == i;
    assert b == a;
  }

  /**
   * A stored row that is not the one `existing_map` holds for an aggregated
   * key is left as it was; in particular, of two rows sharing a key only the
   * later one is updated.
   */
  lemma WrittenRowKept(table: seq<Summary>, start: Calendar.Date, agg: seq<AggRow>, ids: map<SummaryKey, set<Id>>, i: nat)
    requires StoredIds(table) && i < |table| && !Chosen(table, start, agg, i)
    ensures Written(table, agg, ids, ExistingMap(table, start))[i] == table[i]
  {
    var ix := ExistingIndex(table, start);
    var ex := ExistingMap(table, start);
    var us := Updates(agg, ids, ex);
    forall u | u in us ensures !SamePk(u, table[i]) {
      UpdateOrigin(table, start, agg, ids, u);
      var b :| b in agg && b.key in ix && u == Refresh(table[ix[b.key]], b, ids);
      assert ix[b.key] == i ==> Aggregates(agg, KeyOf(table[i]));
      assert table[ix[b.key]].id != table[i].id;
    }
    WrittenStoredAt(table, agg, ids, ex, i);
  }

  /**
   * Nothing is deleted, no stored key or primary key changes, the row
   * `existing_map` holds for each aggregated key is refreshed, and every other
   * stored row (one dated before `start`, one whose key was not aggregated,
   * one shadowed by a later row with its key) is untouched.
   */
  lemma WrittenKeepsRows(table: seq<Summary>, start: Calendar.Date, agg: seq<AggRow>, ids: map<SummaryKey, set<Id>>)
    requires StoredIds(table) && KeyedFrom(agg, start)
    ensures var ex := ExistingMap(table, start); var w := Written(table, agg, ids, ex); var ix := ExistingIndex(table, start);
      && |w| == |table| + |Creates(agg, ids, ex)|
      && (forall i :: 0 <= i < |table| ==> KeyOf(w[i]) == KeyOf(table[i]) && w[i].id == table[i].id)
      && (forall a :: a in agg && a.key in ix ==> w[ix[a.key]] == Refresh(table[ix[a.key]], a, ids))
      && (forall i :: 0 <= i < |table| && !Chosen(table, start, agg, i) ==> w[i] == table[i])
      && (forall i :: 0 <= i < |table| && !Aggregates(agg, KeyOf(table[i])) ==> w[i] == table[i])
      && (forall i :: 0 <= i < |table| && table[i].date < start ==> w[i] == table[i])
  {
    var w := Written(table, agg, ids, ExistingMap(table, start));
    forall a | a in agg && a.key in ExistingIndex(table, start)
      ensures w[ExistingIndex(table, start)[a.key]] == Refresh(table[ExistingIndex(table, start)[a.key]], a, ids)
    {
      WrittenRowUpdated(table, start, agg, ids, a);
    }
    forall i | 0 <= i < |table| && !Chosen(table, start, agg, i) ensures w[i] == table[i] {
      WrittenRowKept(table, start, agg, ids, i);
    }
    forall i | 0 <= i < |table| && table[i].date < start ensures !Aggregates(agg, KeyOf(table[i])) {
    }
  }

  /** Row `i` of the table after the write, for a stored position. */
  lemma WrittenStoredAt(table: seq<Summary>, agg: seq<AggRow>, ids: map<SummaryKey, set<Id>>, ex: map<SummaryKey, Summary>, i: nat)
    requires i < |table|
    ensures i < |Written(table, agg, ids, ex)|
    ensures Written(table, agg, ids, ex)[i] == UpdateFor(Updates(agg, ids, ex), table[i])
  {
  }

  /** Row `|table| + p` of the table after the write: the `p`-th creation, saved. */
  lemma WrittenCreatedAt(table: seq<Summary>, agg: seq<AggRow>, ids: map<SummaryKey, set<Id>>, ex: map<SummaryKey, Summary>, p: nat)
    requires p < |Creates(agg, ids, ex)|
    ensures |table| + p < |Written(table, agg, ids, ex)|
    ensures Written(table, agg, ids, ex)[|table| + p] == Creates(agg, ids, ex)[p].(id := Some(NextId(table) + p))
  {
  }

  /** The key of row `i` after the write: a stored row's own, or its creation's. */
  lemma WrittenKeyAt(table: seq<Summary>, agg: seq<AggRow>, ids: map<SummaryKey, set<Id>>, ex: map<SummaryKey, Summary>, i: nat)
    requires i < |Written(table, agg, ids, ex)|
    ensures KeyOf(Written(table, agg, ids, ex)[i]) ==
      if i < |table| then KeyOf(table[i]) else KeyOf(Creates(agg, ids, ex)[i - |table|])
  {
  }

  /** An aggregated key `existing_map` lacks is created from its aggregated row. */
  lemma CreateListed(agg: seq<AggRow>, ids: map<SummaryKey, set<Id>>, ex: map<SummaryKey, Summary>, a: AggRow)
    requires a in agg && a.key !in ex
    ensures exists p :: 0 <= p < |Creates(agg, ids, ex)| && Creates(agg, ids, ex)[p] == Fresh(a, ids)
  {
    var news := Filter(agg, IsNew(ex));
    assert a in news;
    var p :| 0 <= p < |news| && news[p] == a;
    assert Creates(agg, ids, ex)[p] == Fresh(a, ids);
  }

  /** No row of `cs` has the key of a row of `table`. */
  predicate AvoidsKeys(cs: seq<Summary>, table: seq<Summary>) {
    forall p, i :: 0 <= p < |cs| && 0 <= i < |table| ==> KeyOf(cs[p]) != KeyOf(table[i])
  }

  /** The created keys are distinct and none is a stored key. */
  lemma CreatedKeysNew(table: seq<Summary>, start: Calendar.Date, agg: seq<AggRow>, ids: map<SummaryKey, set<Id>>)
    requires KeyedFrom(agg, start)
    ensures UniqueKeys(Creates(agg, ids, ExistingMap(table, start)))
    ensures AvoidsKeys(Creates(agg, ids, ExistingMap(table, start)), table)
  {
    var ex := ExistingMap(table, start);
    var news := Filter(agg, IsNew(ex));
    var cs := Creates(agg, ids, ex);
    ExistingMapKeys(table, start);
    FilterKeepsNoDup(agg, IsNew(ex));
    forall p, q | 0 <= p < q < |cs| ensures KeyOf(cs[p]) != KeyOf(cs[q]) {
      assert news[p] in news && news[q] in news && news[p] != news[q];
    }
    forall p, i | 0 <= p < |cs| && 0 <= i < |table| ensures KeyOf(cs[p]) != KeyOf(table[i]) {
      assert news[p] in news;
      assert news[p].key !in ex && news[p].key.date >= start;
    }
  }

  /** Two rows share a key after the write only if they are stored rows that already shared it. */
  predicate NoNewDuplicates(table: seq<Summary>, w: seq<Summary>) {
    forall i, j :: 0 <= i < j < |w| && KeyOf(w[i]) == KeyOf(w[j]) ==>
      j < |table| && KeyOf(table[i]) == KeyOf(table[j])
  }

  /**
   * The creations never collide with a stored key or with each other, so the
   * write adds no duplicate key: a table without duplicates keeps none, and
   * the `unique_together` constraint as SQL enforces it (NULLs distinct) still
   * holds. Two stored rows sharing a key with a NULL part stay as they are.
   */
  lemma WrittenUnique(table: seq<Summary>, start: Calendar.Date, agg: seq<AggRow>, ids: map<SummaryKey, set<Id>>)
    requires KeyedFrom(agg, start)
    ensures var w := Written(table, agg, ids, ExistingMap(table, start));
      && NoNewDuplicates(table, w)
      && (UniqueKeys(table) ==> UniqueKeys(w))
      && (SqlUniqueKeys(table) ==> SqlUniqueKeys(w))
  {
    var ex := ExistingMap(table, start);
    var w := Written(table, agg, ids, ex);
    WrittenNoNewDuplicates(table, start, agg, ids);
    forall i | 0 <= i < |table| ensures KeyOf(w[i]) == KeyOf(table[i]) {
      WrittenKeyAt(table, agg, ids, ex, i);
    }
    DuplicatesInherited(table, w);
  }

  lemma WrittenNoNewDuplicates(table: seq<Summary>, start: Calendar.Date, agg: seq<AggRow>, ids: map<SummaryKey, set<Id>>)
    requires KeyedFrom(agg, start)
    ensures NoNewDuplicates(table, Written(table, agg, ids, ExistingMap(table, start)))
  {
    var ex := ExistingMap(table, start);
    var w := Written(table, agg, ids, ex);
    var n := |table|;
    CreatedKeysNew(table, start, agg, ids);
    forall i, j | 0 <= i < j < |w| && KeyOf(w[i]) == KeyOf(w[j]) ensures j < n && KeyOf(table[i]) == KeyOf(table[j]) {
      WrittenKeyAt(table, agg, ids, ex, i);
      WrittenKeyAt(table, agg, ids, ex, j);
    }
  }

  /** A table that gained no duplicate key keeps either form of uniqueness. */
  lemma DuplicatesInherited(table: seq<Summary>, w: seq<Summary>)
    requires NoNewDuplicates(table, w)
    requires forall i :: 0 <= i < |table| && i < |w| ==> KeyOf(w[i]) == KeyOf(table[i])
    ensures UniqueKeys(table) ==> UniqueKeys(w)
    ensures SqlUniqueKeys(table) ==> SqlUniqueKeys(w)
  {
  }

  /** The write keeps every primary key present and distinct. */
  lemma WrittenStored(table: seq<Summary>, agg: seq<AggRow>, ids: map<SummaryKey, set<Id>>, ex: map<SummaryKey, Summary>)
    requires StoredIds(table)
    ensures StoredIds(Written(table, agg, ids, ex))
  {
    var o := Overwritten(table, Updates(agg, ids, ex));
    UpdateKeepsStored(table, Updates(agg, ids, ex));
    CreateKeepsStored(o, Creates(agg, ids, ex));
    assert NextId(o) == NextId(table) by { SameIdsSameNext(o, table); }
  }

  /** Rows with the same primary keys, position by position, continue the key sequence alike. */
  lemma {:induction false} SameIdsSameNext(a: seq<Summary>, b: seq<Summary>)
    requires |a| == |b| && forall i :: 0 <= i < |a| ==> a[i].id == b[i].id
    ensures NextId(a) == NextId(b)
  {
    if a != [] {
      var n := |a| - 1;
      assert forall i :: 0 <= i < n ==> a[..n][i].id == b[..n][i].id by {
        forall i | 0 <= i < n ensures a[..n][i].id == b[..n][i].id {
          assert a[..n][i] == a[i] && b[..n][i] == b[i];
        }
      }
      SameIdsSameNext(a[..n], b[..n]);
    }
  }

  /** Every aggregated row has a row in `d` holding its values. */
  predicate AllCurrent(d: seq<Summary>, agg: seq<AggRow>, ids: map<SummaryKey, set<Id>>) {
    forall a :: a in agg ==> exists i :: 0 <= i < |d| && KeyOf(d[i]) == a.key && Current(d[i], a, ids)
  }

  /**
   * After the write, the row `existing_map` then holds for each aggregated
   * key carries that key's aggregated values.
   */
  lemma RechosenCurrent(table: seq<Summary>, start: Calendar.Date, agg: seq<AggRow>, ids: map<SummaryKey, set<Id>>, b: AggRow)
    requires StoredIds(table) && KeyedFrom(agg, start) && b in agg
    ensures var w := Written(table, agg, ids, ExistingMap(table, start)); var ix2 := ExistingIndex(w, start);
      b.key in ix2 && Current(w[ix2[b.key]], b, ids)
  {
    if b.key in ExistingIndex(table, start) {
      RechosenUpdated(table, start, agg, ids, b);
    } else {
      RechosenCreated(table, start, agg, ids, b);
    }
  }

  /** A key `existing_map` held stays filed with the same, now refreshed, row. */
  lemma RechosenUpdated(table: seq<Summary>, start: Calendar.Date, agg: seq<AggRow>, ids: map<SummaryKey, set<Id>>, b: AggRow)
    requires StoredIds(table) && KeyedFrom(agg, start) && b in agg && b.key in ExistingIndex(table, start)
    ensures var w := Written(table, agg, ids, ExistingMap(table, start)); var ix2 := ExistingIndex(w, start);
      b.key in ix2 && ix2[b.key] == ExistingIndex(table, start)[b.key] && Current(w[ix2[b.key]], b, ids)
  {
    var ix1 := ExistingIndex(table, start);
    var ex := ExistingMap(table, start);
    var w := Written(table, agg, ids, ex);
    var n := |table|;
    CreatedKeysNew(table, start, agg, ids);
    var ix2 := ExistingIndex(w, start);
    var j1 := ix1[b.key];
    WrittenRowUpdated(table, start, agg, ids, b);
    WrittenKeyAt(table, agg, ids, ex, j1);
    ExistingIndexCovers(w, start, j1);
    var j2 := ix2[b.key];
    WrittenKeyAt(table, agg, ids, ex, j2);
    if j2 < n {
      ExistingIndexCovers(table, start, j2);
    }
    assert j2 == j1;
  }

  /** A key `existing_map` lacked is filed with its created row. */
  lemma RechosenCreated(table: seq<Summary>, start: Calendar.Date, agg: seq<AggRow>, ids: map<SummaryKey, set<Id>>, b: AggRow)
    requires KeyedFrom(agg, start) && b in agg && b.key !in ExistingIndex(table, start)
    ensures var w := Written(table, agg, ids, ExistingMap(table, start)); var ix2 := ExistingIndex(w, start);
      b.key in ix2 && ix2[b.key] >= |table| && Current(w[ix2[b.key]], b, ids)
  {
    var ex := ExistingMap(table, start);
    var w := Written(table, agg, ids, ex);
    var cs := Creates(agg, ids, ex);
    var n := |table|;
    CreatedKeysNew(table, start, agg, ids);
    var ix2 := ExistingIndex(w, start);
    CreateListed(agg, ids, ex, b);
    var p :| 0 <= p < |cs| && cs[p] == Fresh(b, ids);
    WrittenCreatedAt(table, agg, ids, ex, p);
    ExistingIndexCovers(w, start, n + p);
    var j2 := ix2[b.key];
    WrittenKeyAt(table, agg, ids, ex, j2);
    assert j2 == n + p;
  }

  /** After the write, every aggregated key has a row holding that key's aggregated values. */
  lemma WrittenFresh(table: seq<Summary>, start: Calendar.Date, agg: seq<AggRow>, ids: map<SummaryKey, set<Id>>)
    requires StoredIds(table) && KeyedFrom(agg, start)
    ensures AllCurrent(Written(table, agg, ids, ExistingMap(table, start)), agg, ids)
  {
    var w := Written(table, agg, ids, ExistingMap(table, start));
    forall a | a in agg ensures exists i :: 0 <= i < |w| && KeyOf(w[i]) == a.key && Current(w[i], a, ids) {
      RechosenCurrent(table, start, agg, ids, a);
    }
  }

  /**
   * A second run over the same views creates nothing and leaves the table as
   * the first run left it, shadowed duplicates included.
   */
  lemma WrittenIdempotent(table: seq<Summary>, start: Calendar.Date, agg: seq<AggRow>, ids: map<SummaryKey, set<Id>>)
    requires StoredIds(table) && KeyedFrom(agg, start)
    ensures var w := Written(table, agg, ids, ExistingMap(table, start));
      && Creates(agg, ids, ExistingMap(w, start)) == []
      && Written(w, agg, ids, ExistingMap(w, start)) == w
  {
    var w := Written(table, agg, ids, ExistingMap(table, start));
    WrittenFresh(table, start, agg, ids);
    NothingToCreate(w, start, agg, ids);
    RewriteStable(table, start, agg, ids);
  }

  /** When every aggregated key already has a row from `start` on, the plan creates nothing. */
  lemma NothingToCreate(w: seq<Summary>, start: Calendar.Date, agg: seq<AggRow>, ids: map<SummaryKey, set<Id>>)
    requires KeyedFrom(agg, start) && AllCurrent(w, agg, ids)
    ensures Creates(agg, ids, ExistingMap(w, start)) == []
  {
    var ex := ExistingMap(w, start);
    ExistingMapKeys(w, start);
    forall a | a in agg ensures a.key in ex {
      var i :| 0 <= i < |w| && KeyOf(w[i]) == a.key && Current(w[i], a, ids);
      assert w[i].date >= start;
    }
  }

  /** The second run's updates leave every row of the first run's table as it is. */
  lemma RewriteStable(table: seq<Summary>, start: Calendar.Date, agg: seq<AggRow>, ids: map<SummaryKey, set<Id>>)
    requires StoredIds(table) && KeyedFrom(agg, start)
    ensures var w := Written(table, agg, ids, ExistingMap(table, start)); Written(w, agg, ids, ExistingMap(w, start)) == w
  {
    var w := Written(table, agg, ids, ExistingMap(table, start));
    var w2 := Written(w, agg, ids, ExistingMap(w, start));
    WrittenStored(table, agg, ids, ExistingMap(table, start));
    WrittenFresh(table, start, agg, ids);
    NothingToCreate(w, start, agg, ids);
    forall j | 0 <= j < |w| ensures w2[j] == w[j] {
      if Chosen(w, start, agg, j) {
        var b :| b in agg && b.key == KeyOf(w[j]);
        WrittenRowUpdated(w, start, agg, ids, b);
        RechosenCurrent(table, start, agg, ids, b);
      } else {
        WrittenRowKept(w, start, agg, ids, j);
      }
    }
    assert w2 == w;
  }

  // ---------------------------------------------------------------------
  // One run over the summary table

  /** `blog_ids_map` of a run from `start`. */
  function RunIds(events: seq<BlogView>, start: Calendar.Date): map<SummaryKey, set<Id>> {
    BlogIdsMapOf(BlogIdRows(InRange(events, start)))
  }

  /** The summary table after a run from `start` that is not a dry run. */
  function Upserted(table: seq<Summary>, events: seq<BlogView>, start: Calendar.Date): seq<Summary> {
    Written(table, Aggregated(events, start), RunIds(events, start), ExistingMap(table, start))
  }

  lemma AggregatedKeyed(events: seq<BlogView>, start: Calendar.Date)
    ensures KeyedFrom(Aggregated(events, start), start)
  {
    AggregatedMeaning(events, start);
  }

  /**
   * A run adds no duplicate key (so it keeps `unique_together`, with NULLs
   * distinct as in SQL), keeps every primary key, deletes nothing, changes no
   * stored key and leaves rows dated before `start` alone.
   */
  lemma UpsertedKeepsTable(table: seq<Summary>, events: seq<BlogView>, start: Calendar.Date)
    requires StoredIds(table)
    ensures var w := Upserted(table, events, start);
      && NoNewDuplicates(table, w)
      && (UniqueKeys(table) ==> UniqueKeys(w))
      && (SqlUniqueKeys(table) ==> SqlUniqueKeys(w))
      && StoredIds(w)
      && |w| >= |table|
      && (forall i :: 0 <= i < |table| ==> KeyOf(w[i]) == KeyOf(table[i]))
      && (forall i :: 0 <= i < |table| && table[i].date < start ==> w[i] == table[i])
  {
    AggregatedKeyed(events, start);
    WrittenUnique(table, start, Aggregated(events, start), RunIds(events, start));
    WrittenStored(table, Aggregated(events, start), RunIds(events, start), ExistingMap(table, start));
    WrittenKeepsRows(table, start, Aggregated(events, start), RunIds(events, start));
  }

  /** A stored row whose key no view from `start` on carries is untouched by a run. */
  lemma UpsertedLeavesOtherKeys(table: seq<Summary>, events: seq<BlogView>, start: Calendar.Date, i: nat)
    requires StoredIds(table) && i < |table|
    requires forall e :: e in events && Calendar.DateOf(e.timestamp) >= start ==> EventKey(e) != KeyOf(table[i])
    ensures i < |Upserted(table, events, start)| && Upserted(table, events, start)[i] == table[i]
  {
    var agg := Aggregated(events, start);
    AggregatedMeaning(events, start);
    WrittenKeepsRows(table, start, agg, RunIds(events, start));
    forall a | a in agg ensures a.key != KeyOf(table[i]) {
      assert CountsKey(events, start, a);
      var e :| e in events && EventKey(e) == a.key;
    }
  }

  /**
   * After a run, every (day, country, author) key of the views from `start`
   * on has a row with the key's view count as `total_views`, its distinct
   * blogs as `blog_ids`, and `unique_blogs` equal to the number of those blogs.
   */
  lemma UpsertedHoldsViews(table: seq<Summary>, events: seq<BlogView>, start: Calendar.Date, e: BlogView)
    requires StoredIds(table) && e in events && Calendar.DateOf(e.timestamp) >= start
    ensures var w := Upserted(table, events, start); var es := InRange(events, start);
      exists i :: 0 <= i < |w| && KeyOf(w[i]) == EventKey(e)
        && w[i].totalViews == Count(es, HasKey(EventKey(e)))
        && w[i].blogIds == Some(BlogsOfKey(es, EventKey(e)))
        && w[i].uniqueBlogs == |BlogsOfKey(es, EventKey(e))|
  {
    var agg := Aggregated(events, start);
    var ids := RunIds(events, start);
    var es := InRange(events, start);
    var w := Upserted(table, events, start);
    AggregatedMeaning(events, start);
    WrittenFresh(table, start, agg, ids);
    var a :| a in agg && a.key == EventKey(e);
    assert CountsKey(events, start, a);
    var i :| 0 <= i < |w| && KeyOf(w[i]) == a.key && Current(w[i], a, ids);
    RunIdsMeaning(events, start, a.key);
  }

  /** `blog_ids_map.get(key, [])` is the key's distinct blogs. */
  lemma RunIdsMeaning(events: seq<BlogView>, start: Calendar.Date, k: SummaryKey)
    ensures IdsFor(RunIds(events, start), k) == BlogsOfKey(InRange(events, start), k)
  {
    BlogIdsMapOfMeaning(BlogIdRows(InRange(events, start)));
    BlogIdRowsMeaning(InRange(events, start), k);
  }

  /**
   * Idempotence: re-running over the same views creates no row and leaves the
   * table as it was, stale rows shadowed by a later duplicate included.
   */
  lemma UpsertedIdempotent(table: seq<Summary>, events: seq<BlogView>, start: Calendar.Date)
    requires StoredIds(table)
    ensures var w := Upserted(table, events, start);
      && Creates(Aggregated(events, start), RunIds(events, start), ExistingMap(w, start)) == []
      && Upserted(w, events, start) == w
  {
    AggregatedKeyed(events, start);
    WrittenIdempotent(table, start, Aggregated(events, start), RunIds(events, start));
  }

  // ---------------------------------------------------------------------
  // The run lock

  const LockKey := "precalculate_stats_lock"

  /** What `pg_try_advisory_lock` gives back: true, false, or an error. */
  datatype AdvisoryReply = Granted | Refused | Failed

  /** The lock state the command ends its lock phase with. */
  datatype LockState = LockState(acquired: bool, advisory: bool)

  /**
   * `lock_acquired` and `advisory_lock`: `force` counts as acquired; otherwise
   * `cache.add` decides (`None` when it raises, which counts as not added),
   * and when it did not add, a PostgreSQL engine tries the advisory lock.
   */
  function LockDecision(force: bool, added: Option<bool>, engine: string, reply: AdvisoryReply): LockState {
    if force || added == Some(true) then LockState(true, false)
    else if Text.Contains(engine, "postgresql") && reply == Granted then LockState(true, true)
    else LockState(false, false)
  }

  /**
   * A forced run takes no lock; the advisory lock is held only after a failed
   * cache lock on PostgreSQL; the run counts as locked exactly when forced, the
   * cache lock was added, or the advisory lock was granted.
   */
  lemma LockDecisionMeaning(force: bool, added: Option<bool>, engine: string, reply: AdvisoryReply)
    ensures var l := LockDecision(force, added, engine, reply);
      && (force ==> l.acquired && !l.advisory)
      && (l.advisory <==> !force && added != Some(true) && Text.Contains(engine, "postgresql") && reply == Granted)
      && (l.acquired <==> force || added == Some(true) || l.advisory)
  {
  }

  // ---------------------------------------------------------------------
  // HyperLogLog publication

  /** `60 * 60 * 24 * 90`: the counters expire after 90 days. */
  const HllTtl := 7776000

  /** `f"analytics:hll:{s.date.isoformat()}:{s.country_id or 'all'}:{s.author_id or 'all'}"`. */
  function HllKey(s: Summary): string {
    "analytics:hll:" + Calendar.IsoDate(s.date) + ":" + FastPath.IdText(s.countryId) + ":" + FastPath.IdText(s.authorId)
  }

  /** The counter the job writes for a row is the one the fast path reads for that row. */
  lemma HllKeyAgrees(s: Summary)
    ensures HllKey(s) == FastPath.SummaryHllKey(s.date, s.countryId, s.authorId)
  {
  }

  /** `[str(b) for b in s.blog_ids]`. */
  function IdTexts(ids: set<Id>): set<string> {
    set b | b in ids :: Text.NatText(b)
  }

  /** The counters as this model sees them: each key's members and its expiry. */
  datatype HllState = HllState(members: map<string, set<string>>, ttl: map<string, int>)

  function MembersAt(st: HllState, key: string): set<string> {
    if key in st.members then st.members[key] else {}
  }

  /** `if s.blog_ids:`: a null or empty list publishes nothing. */
  predicate HasBlogIds(s: Summary) {
    s.blogIds.Some? && s.blogIds.value != {}
  }

  /** One iteration: PFADD and EXPIRE for a row with blog ids, unless the calls for its key fail. */
  function PublishOne(st: HllState, s: Summary, failing: set<string>): HllState {
    var key := HllKey(s);
    if HasBlogIds(s) && key !in failing then
      HllState(st.members[key := MembersAt(st, key) + IdTexts(s.blogIds.value)], st.ttl[key := HllTtl])
    else st
  }

  /** The counters after the publication loop over `rows`. */
  function Published(st: HllState, rows: seq<Summary>, failing: set<string>): HllState {
    if rows == [] then st
    else PublishOne(Published(st, rows[..|rows| - 1], failing), rows[|rows| - 1], failing)
  }

  /** Redis, reduced to the HyperLogLog counters the job writes (as exact member sets). */
  class Redis {
    var members: map<string, set<string>>
    var ttl: map<string, int>

    constructor ()
      ensures members == map[] && ttl == map[]
    {
      members, ttl := map[], map[];
    }

    function State(): HllState
      reads this
    {
      HllState(members, ttl)
    }

    /** `PFADD key *values`. */
    method PfAdd(key: string, values: set<string>)
      modifies this
      ensures members == old(members)[key := MembersAt(old(State()), key) + values] && ttl == old(ttl)
    {
      members := members[key := MembersAt(State(), key) + values];
    }

    /** `EXPIRE key seconds`. */
    method Expire(key: string, seconds: int)
      modifies this
      ensures ttl == old(ttl)[key := seconds] && members == old(members)
    {
      ttl := ttl[key := seconds];
    }

    /** The publication loop; the keys in `failing` are those whose calls raise, which is logged and skipped. */
    method Publish(rows: seq<Summary>, failing: set<string>)
      modifies this
      ensures State() == Published(old(State()), rows, failing)
    {
      var i := 0;
      while i < |rows|
        invariant 0 <= i <= |rows|
        invariant State() == Published(old(State()), rows[..i], failing)
      {
        var s := rows[i];
        assert rows[..i + 1][..i] == rows[..i];
        var key := HllKey(s);
        if HasBlogIds(s) && key !in failing {
          PfAdd(key, IdTexts(s.blogIds.value));
          Expire(key, HllTtl);
        }
        i := i + 1;
      }
      assert rows[..|rows|] == rows;
    }
  }

  /**
   * Every row with blog ids whose key does not fail ends with its stringified
   * ids among its counter's members and a 90-day expiry.
   */
  lemma {:induction false} PublishedAdds(st: HllState, rows: seq<Summary>, failing: set<string>, j: nat)
    requires j < |rows| && HasBlogIds(rows[j]) && HllKey(rows[j]) !in failing
    ensures var r := Published(st, rows, failing); var key := HllKey(rows[j]);
      && IdTexts(rows[j].blogIds.value) <= MembersAt(r, key)
      && key in r.ttl && r.ttl[key] == HllTtl
  {
    var init := rows[..|rows| - 1];
    var last := rows[|rows| - 1];
    var p := Published(st, init, failing);
    var key := HllKey(rows[j]);
    assert Published(st, rows, failing) == PublishOne(p, last, failing);
    if j < |rows| - 1 {
      assert init[j] == rows[j];
      PublishedAdds(st, init, failing, j);
      PublishOneKeeps(p, last, failing, key);
    }
  }

  /** One iteration loses no member and keeps a 90-day expiry. */
  lemma PublishOneKeeps(p: HllState, s: Summary, failing: set<string>, key: string)
    ensures MembersAt(p, key) <= MembersAt(PublishOne(p, s, failing), key)
    ensures key in p.ttl && p.ttl[key] == HllTtl ==>
      key in PublishOne(p, s, failing).ttl && PublishOne(p, s, failing).ttl[key] == HllTtl
  {
  }

  /** A member one iteration adds to a counter comes from that row, under that row's key. */
  lemma PublishOneGains(p: HllState, s: Summary, failing: set<string>, key: string, x: string)
    requires x in MembersAt(PublishOne(p, s, failing), key) && x !in MembersAt(p, key)
    ensures HllKey(s) == key && HasBlogIds(s) && x in IdTexts(s.blogIds.value)
  {
  }

  /** A counter no row maps to keeps its members and expiry. */
  lemma {:induction false} PublishedOnlyTouchesRowKeys(st: HllState, rows: seq<Summary>, failing: set<string>, key: string)
    requires forall j :: 0 <= j < |rows| ==> HllKey(rows[j]) != key
    ensures var r := Published(st, rows, failing);
      && (key in r.members <==> key in st.members) && MembersAt(r, key) == MembersAt(st, key)
      && (key in r.ttl <==> key in st.ttl) && (key in st.ttl ==> r.ttl[key] == st.ttl[key])
  {
    if rows != [] {
      var init := rows[..|rows| - 1];
      forall j | 0 <= j < |init| ensures HllKey(init[j]) != key {
        assert init[j] == rows[j];
      }
      PublishedOnlyTouchesRowKeys(st, init, failing, key);
    }
  }

  /** Every member a counter gains is a stringified blog id of a row published under that key. */
  lemma {:induction false} PublishedMembersFromRows(st: HllState, rows: seq<Summary>, failing: set<string>, key: string, x: string)
    requires x in MembersAt(Published(st, rows, failing), key)
    ensures x in MembersAt(st, key) ||
      exists j :: 0 <= j < |rows| && HllKey(rows[j]) == key && HasBlogIds(rows[j]) && x in IdTexts(rows[j].blogIds.value)
  {
    if rows != [] {
      var init := rows[..|rows| - 1];
      var last := rows[|rows| - 1];
      var p := Published(st, init, failing);
      assert Published(st, rows, failing) == PublishOne(p, last, failing);
      if x in MembersAt(p, key) {
        PublishedMembersFromRows(st, init, failing, key, x);
        if !(x in MembersAt(st, key)) {
          var j :| 0 <= j < |init| && HllKey(init[j]) == key && HasBlogIds(init[j]) && x in IdTexts(init[j].blogIds.value);
          assert rows[j] == init[j];
        }
      } else {
        PublishOneGains(p, last, failing, key, x);
        assert rows[|rows| - 1] == last;
      }
    }
  }

  // ---------------------------------------------------------------------
  // The command

  /** `BlogView.objects.order_by("timestamp").first().timestamp`. */
  function EarliestTimestamp(events: seq<BlogView>): (t: Calendar.DateTime)
    requires events != []
    ensures exists i :: 0 <= i < |events| && events[i].timestamp == t
    ensures forall i :: 0 <= i < |events| ==> t <= events[i].timestamp
  {
    if |events| == 1 then events[0].timestamp
    else
      var m := EarliestTimestamp(events[1..]);
      assert forall i :: 1 <= i < |events| ==> events[i] == events[1..][i - 1];
      if events[0].timestamp <= m then events[0].timestamp else m
  }

  /**
   * `start_date`: `today - days` when `--days` is given and non-zero, else the
   * earliest view's day; `None` when there is no view, where the command stops.
   */
  function RangeStart(days: Option<int>, today: Calendar.Date, events: seq<BlogView>): Option<Calendar.Date> {
    if days.Some? && days.value != 0 then Some(today - days.value)
    else if events == [] then None
    else Some(Calendar.DateOf(EarliestTimestamp(events)))
  }

  /** Without `--days` the run covers every view; it stops only when there is none. */
  lemma RangeStartMeaning(days: Option<int>, today: Calendar.Date, events: seq<BlogView>)
    ensures days.Some? && days.value != 0 ==> RangeStart(days, today, events) == Some(today - days.value)
    ensures RangeStart(days, today, events).None? <==> (days.None? || days.value == 0) && events == []
    ensures (days.None? || days.value == 0) && events != [] ==>
      forall e :: e in events ==> Calendar.DateOf(e.timestamp) >= RangeStart(days, today, events).value
  {
    if (days.None? || days.value == 0) && events != [] {
      var t := EarliestTimestamp(events);
      forall e | e in events ensures Calendar.DateOf(e.timestamp) >= Calendar.DateOf(t) {
        var i :| 0 <= i < |events| && events[i] == e;
        Calendar.DateOfMonotone(t, e.timestamp);
      }
    }
  }

  /** `--days`, `--dry-run` and `--force`. */
  datatype Options = Options(days: Option<int>, dryRun: bool, force: bool)

  /**
   * What the command meets outside the tables: whether the cache answers, the
   * database engine, the advisory-lock reply, whether the advisory unlock
   * query completes, the HLL setting, whether a Redis client is available, and
   * the counter keys whose calls raise.
   */
  datatype Environment = Environment(cacheUp: bool, engine: string, advisoryReply: AdvisoryReply,
                                     unlockUp: bool, useHll: bool, redisUp: bool, failing: set<string>)

  /** Whether the run got past the range step, the two reported counts, and its lock. */
  datatype Report = Report(ran: bool, created: nat, updated: nat, lock: LockState)

  /** What `cache.add` returns: whether the key was absent, or `None` when the cache raises. */
  function CacheAdded(cacheUp: bool, entries: map<string, Cached>): Option<bool> {
    if cacheUp then Some(LockKey !in entries) else None
  }

  /** The cache after the lock phase. */
  function LockedEntries(force: bool, cacheUp: bool, entries: map<string, Cached>): map<string, Cached> {
    if !force && cacheUp && LockKey !in entries then entries[LockKey := Flag("1")] else entries
  }

  /** Creating before updating gives the same table: no update shares a primary key with a created row. */
  lemma CreateThenUpdate(table: seq<Summary>, start: Calendar.Date, agg: seq<AggRow>, ids: map<SummaryKey, set<Id>>)
    ensures var ex := ExistingMap(table, start);
      Overwritten(table + Assigned(Creates(agg, ids, ex), NextId(table)), Updates(agg, ids, ex)) == Written(table, agg, ids, ex)
  {
    var ix := ExistingIndex(table, start);
    var ex := ExistingMap(table, start);
    var us := Updates(agg, ids, ex);
    var acs := Assigned(Creates(agg, ids, ex), NextId(table));
    forall c, u | c in acs && u in us ensures !SamePk(u, c) {
      UpdateOrigin(table, start, agg, ids, u);
      var b :| b in agg && b.key in ix && u == Refresh(table[ix[b.key]], b, ids);
      var p :| 0 <= p < |acs| && acs[p] == c;
      assert u.id == table[ix[b.key]].id;
    }
    OverwriteAppend(table, acs, us);
  }

  lemma OverwriteAppend(t: seq<Summary>, cs: seq<Summary>, us: seq<Summary>)
    requires forall c, u :: c in cs && u in us ==> !SamePk(u, c)
    ensures Overwritten(t + cs, us) == Overwritten(t, us) + cs
  {
    var o := Overwritten(t + cs, us);
    forall j | |t| <= j < |t| + |cs| ensures o[j] == cs[j - |t|] {
      assert (t + cs)[j] == cs[j - |t|] && cs[j - |t|] in cs;
    }
    assert o == Overwritten(t, us) + cs;
  }

  lemma OverwrittenByNothing(rows: seq<Summary>)
    ensures Overwritten(rows, []) == rows
  {
  }

  /**
   * `Command.handle`: take the lock, fix the range, aggregate, plan the upserts,
   * write them unless it is a dry run, publish the counters when HLL is on and
   * Redis is reachable, then delete the cache lock and release the advisory lock.
   * With no range it stops before any write and before the release.
   */
  method Handle(db: Database, cache: Cache, redis: Redis, opts: Options, env: Environment,
                today: Calendar.Date, events: seq<BlogView>)
    returns (report: Report)
    modifies db, cache, redis
    ensures var lock := LockDecision(opts.force, CacheAdded(env.cacheUp, old(cache.entries)), env.engine, env.advisoryReply);
      var start := RangeStart(opts.days, today, events);
      var locked := LockedEntries(opts.force, env.cacheUp, old(cache.entries));
      && report.lock == lock
      && report.ran == start.Some?
      && db.advisoryHeld == (if lock.advisory then start.None? || !env.unlockUp else old(db.advisoryHeld))
      && (start.None? ==>
            && db.summaries == old(db.summaries) && redis.State() == old(redis.State())
            && cache.entries == locked)
      && (start.Some? ==>
            var agg := Aggregated(events, start.value);
            var ids := RunIds(events, start.value);
            var ex := ExistingMap(old(db.summaries), start.value);
            && report.created == |Creates(agg, ids, ex)| && report.updated == |Updates(agg, ids, ex)|
            && db.summaries == (if opts.dryRun then old(db.summaries) else Upserted(old(db.summaries), events, start.value))
            && redis.State() == (if env.useHll && env.redisUp
                                 then Published(old(redis.State()), Creates(agg, ids, ex) + Updates(agg, ids, ex), env.failing)
                                 else old(redis.State()))
            && cache.entries == (if env.cacheUp then locked - {LockKey} else locked))
  {
    var lock := AcquireLock(db, cache, opts.force, env);
    var start := RangeStart(opts.days, today, events);
    if start.None? {
      return Report(false, 0, 0, lock);
    }
    var toCreate, toUpdate := Upsert(db, events, start.value, opts.dryRun);
    if env.useHll && env.redisUp {
      redis.Publish(toCreate + toUpdate, env.failing);
    }
    ReleaseLock(db, cache, env.cacheUp, lock.advisory, env.unlockUp);
    report := Report(true, |toCreate|, |toUpdate|, lock);
  }

  /** Aggregate the range, build `blog_ids_map`, plan the upserts and write them unless it is a dry run. */
  method Upsert(db: Database, events: seq<BlogView>, st: Calendar.Date, dryRun: bool)
    returns (toCreate: seq<Summary>, toUpdate: seq<Summary>)
    modifies db
    ensures var agg := Aggregated(events, st);
      var ids := RunIds(events, st);
      var ex := ExistingMap(old(db.summaries), st);
      && toCreate == Creates(agg, ids, ex) && toUpdate == Updates(agg, ids, ex)
      && db.summaries == (if dryRun then old(db.summaries) else Upserted(old(db.summaries), events, st))
      && db.advisoryHeld == old(db.advisoryHeld)
  {
    var agg := Aggregated(events, st);
    var ids := BuildBlogIdsMap(BlogIdRows(InRange(events, st)));
    var ex := ExistingMap(db.summaries, st);
    toCreate, toUpdate := PlanUpserts(agg, ids, ex);
    CreateThenUpdate(db.summaries, st, agg, ids);
    WriteSummaries(db, toCreate, toUpdate, dryRun);
  }

  /** The lock phase: `cache.add` unless forced, then the advisory lock on PostgreSQL if that did not lock. */
  method AcquireLock(db: Database, cache: Cache, force: bool, env: Environment) returns (lock: LockState)
    modifies db, cache
    ensures lock == LockDecision(force, CacheAdded(env.cacheUp, old(cache.entries)), env.engine, env.advisoryReply)
    ensures cache.entries == LockedEntries(force, env.cacheUp, old(cache.entries))
    ensures db.summaries == old(db.summaries) && db.advisoryHeld == (old(db.advisoryHeld) || lock.advisory)
  {
    var lockAcquired := false;
    var advisoryLock := false;
    if !force {
      if env.cacheUp {
        lockAcquired := cache.Add(LockKey, Flag("1"));
      }
    } else {
      lockAcquired := true;
    }
    if !lockAcquired && Text.Contains(env.engine, "postgresql") {
      var granted := db.TryAdvisoryLock(env.advisoryReply);
      if granted {
        advisoryLock := true;
        lockAcquired := true;
      }
    }
    lock := LockState(lockAcquired, advisoryLock);
  }

  /** The write phase: bulk create, then bulk update, each only when its list is non-empty; nothing on a dry run. */
  method WriteSummaries(db: Database, toCreate: seq<Summary>, toUpdate: seq<Summary>, dryRun: bool)
    modifies db
    ensures db.summaries == if dryRun then old(db.summaries)
      else Overwritten(old(db.summaries) + Assigned(toCreate, NextId(old(db.summaries))), toUpdate)
    ensures db.advisoryHeld == old(db.advisoryHeld)
  {
    if !dryRun {
      OverwrittenByNothing(db.summaries + Assigned(toCreate, NextId(db.summaries)));
      if toCreate != [] {
        db.BulkCreate(toCreate);
      }
      if toUpdate != [] {
        db.BulkUpdate(toUpdate);
      }
    }
  }

  /**
   * The release: `cache.delete(lock_key)` whatever this run acquired (a cache
   * error is ignored), then the advisory unlock if held; an unlock that raises
   * is logged and leaves the lock held.
   */
  method ReleaseLock(db: Database, cache: Cache, cacheUp: bool, advisory: bool, unlockUp: bool)
    modifies db, cache
    ensures cache.entries == if cacheUp then old(cache.entries) - {LockKey} else old(cache.entries)
    ensures db.summaries == old(db.summaries)
    ensures db.advisoryHeld == if advisory && unlockUp then false else old(db.advisoryHeld)
  {
    if cacheUp {
      cache.Delete(LockKey);
    }
    if advisory {
      db.AdvisoryUnlock(unlockUp);
    }
  }
}
