/**
 * `get_performance_analytics`: the matching views bucketed by a truncated
 * period (day, ISO week, month or year), each period carrying its view count,
 * a blog count for the label, and the growth of its views over the previous
 * period. The granularity follows `compare` when given, otherwise the span
 * between the first and the last matching view. Timestamps are UTC.
 */
module Performance {
  import opened Wrappers
  import opened Seqs
  import opened Models
  import opened Params
  import opened ResultCache
  import Calendar
  import Text
  import CanonicalJson
  import LiveAggregates

  datatype Granularity = Day | Week | Month | Year

  /** How coarse a granularity is. */
  function Rank(g: Granularity): nat {
    match g
    case Day => 0
    case Week => 1
    case Month => 2
    case Year => 3
  }

  /** A truthy `compare` picks the truncation; otherwise the span in whole days does. */
  function ChooseGranularity(compare: Option<string>, days: int): Granularity {
    if compare.Some? && compare.value != "" then
      if compare.value == "year" then Year
      else if compare.value == "month" then Month
      else if compare.value == "week" then Week
      else Day
    else
      var d := if days <= 0 then 1 else days;
      if d > 365 then Month else if d > 30 then Week else Day
  }

  /** With `compare` given, the span plays no part. */
  lemma CompareOverridesSpan(compare: Option<string>, d1: int, d2: int)
    requires compare.Some? && compare.value != ""
    ensures ChooseGranularity(compare, d1) == ChooseGranularity(compare, d2)
    ensures ChooseGranularity(compare, d1) == Year <==> compare.value == "year"
  {
  }

  /** Without `compare`: monthly past a year, weekly past thirty days, daily otherwise; never yearly. */
  lemma AutomaticGranularity(compare: Option<string>, days: int)
    requires compare.None? || compare.value == ""
    ensures ChooseGranularity(compare, days) == Month <==> days > 365
    ensures ChooseGranularity(compare, days) == Week <==> 30 < days <= 365
    ensures ChooseGranularity(compare, days) == Day <==> days <= 30
  {
  }

  /** A longer span never gives a finer granularity. */
  lemma GranularityMonotone(compare: Option<string>, d1: int, d2: int)
    requires d1 <= d2
    ensures Rank(ChooseGranularity(compare, d1)) <= Rank(ChooseGranularity(compare, d2))
  {
  }

  /** `Trunc*("timestamp")`, as the first day of the period. */
  function Truncate(g: Granularity, t: Calendar.DateTime): Calendar.Date {
    var d := Calendar.DateOf(t);
    match g
    case Day => d
    case Week => Calendar.WeekStart(d)
    case Month => Calendar.MonthStart(d)
    case Year => Calendar.YearStart(d)
  }

  /** Daily and weekly periods start on or before the day, at most six days earlier, on a Monday for weeks. */
  lemma TruncateDayAndWeek(t: Calendar.DateTime)
    ensures Truncate(Day, t) == Calendar.DateOf(t)
    ensures Truncate(Week, t) <= Calendar.DateOf(t) < Truncate(Week, t) + 7
    ensures (Truncate(Week, t) + 3) % 7 == 0
    ensures Truncate(Week, Calendar.Midnight(Truncate(Week, t))) == Truncate(Week, t)
  {
    var d := Calendar.DateOf(t);
    var w := Calendar.WeekStart(d);
    assert Calendar.DateOf(Calendar.Midnight(w)) == w;
    assert (w + 3) % 7 == 0;
  }

  // ---------------------------------------------------------------------
  // The span of the matching views

  function StampOf(e: BlogView): Calendar.DateTime { e.timestamp }

  /** `Min("timestamp")`. */
  function MinStamp(es: seq<BlogView>): (m: Calendar.DateTime)
    requires es != []
    ensures exists i :: 0 <= i < |es| && es[i].timestamp == m
    ensures forall i :: 0 <= i < |es| ==> m <= es[i].timestamp
  {
    if |es| == 1 then es[0].timestamp
    else
      var rest := MinStamp(es[1..]);
      assert forall i :: 1 <= i < |es| ==> es[i] == es[1..][i - 1];
      if es[0].timestamp <= rest then es[0].timestamp else rest
  }

  /** `Max("timestamp")`. */
  function MaxStamp(es: seq<BlogView>): (m: Calendar.DateTime)
    requires es != []
    ensures exists i :: 0 <= i < |es| && es[i].timestamp == m
    ensures forall i :: 0 <= i < |es| ==> es[i].timestamp <= m
  {
    if |es| == 1 then es[0].timestamp
    else
      var rest := MaxStamp(es[1..]);
      assert forall i :: 1 <= i < |es| ==> es[i] == es[1..][i - 1];
      if es[0].timestamp >= rest then es[0].timestamp else rest
  }

  /** `(max_date - min_date).days`: whole days between the first and the last view. */
  function SpanDays(es: seq<BlogView>): (d: nat)
    requires es != []
    ensures forall i, j :: 0 <= i < |es| && 0 <= j < |es| ==>
      es[j].timestamp - es[i].timestamp < (d + 1) * Calendar.SecondsPerDay
  {
    (MaxStamp(es) - MinStamp(es)) / Calendar.SecondsPerDay
  }

  // ---------------------------------------------------------------------
  // `values("period").annotate(...)`: one entry per period, in period order

  datatype PeriodCount = PeriodCount(period: Calendar.Date, count: nat)

  /** The periods that occur, each once, increasing. */
  function Periods<T>(xs: seq<T>, period: T -> Calendar.Date): seq<Calendar.Date> {
    SortedUnique(seq(|xs|, i requires 0 <= i < |xs| => period(xs[i])))
  }

  lemma PeriodsMeaning<T>(xs: seq<T>, period: T -> Calendar.Date)
    ensures StrictlyIncreasing(Periods(xs, period))
    ensures forall p :: p in Periods(xs, period) <==> exists i :: 0 <= i < |xs| && period(xs[i]) == p
  {
    var ps := seq(|xs|, i requires 0 <= i < |xs| => period(xs[i]));
    forall p ensures p in ps <==> exists i :: 0 <= i < |xs| && period(xs[i]) == p {
      if exists i :: 0 <= i < |xs| && period(xs[i]) == p {
        var i :| 0 <= i < |xs| && period(xs[i]) == p;
        assert ps[i] == p;
      }
    }
  }

  function PeriodIs<T>(period: T -> Calendar.Date, p: Calendar.Date): T -> bool {
    (x: T) => period(x) == p
  }

  /** The elements whose period is `p`. */
  function Within<T(!new)>(xs: seq<T>, period: T -> Calendar.Date, p: Calendar.Date): seq<T> {
    Filter(xs, PeriodIs(period, p))
  }

  function ViewPeriodOf(g: Granularity): BlogView -> Calendar.Date {
    (e: BlogView) => Truncate(g, e.timestamp)
  }

  function CreatedPeriodOf(g: Granularity): Blog -> Calendar.Date {
    (b: Blog) => Truncate(g, b.createdAt)
  }

  /** `annotate(views=Count("id"))` per period. */
  function ViewsQuery(g: Granularity, es: seq<BlogView>): seq<PeriodCount> {
    var ps := Periods(es, ViewPeriodOf(g));
    seq(|ps|, i requires 0 <= i < |ps| => PeriodCount(ps[i], |Within(es, ViewPeriodOf(g), ps[i])|))
  }

  /** `annotate(blogs=Count("blog", distinct=True))` per period. */
  function ViewedBlogsQuery(g: Granularity, es: seq<BlogView>): seq<PeriodCount> {
    var ps := Periods(es, ViewPeriodOf(g));
    seq(|ps|, i requires 0 <= i < |ps| => PeriodCount(ps[i], LiveAggregates.DistinctBlogs(Within(es, ViewPeriodOf(g), ps[i]))))
  }

  /** `annotate(blogs=Count("id"))` per creation period. */
  function CreatedQuery(g: Granularity, blogs: seq<Blog>): seq<PeriodCount> {
    var ps := Periods(blogs, CreatedPeriodOf(g));
    seq(|ps|, i requires 0 <= i < |ps| => PeriodCount(ps[i], |Within(blogs, CreatedPeriodOf(g), ps[i])|))
  }

  function AuthorIs(name: string): Blog -> bool {
    (b: Blog) => b.author.username == name
  }

  /** `Blog.objects.all()`, narrowed to the author when `author_username` is truthy. */
  function AuthorBlogs(f: FilterDict, blogs: seq<Blog>): seq<Blog> {
    if AuthorGiven(f) then Filter(blogs, AuthorIs(f.authorUsername.value)) else blogs
  }

  /** The `period` column of a query result, in its order. */
  function KeysOf(q: seq<PeriodCount>): (ks: seq<Calendar.Date>)
    ensures |ks| == |q| && forall i :: 0 <= i < |q| ==> ks[i] == q[i].period
  {
    seq(|q|, i requires 0 <= i < |q| => q[i].period)
  }

  // ---------------------------------------------------------------------
  // Dictionaries keyed by period

  /** `{e.period: e.count for e in q}`: later entries overwrite earlier ones. */
  function LastWins(q: seq<PeriodCount>): map<Calendar.Date, nat> {
    if q == [] then map[] else LastWins(q[..|q| - 1])[q[|q| - 1].period := q[|q| - 1].count]
  }

  /** `d.get(p, 0)`. */
  function GetOrZero(d: map<Calendar.Date, nat>, p: Calendar.Date): nat {
    if p in d then d[p] else 0
  }

  /** With distinct periods, the dictionary holds exactly the periods, each with its own count. */
  lemma {:induction false} LastWinsDistinct(q: seq<PeriodCount>)
    requires StrictlyIncreasing(KeysOf(q))
    ensures forall p :: p in LastWins(q) <==> p in KeysOf(q)
    ensures forall i :: 0 <= i < |q| ==> LastWins(q)[q[i].period] == q[i].count
  {
    if q != [] {
      var init := q[..|q| - 1];
      assert KeysOf(init) == KeysOf(q)[..|q| - 1];
      LastWinsDistinct(init);
      assert forall p :: p in KeysOf(q) <==> p in KeysOf(init) || p == q[|q| - 1].period by {
        assert KeysOf(q) == KeysOf(init) + [q[|q| - 1].period];
      }
      forall i | 0 <= i < |q| ensures LastWins(q)[q[i].period] == q[i].count {
        if i < |q| - 1 {
          assert KeysOf(q)[i] < KeysOf(q)[|q| - 1];
          assert init[i] == q[i];
        }
      }
    }
  }

  /** `for entry in q: d[entry["period"]] = entry[...]`. */
  method FillByPeriod(q: seq<PeriodCount>) returns (d: map<Calendar.Date, nat>)
    ensures d == LastWins(q)
  {
    d := map[];
    var i := 0;
    while i < |q|
      invariant 0 <= i <= |q|
      invariant d == LastWins(q[..i])
    {
      assert q[..i + 1][..i] == q[..i];
      d := d[q[i].period := q[i].count];
      i := i + 1;
    }
    assert q[..|q|] == q;
  }

  // ---------------------------------------------------------------------
  // The per-period rows and their growth

  datatype RawEntry = RawEntry(period: Calendar.Date, views: nat, blogs: nat)

  /** The row of each period: its views and its blogs, zero where the period has none. */
  function RawRows(periods: seq<Calendar.Date>, views: map<Calendar.Date, nat>, blogs: map<Calendar.Date, nat>): seq<RawEntry> {
    seq(|periods|, i requires 0 <= i < |periods| => RawEntry(periods[i], GetOrZero(views, periods[i]), GetOrZero(blogs, periods[i])))
  }

  /** The loop over `all_periods` building `raw_data`. */
  method BuildRawData(periods: seq<Calendar.Date>, views: map<Calendar.Date, nat>, blogs: map<Calendar.Date, nat>)
    returns (raw: seq<RawEntry>)
    ensures raw == RawRows(periods, views, blogs)
  {
    raw := [];
    var i := 0;
    while i < |periods|
      invariant 0 <= i <= |periods|
      invariant raw == RawRows(periods[..i], views, blogs)
    {
      raw := raw + [RawEntry(periods[i], GetOrZero(views, periods[i]), GetOrZero(blogs, periods[i]))];
      i := i + 1;
    }
    assert periods[..|periods|] == periods;
  }

  /** `((views - prev) / prev * 100) if prev > 0 else 0.0`, before rounding. */
  function Growth(prev: int, views: int): real {
    if prev > 0 then (views - prev) as real / prev as real * 100.0 else 0.0
  }

  /** The views of the period before the `i`-th, zero for the first. */
  function PrevViews(raw: seq<RawEntry>, i: nat): nat
    requires i < |raw|
  {
    if i == 0 then 0 else raw[i - 1].views
  }

  /** `f"{period:%Y-%m-%d} ({blogs} blogs)"`. */
  function Label(e: RawEntry): string {
    Calendar.IsoDate(e.period) + " (" + Text.NatText(e.blogs) + " blogs)"
  }

  /** The growth series: each period's label, views and growth over the one before. */
  function GrowthPoints(raw: seq<RawEntry>): (r: seq<PerfPoint>)
    ensures |r| == |raw|
  {
    seq(|raw|, i requires 0 <= i < |raw| => PerfPoint(Label(raw[i]), raw[i].views, Growth(PrevViews(raw, i), raw[i].views)))
  }

  /** `_calculate_growth_periods`. */
  method CalculateGrowthPeriods(raw: seq<RawEntry>) returns (results: seq<PerfPoint>)
    ensures results == GrowthPoints(raw)
  {
    results := [];
    var prevViews: int := 0;
    var i := 0;
    while i < |raw|
      invariant 0 <= i <= |raw|
      invariant i < |raw| ==> prevViews == PrevViews(raw, i)
      invariant results == GrowthPoints(raw)[..i]
    {
      var views: int := raw[i].views;
      var growth := Growth(prevViews, views);
      var point := PerfPoint(Label(raw[i]), views, growth);
      GrowthPointsStep(raw, i, prevViews, point);
      results := results + [point];
      prevViews := views;
      i := i + 1;
    }
    assert GrowthPoints(raw)[..|raw|] == GrowthPoints(raw);
  }

  lemma GrowthPointsStep(raw: seq<RawEntry>, i: nat, prev: int, point: PerfPoint)
    requires i < |raw| && prev == PrevViews(raw, i)
    requires point == PerfPoint(Label(raw[i]), raw[i].views, Growth(prev, raw[i].views))
    ensures GrowthPoints(raw)[..i + 1] == GrowthPoints(raw)[..i] + [point]
  {
    var g := GrowthPoints(raw);
    assert g[i] == point;
    TakeSnoc(g, i);
  }

  /** Growth is positive exactly when views rose from a non-zero previous period, negative when they fell. */
  lemma GrowthSign(prev: nat, views: nat)
    ensures Growth(prev, views) > 0.0 <==> prev > 0 && views > prev
    ensures Growth(prev, views) < 0.0 <==> prev > 0 && views < prev
    ensures Growth(prev, views) >= -100.0
  {
    if prev > 0 {
      var q := (views - prev) as real / prev as real;
      assert q * prev as real == (views - prev) as real;
      if views > prev { assert q > 0.0; }
      if views < prev { assert q < 0.0; }
      var r := q + 1.0;
      assert r * prev as real == views as real;
      assert r >= 0.0;
    }
  }

  /** The previous views and the growth give back the current views. */
  lemma GrowthRoundTrip(prev: nat, views: nat)
    requires prev > 0
    ensures prev as real + prev as real * Growth(prev, views) / 100.0 == views as real
  {
    var q := (views - prev) as real / prev as real;
    assert q * prev as real == (views - prev) as real;
  }

  /** The first period has growth zero, and so does any period after a period without views. */
  lemma GrowthAfterEmpty(raw: seq<RawEntry>, i: nat)
    requires i < |raw| && (i == 0 || raw[i - 1].views == 0)
    ensures GrowthPoints(raw)[i].z == 0.0
    ensures GrowthPoints(raw)[i].y == raw[i].views
  {
  }

  /** Views `[0, 100, 50]` give growth `[0, 0, -50]`: the rise from zero is reported as zero. */
  lemma GrowthExample(p0: Calendar.Date, p1: Calendar.Date, p2: Calendar.Date)
    ensures var r := GrowthPoints([RawEntry(p0, 0, 1), RawEntry(p1, 100, 1), RawEntry(p2, 50, 1)]);
      r[0].z == 0.0 && r[1].z == 0.0 && r[2].z == -50.0 && r[1].y == 100
  {
    var raw := [RawEntry(p0, 0, 1), RawEntry(p1, 100, 1), RawEntry(p2, 50, 1)];
    assert PrevViews(raw, 2) == 100;
    assert Growth(100, 50) == -50.0;
  }

  // ---------------------------------------------------------------------
  // The whole query

  /** The granularity of a non-empty selection. */
  function GranularityOf(f: FilterDict, es: seq<BlogView>): Granularity
    requires es != []
  {
    ChooseGranularity(f.compare, SpanDays(es))
  }

  /** The blog-count query for the label, per the `IDEEZA_PERFORMANCE_X_METRIC` setting. */
  function BlogsQuery(metric: string, g: Granularity, f: FilterDict, es: seq<BlogView>, blogs: seq<Blog>): seq<PeriodCount> {
    if metric == "created" then CreatedQuery(g, AuthorBlogs(f, blogs)) else ViewedBlogsQuery(g, es)
  }

  /** `sorted(set(views_map.keys()) | set(blogs_by_period.keys()))`. */
  function AllPeriods(metric: string, f: FilterDict, es: seq<BlogView>, blogs: seq<Blog>): seq<Calendar.Date>
    requires es != []
  {
    var g := GranularityOf(f, es);
    SortedUnique(KeysOf(ViewsQuery(g, es)) + KeysOf(BlogsQuery(metric, g, f, es, blogs)))
  }

  /** `raw_data` of the matching views `es` (non-empty). */
  function PerformanceRaw(metric: string, f: FilterDict, es: seq<BlogView>, blogs: seq<Blog>): seq<RawEntry>
    requires es != []
  {
    var g := GranularityOf(f, es);
    RawRows(AllPeriods(metric, f, es, blogs), LastWins(ViewsQuery(g, es)), LastWins(BlogsQuery(metric, g, f, es, blogs)))
  }

  /** The performance query: nothing without matching views, else the growth series. */
  function PerformanceAnalytics(metric: string, f: FilterDict, events: seq<BlogView>, blogs: seq<Blog>): seq<PerfPoint> {
    var es := LiveAggregates.Matching(f, events);
    if es == [] then [] else GrowthPoints(PerformanceRaw(metric, f, es, blogs))
  }

  /** `views_map.get(p, 0)` is the number of matching views in period `p`. */
  lemma ViewsMapCounts(g: Granularity, es: seq<BlogView>, p: Calendar.Date)
    ensures GetOrZero(LastWins(ViewsQuery(g, es)), p) == |Within(es, ViewPeriodOf(g), p)|
  {
    var vq := ViewsQuery(g, es);
    var ps := Periods(es, ViewPeriodOf(g));
    PeriodsMeaning(es, ViewPeriodOf(g));
    assert KeysOf(vq) == ps;
    LastWinsDistinct(vq);
    if p in ps {
      var i :| 0 <= i < |ps| && ps[i] == p;
      assert vq[i].period == p;
    } else {
      assert forall i :: 0 <= i < |es| ==> !PeriodIs(ViewPeriodOf(g), p)(es[i]);
    }
  }

  /** With the default metric, `blogs_by_period.get(p, 0)` is the number of distinct blogs viewed in `p`. */
  lemma ViewedBlogsMapCounts(g: Granularity, es: seq<BlogView>, p: Calendar.Date)
    ensures GetOrZero(LastWins(ViewedBlogsQuery(g, es)), p) == LiveAggregates.DistinctBlogs(Within(es, ViewPeriodOf(g), p))
  {
    var bq := ViewedBlogsQuery(g, es);
    var ps := Periods(es, ViewPeriodOf(g));
    PeriodsMeaning(es, ViewPeriodOf(g));
    assert KeysOf(bq) == ps;
    LastWinsDistinct(bq);
    if p in ps {
      var i :| 0 <= i < |ps| && ps[i] == p;
      assert bq[i].period == p;
    } else {
      assert forall i :: 0 <= i < |es| ==> !PeriodIs(ViewPeriodOf(g), p)(es[i]);
      assert Within(es, ViewPeriodOf(g), p) == [];
    }
  }

  /** With the `created` metric, `blogs_by_period.get(p, 0)` is the number of blogs created in `p`. */
  lemma CreatedMapCounts(g: Granularity, bs: seq<Blog>, p: Calendar.Date)
    ensures GetOrZero(LastWins(CreatedQuery(g, bs)), p) == |Within(bs, CreatedPeriodOf(g), p)|
  {
    var bq := CreatedQuery(g, bs);
    var ps := Periods(bs, CreatedPeriodOf(g));
    PeriodsMeaning(bs, CreatedPeriodOf(g));
    assert KeysOf(bq) == ps;
    LastWinsDistinct(bq);
    if p in ps {
      var i :| 0 <= i < |ps| && ps[i] == p;
      assert bq[i].period == p;
    } else {
      assert forall i :: 0 <= i < |bs| ==> !PeriodIs(CreatedPeriodOf(g), p)(bs[i]);
    }
  }

  /** Periods come in increasing order, and the period of every matching view has a row. */
  lemma RawPeriods(metric: string, f: FilterDict, es: seq<BlogView>, blogs: seq<Blog>)
    requires es != []
    ensures var raw := PerformanceRaw(metric, f, es, blogs);
      && (forall i, j :: 0 <= i < j < |raw| ==> raw[i].period < raw[j].period)
      && forall e :: e in es ==> exists i :: 0 <= i < |raw| && raw[i].period == Truncate(GranularityOf(f, es), e.timestamp)
  {
    var g := GranularityOf(f, es);
    var vq := ViewsQuery(g, es);
    var ps := AllPeriods(metric, f, es, blogs);
    var raw := PerformanceRaw(metric, f, es, blogs);
    assert forall i :: 0 <= i < |raw| ==> raw[i].period == ps[i];
    PeriodsMeaning(es, ViewPeriodOf(g));
    assert KeysOf(vq) == Periods(es, ViewPeriodOf(g));
    forall e | e in es ensures exists i :: 0 <= i < |raw| && raw[i].period == Truncate(g, e.timestamp) {
      var k :| 0 <= k < |es| && es[k] == e;
      var p := ViewPeriodOf(g)(e);
      assert p in KeysOf(vq);
      assert p in ps;
      var i :| 0 <= i < |ps| && ps[i] == p;
      assert raw[i].period == p;
    }
  }

  /** The row periods are exactly the union of the view periods and the label query's periods. */
  lemma RawPeriodsAreUnion(metric: string, f: FilterDict, es: seq<BlogView>, blogs: seq<Blog>)
    requires es != []
    ensures forall p :: HasRowFor(PerformanceRaw(metric, f, es, blogs), p) <==>
      p in KeysOf(ViewsQuery(GranularityOf(f, es), es)) || p in KeysOf(BlogsQuery(metric, GranularityOf(f, es), f, es, blogs))
  {
    var g := GranularityOf(f, es);
    var vq, bq := ViewsQuery(g, es), BlogsQuery(metric, g, f, es, blogs);
    var ps := SortedUnique(KeysOf(vq) + KeysOf(bq));
    assert PerformanceRaw(metric, f, es, blogs) == RawRows(ps, LastWins(vq), LastWins(bq));
    RawRowsPeriods(ps, LastWins(vq), LastWins(bq));
  }

  /** The rows built over a list of periods have exactly those periods. */
  lemma RawRowsPeriods(periods: seq<Calendar.Date>, views: map<Calendar.Date, nat>, blogs: map<Calendar.Date, nat>)
    ensures forall p :: HasRowFor(RawRows(periods, views, blogs), p) <==> p in periods
  {
    var raw := RawRows(periods, views, blogs);
    forall p | p in periods ensures HasRowFor(raw, p) {
      var i :| 0 <= i < |periods| && periods[i] == p;
      assert raw[i].period == p;
    }
  }

  /** Some row of `raw` is for period `p`. */
  predicate HasRowFor(raw: seq<RawEntry>, p: Calendar.Date) {
    exists i :: 0 <= i < |raw| && raw[i].period == p
  }

  /** Some view of `es` falls in period `p`. */
  predicate ViewedIn(es: seq<BlogView>, g: Granularity, p: Calendar.Date) {
    exists k :: 0 <= k < |es| && Truncate(g, es[k].timestamp) == p
  }

  /** Some blog of `bs` was created in period `p`. */
  predicate CreatedIn(bs: seq<Blog>, g: Granularity, p: Calendar.Date) {
    exists k :: 0 <= k < |bs| && Truncate(g, bs[k].createdAt) == p
  }

  /**
   * A period has a row exactly when a matching view falls in it or, with the
   * `created` metric, a blog (of the author, when one is given) was created in it.
   */
  lemma RawPeriodsMeaning(metric: string, f: FilterDict, es: seq<BlogView>, blogs: seq<Blog>)
    requires es != []
    ensures var raw := PerformanceRaw(metric, f, es, blogs); var g := GranularityOf(f, es);
      forall p :: HasRowFor(raw, p) <==> ViewedIn(es, g, p) || (metric == "created" && CreatedIn(AuthorBlogs(f, blogs), g, p))
  {
    var g := GranularityOf(f, es);
    var bs := AuthorBlogs(f, blogs);
    var raw := PerformanceRaw(metric, f, es, blogs);
    var k1, k2 := KeysOf(ViewsQuery(g, es)), KeysOf(BlogsQuery(metric, g, f, es, blogs));
    RawPeriodsAreUnion(metric, f, es, blogs);
    assert forall p :: HasRowFor(raw, p) <==> p in k1 || p in k2;
    ViewPeriodsMeaning(es, g);
    assert k1 == Periods(es, ViewPeriodOf(g));
    if metric == "created" {
      CreatedPeriodsMeaning(bs, g);
      assert k2 == Periods(bs, CreatedPeriodOf(g));
    } else {
      assert k2 == Periods(es, ViewPeriodOf(g));
    }
  }

  lemma ViewPeriodsMeaning(es: seq<BlogView>, g: Granularity)
    ensures forall p :: p in Periods(es, ViewPeriodOf(g)) <==> ViewedIn(es, g, p)
  {
    PeriodsMeaning(es, ViewPeriodOf(g));
  }

  lemma CreatedPeriodsMeaning(bs: seq<Blog>, g: Granularity)
    ensures forall p :: p in Periods(bs, CreatedPeriodOf(g)) <==> CreatedIn(bs, g, p)
  {
    PeriodsMeaning(bs, CreatedPeriodOf(g));
  }

  /** Every row's `views` is the number of matching views in its period. */
  lemma RawViews(metric: string, f: FilterDict, es: seq<BlogView>, blogs: seq<Blog>)
    requires es != []
    ensures var raw := PerformanceRaw(metric, f, es, blogs);
      forall i :: 0 <= i < |raw| ==> raw[i].views == |Within(es, ViewPeriodOf(GranularityOf(f, es)), raw[i].period)|
  {
    var g := GranularityOf(f, es);
    var raw := PerformanceRaw(metric, f, es, blogs);
    forall i | 0 <= i < |raw| ensures raw[i].views == |Within(es, ViewPeriodOf(g), raw[i].period)| {
      ViewsMapCounts(g, es, raw[i].period);
    }
  }

  /** With the `created` metric, `blogs` counts the blogs (of the author, when one is given) created in the period, whatever the other filters. */
  lemma RawBlogsCreated(f: FilterDict, es: seq<BlogView>, blogs: seq<Blog>)
    requires es != []
    ensures var raw := PerformanceRaw("created", f, es, blogs);
      forall i :: 0 <= i < |raw| ==>
        raw[i].blogs == |Within(AuthorBlogs(f, blogs), CreatedPeriodOf(GranularityOf(f, es)), raw[i].period)|
  {
    var g := GranularityOf(f, es);
    var raw := PerformanceRaw("created", f, es, blogs);
    forall i | 0 <= i < |raw|
      ensures raw[i].blogs == |Within(AuthorBlogs(f, blogs), CreatedPeriodOf(g), raw[i].period)|
    {
      CreatedMapCounts(g, AuthorBlogs(f, blogs), raw[i].period);
    }
  }

  /** With the default metric, every period has views, and `blogs` counts the distinct blogs viewed in it. */
  lemma RawBlogsViewed(metric: string, f: FilterDict, es: seq<BlogView>, blogs: seq<Blog>)
    requires es != [] && metric != "created"
    ensures var raw := PerformanceRaw(metric, f, es, blogs); var g := GranularityOf(f, es);
      forall i :: 0 <= i < |raw| ==>
        raw[i].views >= 1 && raw[i].blogs == LiveAggregates.DistinctBlogs(Within(es, ViewPeriodOf(g), raw[i].period))
  {
    var raw := PerformanceRaw(metric, f, es, blogs);
    forall i | 0 <= i < |raw|
      ensures raw[i].views >= 1
      ensures raw[i].blogs == LiveAggregates.DistinctBlogs(Within(es, ViewPeriodOf(GranularityOf(f, es)), raw[i].period))
    {
      RawBlogsViewedAt(metric, f, es, blogs, i);
    }
  }

  lemma RawBlogsViewedAt(metric: string, f: FilterDict, es: seq<BlogView>, blogs: seq<Blog>, i: nat)
    requires es != [] && metric != "created" && i < |PerformanceRaw(metric, f, es, blogs)|
    ensures var raw := PerformanceRaw(metric, f, es, blogs); var g := GranularityOf(f, es);
      raw[i].views >= 1 && raw[i].blogs == LiveAggregates.DistinctBlogs(Within(es, ViewPeriodOf(g), raw[i].period))
  {
    var g := GranularityOf(f, es);
    var p := PerformanceRaw(metric, f, es, blogs)[i].period;
    ViewedPeriodAt(metric, f, es, blogs, i);
    ViewedPeriodHasViews(es, ViewPeriodOf(g), p);
    ViewsMapCounts(g, es, p);
    ViewedBlogsMapCounts(g, es, p);
  }

  /** A period some view falls in holds at least one view. */
  lemma ViewedPeriodHasViews(es: seq<BlogView>, period: BlogView -> Calendar.Date, p: Calendar.Date)
    requires p in Periods(es, period)
    ensures |Within(es, period, p)| >= 1
  {
    PeriodsMeaning(es, period);
    var k :| 0 <= k < |es| && period(es[k]) == p;
    assert es[k] in Within(es, period, p);
  }

  /** With the default metric, every row's period is the period of some matching view. */
  lemma ViewedPeriodAt(metric: string, f: FilterDict, es: seq<BlogView>, blogs: seq<Blog>, i: nat)
    requires es != [] && metric != "created" && i < |PerformanceRaw(metric, f, es, blogs)|
    ensures PerformanceRaw(metric, f, es, blogs)[i].period in Periods(es, ViewPeriodOf(GranularityOf(f, es)))
  {
    var g := GranularityOf(f, es);
    var vq := ViewsQuery(g, es);
    var bq := BlogsQuery(metric, g, f, es, blogs);
    var ps := AllPeriods(metric, f, es, blogs);
    assert PerformanceRaw(metric, f, es, blogs)[i].period == ps[i];
    PeriodsMeaning(es, ViewPeriodOf(g));
    assert KeysOf(vq) == Periods(es, ViewPeriodOf(g));
    assert KeysOf(bq) == Periods(es, ViewPeriodOf(g));
    assert ps[i] in KeysOf(vq) + KeysOf(bq);
  }

  /** An answer exists exactly when some view matches, one point per period, carrying its views. */
  lemma PerformanceAnalyticsMeaning(metric: string, f: FilterDict, events: seq<BlogView>, blogs: seq<Blog>)
    ensures var es := LiveAggregates.Matching(f, events); var r := PerformanceAnalytics(metric, f, events, blogs);
      && (r == [] <==> es == [])
      && (es != [] ==>
            |r| == |PerformanceRaw(metric, f, es, blogs)|
            && forall i :: 0 <= i < |r| ==> r[i].y == PerformanceRaw(metric, f, es, blogs)[i].views)
  {
    var es := LiveAggregates.Matching(f, events);
    if es != [] {
      RawPeriods(metric, f, es, blogs);
      assert es[0] in es;
    }
  }

  // ---------------------------------------------------------------------
  // The endpoint, reading through the cache

  function PerfCacheKey(hash: CanonicalJson.Json -> string, f: FilterDict): string {
    CacheKey(hash, "perf", [CanonicalJson.Member("filters", ToJson(f))])
  }

  /** A truthy cached list of points under `key`, if there is one. */
  function CachedPoints(entries: map<string, Cached>, key: string): Option<seq<PerfPoint>> {
    if key in entries && entries[key].Points? && entries[key].points != [] then Some(entries[key].points) else None
  }

  /**
   * `get_performance_analytics`: a cached non-empty answer; otherwise the
   * query's answer, stored only when it is non-empty.
   */
  method GetPerformanceAnalytics(cache: Cache, hash: CanonicalJson.Json -> string, metric: string, f: FilterDict,
                                 events: seq<BlogView>, blogs: seq<Blog>)
    returns (data: seq<PerfPoint>)
    modifies cache
    ensures var key := PerfCacheKey(hash, f);
      match CachedPoints(old(cache.entries), key)
      case Some(hit) => data == hit && cache.entries == old(cache.entries)
      case None =>
        && data == PerformanceAnalytics(metric, f, events, blogs)
        && cache.entries == if data == [] then old(cache.entries) else old(cache.entries)[key := Points(data)]
  {
    var key := PerfCacheKey(hash, f);
    var cached := cache.Get(key);
    if cached.Some? && cached.value.Points? && cached.value.points != [] {
      return cached.value.points;
    }
    var es := LiveAggregates.Matching(f, events);
    if es == [] {
      return [];
    }
    var g := GranularityOf(f, es);
    var vq := ViewsQuery(g, es);
    var bq := BlogsQuery(metric, g, f, es, blogs);
    var blogsByPeriod := FillByPeriod(bq);
    var viewsMap := FillByPeriod(vq);
    var raw := BuildRawData(SortedUnique(KeysOf(vq) + KeysOf(bq)), viewsMap, blogsByPeriod);
    data := CalculateGrowthPeriods(raw);
    PerformanceAnalyticsMeaning(metric, f, events, blogs);
    cache.Set(key, Points(data));
  }
}
