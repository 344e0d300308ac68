/**
 * The declarative filters the service builds: a `Q` tree of field lookups
 * combined with `&` and `~`, one builder for view events and one for summary
 * rows, and the interpretation of each lookup on a record. Each builder is
 * paired with a direct statement of which records it admits.
 *
 * `~Q(country__code__in=codes)` on a record without a country is read as
 * Django renders it (`NOT (code IN codes AND code IS NOT NULL)`): the
 * record passes the exclusion.
 */
module QueryFilters {
  import opened Wrappers
  import opened Models
  import opened Params
  import Calendar

  datatype Q<L> =
    | All
    | And(left: Q<L>, right: Q<L>)
    | Not(inner: Q<L>)
    | Leaf(lookup: L)

  /** Whether a record satisfies `q`, given how each lookup reads on it. */
  predicate Holds<L>(q: Q<L>, sat: L -> bool) {
    match q
    case All => true
    case And(l, r) => Holds(l, sat) && Holds(r, sat)
    case Not(i) => !Holds(i, sat)
    case Leaf(l) => sat(l)
  }

  // ---------------------------------------------------------------------
  // BlogView lookups

  datatype ViewLookup =
    | TimestampYear(year: int)
    | TimestampGte(since: TimeValue)
    | TimestampLte(until: TimeValue)
    | ViewCountryIn(codes: seq<string>)
    | BlogAuthorIs(username: string)
    | BlogIs(blogId: int)

  /** A date compared with a datetime column stands for its midnight. */
  function AsDateTime(v: TimeValue): Calendar.DateTime {
    match v
    case At(t) => t
    case OnDay(d) => Calendar.Midnight(d)
  }

  predicate CountryIn(country: Option<Country>, codes: seq<string>) {
    country.Some? && country.value.code in codes
  }

  predicate ViewSat(e: BlogView, l: ViewLookup) {
    match l
    case TimestampYear(y) => Calendar.YearOf(Calendar.DateOf(e.timestamp)) == y
    case TimestampGte(v) => e.timestamp >= AsDateTime(v)
    case TimestampLte(v) => e.timestamp <= AsDateTime(v)
    case ViewCountryIn(codes) => CountryIn(e.country, codes)
    case BlogAuthorIs(name) => e.blog.author.username == name
    case BlogIs(id) => e.blog.id == id
  }

  /** `q &= l` when `cond` holds. */
  function AndIf<L>(q: Q<L>, cond: bool, l: Q<L>): Q<L> {
    if cond then And(q, l) else q
  }

  lemma HoldsAndIf<L>(q: Q<L>, cond: bool, l: Q<L>, sat: L -> bool)
    ensures Holds(AndIf(q, cond, l), sat) == (Holds(q, sat) && (cond ==> Holds(l, sat)))
  {
  }

  /** The date clauses: `year` alone, or the `start_date`/`end_date` bounds. */
  function ViewDateFilters(f: FilterDict): Q<ViewLookup> {
    if YearGiven(f) then And(All, Leaf(TimestampYear(f.year.value)))
    else
      var qs := AndIf(All, f.startDate.Some?, Leaf(TimestampGte(f.startDate.GetOr(At(0)))));
      AndIf(qs, f.endDate.Some?, Leaf(TimestampLte(f.endDate.GetOr(At(0)))))
  }

  /** `_build_blogview_filters`. */
  function BuildBlogViewFilters(f: FilterDict): Q<ViewLookup> {
    var q2 := AndIf(ViewDateFilters(f), CountryCodesGiven(f), Leaf(ViewCountryIn(f.countryCodes.GetOr([]))));
    var q3 := AndIf(q2, ExcludeCodesGiven(f), Not(Leaf(ViewCountryIn(f.excludeCountryCodes.GetOr([])))));
    var q4 := AndIf(q3, AuthorGiven(f), Leaf(BlogAuthorIs(f.authorUsername.GetOr(""))));
    AndIf(q4, BlogGiven(f), Leaf(BlogIs(f.blogId.GetOr(0))))
  }

  /** The date part of the filters, stated directly. */
  predicate ViewInDateWindow(f: FilterDict, e: BlogView) {
    if YearGiven(f) then Calendar.YearOf(Calendar.DateOf(e.timestamp)) == f.year.value
    else
      && (f.startDate.Some? ==> e.timestamp >= AsDateTime(f.startDate.value))
      && (f.endDate.Some? ==> e.timestamp <= AsDateTime(f.endDate.value))
  }

  /** Whether view `e` passes the filters, stated clause by clause. */
  predicate ViewMatches(f: FilterDict, e: BlogView) {
    && ViewInDateWindow(f, e)
    && (CountryCodesGiven(f) ==> e.country.Some? && e.country.value.code in f.countryCodes.value)
    && (ExcludeCodesGiven(f) ==> e.country.None? || e.country.value.code !in f.excludeCountryCodes.value)
    && (AuthorGiven(f) ==> e.blog.author.username == f.authorUsername.value)
    && (BlogGiven(f) ==> e.blog.id == f.blogId.value)
  }

  function ViewSatOf(e: BlogView): ViewLookup -> bool {
    l => ViewSat(e, l)
  }

  /** `queryset.filter(_build_blogview_filters(f))`, as a test on one view. */
  function ViewPredicate(f: FilterDict): BlogView -> bool {
    e => Holds(BuildBlogViewFilters(f), ViewSatOf(e))
  }

  lemma ViewDateFiltersMeaning(f: FilterDict, e: BlogView)
    ensures Holds(ViewDateFilters(f), ViewSatOf(e)) == ViewInDateWindow(f, e)
  {
    var sat := ViewSatOf(e);
    if !YearGiven(f) {
      var qs := AndIf(All, f.startDate.Some?, Leaf(TimestampGte(f.startDate.GetOr(At(0)))));
      HoldsAndIf(All, f.startDate.Some?, Leaf(TimestampGte(f.startDate.GetOr(At(0)))), sat);
      HoldsAndIf(qs, f.endDate.Some?, Leaf(TimestampLte(f.endDate.GetOr(At(0)))), sat);
    }
  }

  /** The built `Q` admits exactly the views the clause-by-clause statement admits. */
  lemma BlogViewFiltersMeaning(f: FilterDict, e: BlogView)
    ensures ViewPredicate(f)(e) <==> ViewMatches(f, e)
  {
    var sat := ViewSatOf(e);
    ViewDateFiltersMeaning(f, e);
    var q1 := ViewDateFilters(f);
    var q2 := AndIf(q1, CountryCodesGiven(f), Leaf(ViewCountryIn(f.countryCodes.GetOr([]))));
    HoldsAndIf(q1, CountryCodesGiven(f), Leaf(ViewCountryIn(f.countryCodes.GetOr([]))), sat);
    var q3 := AndIf(q2, ExcludeCodesGiven(f), Not(Leaf(ViewCountryIn(f.excludeCountryCodes.GetOr([])))));
    HoldsAndIf(q2, ExcludeCodesGiven(f), Not(Leaf(ViewCountryIn(f.excludeCountryCodes.GetOr([])))), sat);
    var q4 := AndIf(q3, AuthorGiven(f), Leaf(BlogAuthorIs(f.authorUsername.GetOr(""))));
    HoldsAndIf(q3, AuthorGiven(f), Leaf(BlogAuthorIs(f.authorUsername.GetOr(""))), sat);
    HoldsAndIf(q4, BlogGiven(f), Leaf(BlogIs(f.blogId.GetOr(0))), sat);
  }

  /** With `year` given, `start_date` and `end_date` play no part. */
  lemma YearOverridesWindow(f: FilterDict, g: FilterDict, e: BlogView)
    requires YearGiven(f) && g == f.(startDate := g.startDate, endDate := g.endDate)
    ensures ViewPredicate(f)(e) == ViewPredicate(g)(e)
  {
    BlogViewFiltersMeaning(f, e);
    BlogViewFiltersMeaning(g, e);
  }

  /** Views from no country never match an include list and always pass an exclude list. */
  lemma NullCountryView(f: FilterDict, e: BlogView)
    requires e.country.None?
    ensures CountryCodesGiven(f) ==> !ViewPredicate(f)(e)
    ensures ViewPredicate(f)(e) == ViewPredicate(f.(excludeCountryCodes := None))(e)
  {
    BlogViewFiltersMeaning(f, e);
    BlogViewFiltersMeaning(f.(excludeCountryCodes := None), e);
  }

  // ---------------------------------------------------------------------
  // DailyAnalyticsSummary lookups

  datatype SummaryLookup =
    | DateYear(year: int)
    | DateGte(since: Calendar.Date)
    | DateLte(until: Calendar.Date)
    | SummaryCountryIn(codes: seq<string>)
    | AuthorIs(username: string)

  /** `v.date() if isinstance(v, datetime) else v`. */
  function AsDate(v: TimeValue): Calendar.Date {
    match v
    case At(t) => Calendar.DateOf(t)
    case OnDay(d) => d
  }

  predicate SummarySat(dir: Directory, s: Summary, l: SummaryLookup) {
    match l
    case DateYear(y) => Calendar.YearOf(s.date) == y
    case DateGte(d) => s.date >= d
    case DateLte(d) => s.date <= d
    case SummaryCountryIn(codes) => var c := CountryCode(dir, s.countryId); c.Some? && c.value in codes
    case AuthorIs(name) => AuthorName(dir, s.authorId) == Some(name)
  }

  function SummaryDateFilters(f: FilterDict): Q<SummaryLookup> {
    if YearGiven(f) then And(All, Leaf(DateYear(f.year.value)))
    else
      var qs := AndIf(All, f.startDate.Some?, Leaf(DateGte(AsDate(f.startDate.GetOr(OnDay(0))))));
      AndIf(qs, f.endDate.Some?, Leaf(DateLte(AsDate(f.endDate.GetOr(OnDay(0))))))
  }

  /** `_build_summary_filters`: no `blog_id` clause. */
  function BuildSummaryFilters(f: FilterDict): Q<SummaryLookup> {
    var q2 := AndIf(SummaryDateFilters(f), CountryCodesGiven(f), Leaf(SummaryCountryIn(f.countryCodes.GetOr([]))));
    var q3 := AndIf(q2, ExcludeCodesGiven(f), Not(Leaf(SummaryCountryIn(f.excludeCountryCodes.GetOr([])))));
    AndIf(q3, AuthorGiven(f), Leaf(AuthorIs(f.authorUsername.GetOr(""))))
  }

  predicate SummaryInDateWindow(f: FilterDict, s: Summary) {
    if YearGiven(f) then Calendar.YearOf(s.date) == f.year.value
    else
      && (f.startDate.Some? ==> s.date >= AsDate(f.startDate.value))
      && (f.endDate.Some? ==> s.date <= AsDate(f.endDate.value))
  }

  /** Whether summary row `s` passes the filters, stated clause by clause. */
  predicate SummaryMatches(dir: Directory, f: FilterDict, s: Summary) {
    var code := CountryCode(dir, s.countryId);
    && SummaryInDateWindow(f, s)
    && (CountryCodesGiven(f) ==> code.Some? && code.value in f.countryCodes.value)
    && (ExcludeCodesGiven(f) ==> code.None? || code.value !in f.excludeCountryCodes.value)
    && (AuthorGiven(f) ==> AuthorName(dir, s.authorId) == Some(f.authorUsername.value))
  }

  function SummarySatOf(dir: Directory, s: Summary): SummaryLookup -> bool {
    l => SummarySat(dir, s, l)
  }

  /** `DailyAnalyticsSummary.objects.filter(_build_summary_filters(f))`, as a test on one row. */
  function SummaryPredicate(dir: Directory, f: FilterDict): Summary -> bool {
    s => Holds(BuildSummaryFilters(f), SummarySatOf(dir, s))
  }

  lemma SummaryDateFiltersMeaning(dir: Directory, f: FilterDict, s: Summary)
    ensures Holds(SummaryDateFilters(f), SummarySatOf(dir, s)) == SummaryInDateWindow(f, s)
  {
    var sat := SummarySatOf(dir, s);
    if !YearGiven(f) {
      var qs := AndIf(All, f.startDate.Some?, Leaf(DateGte(AsDate(f.startDate.GetOr(OnDay(0))))));
      HoldsAndIf(All, f.startDate.Some?, Leaf(DateGte(AsDate(f.startDate.GetOr(OnDay(0))))), sat);
      HoldsAndIf(qs, f.endDate.Some?, Leaf(DateLte(AsDate(f.endDate.GetOr(OnDay(0))))), sat);
    }
  }

  lemma SummaryFiltersMeaning(dir: Directory, f: FilterDict, s: Summary)
    ensures SummaryPredicate(dir, f)(s) <==> SummaryMatches(dir, f, s)
  {
    var sat := SummarySatOf(dir, s);
    SummaryDateFiltersMeaning(dir, f, s);
    var q1 := SummaryDateFilters(f);
    var q2 := AndIf(q1, CountryCodesGiven(f), Leaf(SummaryCountryIn(f.countryCodes.GetOr([]))));
    HoldsAndIf(q1, CountryCodesGiven(f), Leaf(SummaryCountryIn(f.countryCodes.GetOr([]))), sat);
    var q3 := AndIf(q2, ExcludeCodesGiven(f), Not(Leaf(SummaryCountryIn(f.excludeCountryCodes.GetOr([])))));
    HoldsAndIf(q2, ExcludeCodesGiven(f), Not(Leaf(SummaryCountryIn(f.excludeCountryCodes.GetOr([])))), sat);
    HoldsAndIf(q3, AuthorGiven(f), Leaf(AuthorIs(f.authorUsername.GetOr(""))), sat);
  }

  /** `blog_id` is ignored by the summary filters. */
  lemma SummaryIgnoresBlog(dir: Directory, f: FilterDict, s: Summary)
    ensures SummaryPredicate(dir, f)(s) == SummaryPredicate(dir, f.(blogId := None))(s)
  {
    SummaryFiltersMeaning(dir, f, s);
    SummaryFiltersMeaning(dir, f.(blogId := None), s);
  }

  /**
   * The summary filters compare whole days: a row dated on the day of a
   * start datetime passes even though the view filter would reject the part
   * of that day before it.
   */
  lemma SummaryStartIsTruncated(dir: Directory, f: FilterDict, s: Summary, t: Calendar.DateTime)
    requires !YearGiven(f) && f.startDate == Some(At(t)) && f.endDate.None?
    requires !CountryCodesGiven(f) && !ExcludeCodesGiven(f) && !AuthorGiven(f)
    ensures SummaryPredicate(dir, f)(s) <==> s.date >= Calendar.DateOf(t)
  {
    SummaryFiltersMeaning(dir, f, s);
  }
}
