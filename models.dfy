/**
 * The four tables of the analytics schema as record shapes. Foreign keys
 * that the ORM follows with `select_related` are embedded (a view carries its
 * blog, the blog its author); a summary row holds the raw foreign-key ids, as
 * the table does, and a `Directory` resolves them to the referenced rows.
 */
module Models {
  import opened Wrappers
  import Calendar

  type Id = nat

  datatype Country = Country(id: Id, name: string, code: string)

  /** `django.contrib.auth` user, reduced to what the analytics read. */
  datatype User = User(id: Id, username: string)

  /** `Blog.author` is a required foreign key: every blog has an author. */
  datatype Blog = Blog(id: Id, title: string, author: User, createdAt: Calendar.DateTime)

  /** One view event; `country` is a nullable foreign key. */
  datatype BlogView = BlogView(id: Id, blog: Blog, country: Option<Country>, timestamp: Calendar.DateTime)

  /** The `unique_together` key of `DailyAnalyticsSummary`. */
  datatype SummaryKey = SummaryKey(date: Calendar.Date, countryId: Option<Id>, authorId: Option<Id>)

  /**
   * A `DailyAnalyticsSummary` row. `id` is the primary key, `None` on an
   * instance not yet saved. `blog_ids` is a nullable JSON list whose order is
   * immaterial to every reader, so it is modelled as a set.
   */
  datatype Summary = Summary(
    id: Option<Id>,
    date: Calendar.Date,
    countryId: Option<Id>,
    authorId: Option<Id>,
    totalViews: int,
    uniqueBlogs: int,
    blogIds: Option<set<Id>>)

  function KeyOf(s: Summary): SummaryKey {
    SummaryKey(s.date, s.countryId, s.authorId)
  }

  /** A row created with only its key given: the field defaults apply. */
  function NewSummary(k: SummaryKey): (s: Summary)
    ensures KeyOf(s) == k
    ensures s.id.None? && s.totalViews == 0 && s.uniqueBlogs == 0 && s.blogIds == Some({})
  {
    Summary(None, k.date, k.countryId, k.authorId, 0, 0, Some({}))
  }

  /** `r.get("blog_ids") or []`: readers treat a null list like an empty one. */
  function BlogIdsOrEmpty(s: Summary): (ids: set<Id>)
    ensures s.blogIds.None? ==> ids == {}
    ensures s.blogIds.Some? ==> ids == s.blogIds.value
  {
    match s.blogIds
    case None => {}
    case Some(ids) => ids
  }

  /** No two rows share a key, NULL parts compared as equal. */
  predicate UniqueKeys(rows: seq<Summary>) {
    forall i, j :: 0 <= i < j < |rows| ==> KeyOf(rows[i]) != KeyOf(rows[j])
  }

  /** A key part is NULL: the key escapes SQL's unique check. */
  predicate HasNullPart(k: SummaryKey) {
    k.countryId.None? || k.authorId.None?
  }

  /**
   * The `unique_together` constraint as SQL enforces it: NULLs are distinct,
   * so only keys without a NULL part must be unique.
   */
  predicate SqlUniqueKeys(rows: seq<Summary>) {
    forall i, j :: 0 <= i < j < |rows| && KeyOf(rows[i]) == KeyOf(rows[j]) ==> HasNullPart(KeyOf(rows[i]))
  }

  /** Saved rows: every row has a primary key and no two share one. */
  predicate StoredIds(rows: seq<Summary>) {
    && (forall i :: 0 <= i < |rows| ==> rows[i].id.Some?)
    && (forall i, j :: 0 <= i < j < |rows| ==> rows[i].id != rows[j].id)
  }

  /** The rows of the referenced tables, by primary key. */
  datatype Directory = Directory(countries: map<Id, Country>, users: map<Id, User>)

  /** Every entry is filed under its own id and `Country.code` is unique. */
  predicate ValidDirectory(dir: Directory) {
    && (forall id :: id in dir.countries ==> dir.countries[id].id == id)
    && (forall id :: id in dir.users ==> dir.users[id].id == id)
    && (forall a, b :: a in dir.countries && b in dir.countries && a != b ==>
          dir.countries[a].code != dir.countries[b].code)
  }

  /** `country__code` of a summary row: null when the row has no country. */
  function CountryCode(dir: Directory, countryId: Option<Id>): (code: Option<string>)
    ensures countryId.None? ==> code.None?
    ensures code.Some? ==> countryId.value in dir.countries && code.value == dir.countries[countryId.value].code
  {
    match countryId
    case None => None
    case Some(id) => if id in dir.countries then Some(dir.countries[id].code) else None
  }

  /** `author__username` of a summary row: null when the row has no author. */
  function AuthorName(dir: Directory, authorId: Option<Id>): (name: Option<string>)
    ensures authorId.None? ==> name.None?
    ensures name.Some? ==> authorId.value in dir.users && name.value == dir.users[authorId.value].username
  {
    match authorId
    case None => None
    case Some(id) => if id in dir.users then Some(dir.users[id].username) else None
  }

  /**
   * Because codes are unique, two rows whose countries resolve to the same
   * code reference the same country: grouping by code is grouping by country.
   */
  lemma SameCodeSameCountry(dir: Directory, a: Option<Id>, b: Option<Id>)
    requires ValidDirectory(dir)
    requires CountryCode(dir, a).Some? && CountryCode(dir, a) == CountryCode(dir, b)
    ensures a == b
  {
    var x, y := a.value, b.value;
    assert dir.countries[x].code == dir.countries[y].code;
  }
}
