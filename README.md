# Blog analytics core, modelled in Dafny

This project models the analytics layer of a Django blog platform. Views of
blogs are stored as `BlogView` events, and a nightly management command folds
them into `DailyAnalyticsSummary` rows. The model covers four parts.

- **The service layer** (`AnalyticsService`):
  - The grouped query over the live events: per country or author, `y` is the
    number of distinct blogs and `z` the number of views, ordered by `z`
    descending.
  - The top-ten query, ordered by views.
  - The performance series: views bucketed by day, ISO week, month or year,
    with growth against the previous period and a blog-count label.
  - The fast grouped query over the summary table. Its `y` comes from
    HyperLogLog counters when they are enabled and answer. Otherwise, or when
    a counter gives 0, it is the union of the stored `blog_ids`.
  - All four read through a shared cache under a deterministic key:
    `analytics:{prefix}:{md5(json.dumps(kwargs, sort_keys=True))}`.
- **The filter serializer:** field constraints first, then `validate`, which
  rejects empty country lists and expands a named `range` into an absolute
  window.
- **The `precalculate_stats` command:**
  - take a cache lock, or a PostgreSQL advisory lock;
  - fix the start date;
  - aggregate per (day, country, author);
  - plan and write the upserts;
  - optionally publish each row's blog ids to the HyperLogLog counters;
  - release the locks.
- **The schema:** the four tables and their constraints.

Pure code (query construction, aggregation, validation, key derivation)
becomes functions on datatypes. Each function is paired with a
clause-by-clause statement or a meaning lemma.

Code that loops or changes state becomes methods proved against those
functions:
- the cache;
- the summary table and the advisory lock, as a `Database` class;
- the Redis counters;
- the `blog_ids_map`, `union_map`, `group_hll_keys` and upsert loops;
- the PFCOUNT loop;
- `_calculate_growth_periods`;
- the command's `handle`.

The modules follow the program's structure:

| module | covers |
|---|---|
| `Models` | the tables |
| `Params` | the filter dictionary |
| `Serializers` | request validation |
| `QueryFilters` | the two `Q` builders |
| `CanonicalJson` and `ResultCache` | the cache key and the cache |
| `LiveAggregates` | grouped and top queries |
| `Performance` | the performance series |
| `FastPath` | the fast grouped query |
| `Precalc` | the management command |

Support modules:
- `Wrappers`: option values.
- `Seqs`: counting, filtering, unions and sorts.
- `Text`: Python string order and `str(n)`.
- `Calendar`: proleptic Gregorian day numbers, `Trunc*` and `isoformat`.

Summary rows carry their primary key, so `bulk_update` matches stored rows
by primary key as Django does. The lemmas about a run assume `StoredIds`:
every stored row has a primary key and no two share one, which holds of any
saved table. They do not assume the summary keys are unique. SQL treats
NULLs in a unique constraint as distinct, so `unique_together` admits two
rows such as `(day, country, NULL)`. When two stored rows share a key,
`existing_map` holds the one the query returns last, and only that row is
updated. The ordering `-date, country` ties on such rows, so SQL does not say
which one that is; the model takes the stored table's order, so the later
row in the table wins.

Calls into code outside the repository become parameters:
- the md5 digest is a function `Json -> string`;
- `timezone.now()` is an argument;
- the `pfcount` reply is a function of the key list;
- the advisory-lock reply is an argument;
- the cache's and Redis' availability are booleans;
- the Redis keys whose calls raise are a set.

## Model

| member | source | states |
|---|---|---|
| Models.NewSummary | analytics/models.py:153-168 | a row created with only its key has zero views, zero unique blogs and an empty `blog_ids` list |
| Models.BlogIdsOrEmpty | analytics/services.py:555 | a null `blog_ids` is read as no blogs; otherwise the stored ids are read as they are |
| Models.CountryCode | analytics/models.py:15-36 | a row without a country has a null code; a code that is found is the code of the referenced country |
| Models.AuthorName | analytics/models.py:146-152 | a row without an author has a null username; a username that is found is the referenced user's |
| Models.SameCodeSameCountry | analytics/models.py:23-28 | because `Country.code` is unique, grouping by code is grouping by country |
| ResultCache.CacheKeyOrderIndependent | analytics/services.py:39-42 | two keyword dictionaries with the same entries, in any order and at any depth, give the same cache key |
| ResultCache.GroupedKeyOrderIndependent | analytics/services.py:109-111 | `type=…, filters=…` in either order gives one key, for every filter dictionary |
| Params.ToJsonWellFormed | analytics/services.py:109-111 | the filter dictionary handed to `json.dumps` never holds a key twice, as a Python dict cannot |
| ResultCache.PrefixesSeparateKeys | analytics/services.py:39-42 | keys made under two different colon-free prefixes never collide, so the grouped, top, performance and fast caches are disjoint |
| ResultCache.Cache.Get | analytics/services.py:113 | returns the stored value, or nothing on a miss |
| ResultCache.Cache.Set | analytics/services.py:129 | stores the value under the key and changes no other entry |
| ResultCache.Cache.Add | analytics/management/commands/precalculate_stats.py:55-61 | stores only when the key is absent, and reports whether it did |
| ResultCache.Cache.Delete | analytics/management/commands/precalculate_stats.py:222-226 | removes exactly that key |
| CanonicalJson.CanonRespectsEquiv | analytics/services.py:41 | `sort_keys=True` makes the serialised tree depend only on the dictionary contents, not on insertion order |
| CanonicalJson.SortMembers | analytics/services.py:41 | the members are rearranged into non-decreasing key order, with the same members and length |
| CanonicalJson.IncreasingWithSameMembersAreEqual | analytics/services.py:41 | two key-sorted member lists with the same members are identical |
| Seqs.SortDescSorted | analytics/services.py:126 | the descending sort behind `order_by("-z")` and `order_by("-y")` is stable: input already in order comes back unchanged, ties included |
| Serializers.RangeDaysOnChoices | analytics/api/serializers.py:14-20 | `RANGE_DAYS` is defined on exactly the four choices, each between 1 and 365 days |
| Serializers.Check | analytics/api/serializers.py:30-115 | a rejection always names at least one field |
| Serializers.DateValueRejected | analytics/api/serializers.py:37-42 | a plain date given for `start_date` or `end_date` is rejected on that field, as a `DateTimeField` rejects a `date` |
| Serializers.EmptyCountryCodesRejected | analytics/api/serializers.py:85-90 | `country_codes: []` never validates; when every field is otherwise valid, it is the only field reported |
| Serializers.EmptyExcludeCodesRejected | analytics/api/serializers.py:92-97 | `exclude_country_codes: []` never validates |
| Serializers.RangeOverridesWindow | analytics/api/serializers.py:100-113 | a named range replaces any given start and end by `[now - RANGE_DAYS[range] days, now]` and keeps the range; the other fields come back stripped |
| Serializers.NoRangeUnchanged | analytics/api/serializers.py:77-115 | without a range every valid field comes back as given, its strings stripped; already stripped input comes back unchanged |
| Serializers.AcceptedWithinBounds | analytics/api/serializers.py:30-115 | every accepted dictionary has its year in 2000..2100, `blog_id >= 1`, stripped non-empty codes of at most five characters without a NUL character, a stripped non-empty `author_username` without a NUL character, non-empty code lists, and `range`/`compare` among the choices; `start_date` and `end_date`, when present, are datetimes; a range implies a window ending now that starts before now |
| Serializers.Strip | analytics/api/serializers.py:51-65 | the stripped value has no whitespace (Python's `str.isspace`) at either end |
| Serializers.StripSlice | analytics/api/serializers.py:51-65 | the stripped value is a middle slice of the input, everything cut off before and after it being whitespace |
| Serializers.StripClean | analytics/api/serializers.py:51-65 | a value without edge whitespace strips to itself, so stripping is idempotent |
| Serializers.StripBlank | analytics/api/serializers.py:51-65 | a value strips to nothing exactly when it is all whitespace, the case DRF rejects as blank |
| Serializers.StripAll | analytics/api/serializers.py:50-59 | a list field's children are stripped one by one, keeping the list's length and order |
| Serializers.TrimmedClean | analytics/api/serializers.py:50-65 | trimming the string fields changes nothing when they are already stripped, and its result is stripped |
| Serializers.BlankCodeRejected | analytics/api/serializers.py:50-54 | a `country_codes` element made only of whitespace makes the request fail on `country_codes` |
| Serializers.PaddedCodeAccepted | analytics/api/serializers.py:50-54 | a padded code whose stripped form has one to five characters and no NUL character is accepted, and the data carries the stripped code |
| Serializers.StripKeepsNul | analytics/api/serializers.py:50-65 | stripping keeps every NUL character, so DRF's NUL check on the stripped value sees exactly the NULs of the raw value |
| Serializers.NulCodeRejected | analytics/api/serializers.py:50-54 | a `country_codes` element holding a NUL character makes the request fail on `country_codes` |
| Serializers.NulUsernameRejected | analytics/api/serializers.py:63-65 | an `author_username` holding a NUL character makes the request fail on `author_username` |
| QueryFilters.HoldsAndIf | analytics/services.py:56-79 | `q &= clause` under a truthy condition adds exactly that clause |
| QueryFilters.BlogViewFiltersMeaning | analytics/services.py:45-81 | the built `Q` admits a view exactly when its year (or its start/end window), its country include and exclude lists, its author and its blog all match |
| QueryFilters.ViewDateFiltersMeaning | analytics/services.py:61-67 | `year` alone decides the date clause when given; otherwise the start and end bounds apply |
| QueryFilters.YearOverridesWindow | analytics/services.py:61-67 | with `year` given, `start_date` and `end_date` have no effect |
| QueryFilters.NullCountryView | analytics/services.py:70-73 | a view without a country never matches an include list and always passes an exclude list |
| QueryFilters.SummaryFiltersMeaning | analytics/services.py:347-386 | the summary `Q` admits a row exactly when its date window, country lists and author match |
| QueryFilters.SummaryDateFiltersMeaning | analytics/services.py:359-374 | the summary date clause is the year, or the start/end bounds on whole days |
| QueryFilters.SummaryIgnoresBlog | analytics/services.py:347-386 | `blog_id` has no effect on the summary filters |
| QueryFilters.SummaryStartIsTruncated | analytics/services.py:362-368 | a start datetime admits every summary row dated on its day, including the part of that day before it |
| LiveAggregates.GroupedAnalyticsMeaning | analytics/services.py:98-130 | each row's `z` is its group's view count and `y` the number of distinct blogs among those views (so `y <= z`); every group of a matching view has exactly one row; rows come by non-increasing `z` |
| LiveAggregates.DistinctBlogs | analytics/services.py:125 | a distinct count never exceeds the number of views |
| LiveAggregates.TopAnalyticsMeaning | analytics/services.py:133-169 | at most ten rows, by non-increasing views `y`; `z` is the metric of the top type; a group left out has no more views than any row returned, and no group has two rows, so nothing is left out when there are at most ten groups |
| LiveAggregates.GetGroupedAnalytics | analytics/services.py:109-130 | a non-empty cached answer is returned untouched; otherwise the query's answer is returned and stored under the key |
| LiveAggregates.GetTopAnalytics | analytics/services.py:144-169 | the same caching for the top query |
| Performance.CompareOverridesSpan | analytics/services.py:218-228 | a truthy `compare` alone fixes the granularity; yearly only for `"year"` |
| Performance.AutomaticGranularity | analytics/services.py:229-239 | without `compare`: monthly past 365 days, weekly past 30, daily otherwise |
| Performance.GranularityMonotone | analytics/services.py:229-239 | a longer span never gives a finer granularity |
| Performance.TruncateDayAndWeek | analytics/services.py:256-291 | a daily period is the view's date; a weekly period starts on the Monday at most six days before it |
| Performance.SpanDays | analytics/services.py:200-204 | no two matching views are a whole `days + 1` days apart |
| Performance.LastWinsDistinct | analytics/services.py:295-296 | with distinct periods the dictionary holds exactly the query's periods, each with its own count |
| Performance.FillByPeriod | analytics/services.py:295-296 | the dictionary loop builds that dictionary |
| Performance.BuildRawData | analytics/services.py:298-306 | the `raw_data` loop gives each period its views and blogs, 0 where absent |
| Performance.CalculateGrowthPeriods | analytics/services.py:315-344 | the loop yields the growth series: one point per period carrying its label, its views and its growth over the previous period |
| Performance.GrowthSign | analytics/services.py:331-333 | growth is positive exactly when views rose from a non-zero previous period, negative exactly when they fell, and never below -100 |
| Performance.GrowthRoundTrip | analytics/services.py:331-333 | from a non-zero previous period, the previous views and the growth give back the current views |
| Performance.GrowthAfterEmpty | analytics/services.py:331-333 | the first period, and any period after one without views, reports growth 0 |
| Performance.GrowthExample | analytics/services.py:315-344 | views 0, 100, 50 give growth 0, 0, -50 |
| Performance.ViewsMapCounts | analytics/services.py:243-248 | `views_map.get(p, 0)` is the number of matching views in period `p` |
| Performance.ViewedBlogsMapCounts | analytics/services.py:282-291 | with the default metric, the label count is the number of distinct blogs viewed in the period |
| Performance.CreatedMapCounts | analytics/services.py:256-281 | with the `created` metric, it is the number of blogs created in the period |
| Performance.RawPeriods | analytics/services.py:295-306 | periods come in increasing order and every matching view's period has a row |
| Performance.RawPeriodsAreUnion | analytics/services.py:295-306 | the row periods are exactly the union of the view query's periods and the label query's periods |
| Performance.RawPeriodsMeaning | analytics/services.py:243-306 | a period has a row exactly when a matching view falls in it or, with the `created` metric, a blog (of the author, when one is given) was created in it |
| Performance.RawViews | analytics/services.py:298-306 | every row's views are exactly the matching views of its period |
| Performance.RawBlogsCreated | analytics/services.py:256-281 | with `created`, a row counts blogs created in its period (narrowed only by author), whatever the other filters say |
| Performance.RawBlogsViewed | analytics/services.py:282-306 | with the default metric, every period has at least one view and counts its distinct viewed blogs |
| Performance.PerformanceAnalyticsMeaning | analytics/services.py:172-312 | the answer is empty exactly when no view matches; otherwise there is one point per period, carrying its views |
| Performance.GetPerformanceAnalytics | analytics/services.py:184-197 | a non-empty cached answer is returned; otherwise the query's answer is returned and stored only when non-empty |
| FastPath.SummedDataMeaning | analytics/services.py:420-437 | the summed rows: one per selected group, `z` the group's total views, by non-increasing `z` |
| FastPath.ExactUnionMap | analytics/services.py:545-558 | the `union_map` loop has a key for exactly the groups of the rows, each holding the union of that group's `blog_ids` |
| FastPath.GroupHllKeys | analytics/services.py:508-524 | `group_hll_keys` has exactly the group keys, each listing the counter keys of that group's rows in row order |
| FastPath.HllKeysOf | analytics/services.py:518-524 | a group contributes one counter key per row |
| FastPath.FillHllY | analytics/services.py:526-539 | each row's `y` becomes PFCOUNT over its group's keys, or 0 when there are none or the call raises |
| FastPath.FillExactY | analytics/services.py:541-600 | each row's `y` becomes the size of its group's union (only where `y` is 0 in the fallback) |
| FastPath.PfCountY | analytics/services.py:506-539 | PFCOUNT per group over that group's rows' counter keys |
| FastPath.ReplaceY | analytics/services.py:497-600 | every row's `y` ends as its group's final distinct-blog count; nothing else changes |
| FastPath.QueryFast | analytics/services.py:419-604 | on a non-empty table the query computes the fast answer |
| FastPath.FastAnalyticsMeaning | analytics/services.py:389-607 | an empty table gives nothing; otherwise no row has a null group, groups are distinct, every row's group is that of a selected summary row and every selected row's group has a row, `z` is the group's summed views, rows come by non-increasing `z`, and `y` is the group's final distinct-blog count |
| FastPath.ExactWithoutHll | analytics/services.py:563-600 | with HLL off or Redis unreachable, `y` is the exact number of distinct blogs over the group's days |
| FastPath.FailedCountFallsBack | analytics/services.py:526-562 | when PFCOUNT raises, or the group has no counter keys, `y` falls back to the exact union |
| FastPath.CountTakenWhenPositive | analytics/services.py:530-534 | a positive counter value is used as it is |
| FastPath.UnionAtMostSummedCounts | analytics/services.py:431-444 | the exact `y` never exceeds the summed per-day counts it replaces, and is strictly smaller once a blog occurs on two of the group's days |
| FastPath.TwoDaysExample | analytics/services.py:431-444 | one blog viewed on two days plus another: 2 distinct blogs where the per-day sums say 3 |
| FastPath.SelectedGroupsPresent | analytics/services.py:425-433 | the null-group filter leaves only rows with a group |
| FastPath.GetGroupedAnalyticsFast | analytics/services.py:389-607 | a non-empty cached answer is returned; an empty table returns nothing and stores nothing; otherwise the answer is returned and stored, even when empty |
| Precalc.AggregatedMeaning | analytics/management/commands/precalculate_stats.py:110-119 | one row per (day, country, author) key among the views from `start` on, carrying the key's view count and distinct-blog count, by ascending day |
| Precalc.BuildBlogIdsMap | analytics/management/commands/precalculate_stats.py:130-134 | `blog_ids_map` has exactly the paired keys, each with its blogs |
| Precalc.BlogIdRowsMeaning | analytics/management/commands/precalculate_stats.py:121-128 | the distinct (key, blog) rows give each key exactly its distinct viewed blogs |
| Precalc.ExistingIndex | analytics/management/commands/precalculate_stats.py:140-144 | each key of `existing_map` is filed with a stored row dated from `start` on that carries that key |
| Precalc.ExistingIndexCovers | analytics/management/commands/precalculate_stats.py:140-144 | every stored row from `start` on has its key filed, at its own position or at a later row with the same key |
| Precalc.ExistingMapKeys | analytics/management/commands/precalculate_stats.py:140-144 | `existing_map` holds exactly the keys of the stored rows dated from `start` on; each key is filed with the last such row carrying it, since a later row overwrites an earlier one, and no later row from `start` on has that key |
| Precalc.ExistingMapFinds | analytics/management/commands/precalculate_stats.py:140-144 | when no two stored rows share a key, each stored row from `start` on is the one found under its key |
| Precalc.PlanUpserts | analytics/management/commands/precalculate_stats.py:136-166 | the loop builds exactly the create and update lists |
| Precalc.PlanPartitions | analytics/management/commands/precalculate_stats.py:146-166 | every aggregated key lands in exactly one list: created when no stored row from `start` has it, otherwise updated from the stored row with only the three counters overwritten |
| Precalc.UpdateListed | analytics/management/commands/precalculate_stats.py:146-156 | the row `existing_map` holds for an aggregated key is listed for update with its three counters refreshed |
| Precalc.UpdateOrigin | analytics/management/commands/precalculate_stats.py:146-156 | every listed update is the row `existing_map` holds for some aggregated key, with that key's counters |
| Precalc.CreateListed | analytics/management/commands/precalculate_stats.py:157-166 | an aggregated key missing from `existing_map` is listed for creation as a new row with its counters |
| Precalc.UpdateFor | analytics/management/commands/precalculate_stats.py:182-187 | `bulk_update` keeps a row's key and primary key; a row that no instance shares a primary key with is untouched; otherwise the row takes the three fields of an instance with its primary key |
| Precalc.Database.BulkCreate | analytics/management/commands/precalculate_stats.py:178-181 | the new rows are saved after the stored ones, each under a primary key above every stored one; primary keys stay present and distinct; the lock is not touched |
| Precalc.Database.BulkUpdate | analytics/management/commands/precalculate_stats.py:182-187 | each stored row that a listed instance shares a primary key with gets that instance's three counters; primary keys stay present and distinct; the lock is not touched |
| Precalc.CreateKeepsStored | analytics/management/commands/precalculate_stats.py:178-181 | saving new rows keeps every primary key present and distinct, and each saved row keeps its key and counters |
| Precalc.UpdateKeepsStored | analytics/management/commands/precalculate_stats.py:182-187 | an update keeps every primary key present and distinct |
| Precalc.Database.TryAdvisoryLock | analytics/management/commands/precalculate_stats.py:66-84 | granted exactly when the server says so; the lock is then held |
| Precalc.Database.AdvisoryUnlock | analytics/management/commands/precalculate_stats.py:228-236 | the advisory lock is no longer held when the unlock query completes; when it raises, the lock is as it was |
| Precalc.WrittenKeepsRows | analytics/management/commands/precalculate_stats.py:140-193 | nothing is deleted; no stored key or primary key changes; the row `existing_map` holds for each aggregated key takes that key's counters; every other stored row is untouched: one dated before `start`, one whose key was not aggregated, and one shadowed by a later row with its key |
| Precalc.WrittenRowUpdated | analytics/management/commands/precalculate_stats.py:140-187 | the row `existing_map` holds for an aggregated key ends with that key's aggregated counters |
| Precalc.WrittenRowKept | analytics/management/commands/precalculate_stats.py:140-187 | a stored row that is not the one `existing_map` holds for an aggregated key is untouched; of two stored rows sharing a key, the one the query returns first (in the model, the earlier one in the table) is left as it was |
| Precalc.WrittenUnique | analytics/management/commands/precalculate_stats.py:146-187 | the write adds no duplicate key: two rows sharing a key afterwards are stored rows that shared it before. So a table without duplicate keys keeps none, and `unique_together` as SQL checks it, NULL parts counting as distinct, keeps holding |
| Precalc.WrittenNoNewDuplicates | analytics/management/commands/precalculate_stats.py:146-187 | created keys collide neither with each other nor with a stored key, so any two rows sharing a key were stored rows sharing it |
| Precalc.DuplicatesInherited | analytics/models.py:173 | a table that gained no duplicate key keeps uniqueness, both with NULLs compared equal and with NULLs distinct as in SQL |
| Precalc.WrittenStored | analytics/management/commands/precalculate_stats.py:176-187 | the write keeps every primary key present and distinct |
| Precalc.WrittenFresh | analytics/management/commands/precalculate_stats.py:146-193 | after the write every aggregated key has a row holding its aggregated values |
| Precalc.RechosenCurrent | analytics/management/commands/precalculate_stats.py:140-193 | after the write, the row `existing_map` would hold for each aggregated key carries that key's values |
| Precalc.RechosenUpdated | analytics/management/commands/precalculate_stats.py:140-187 | a key `existing_map` held stays filed with the same row, now refreshed |
| Precalc.RechosenCreated | analytics/management/commands/precalculate_stats.py:157-181 | a key `existing_map` lacked is then filed with the row created for it, which holds its values |
| Precalc.CreateThenUpdate | analytics/management/commands/precalculate_stats.py:176-187 | creating before updating gives the same table, since no update shares a primary key with a created row |
| Precalc.UpsertedKeepsTable | analytics/management/commands/precalculate_stats.py:110-193 | a run adds no duplicate key, so it keeps `unique_together` both with NULLs compared equal and as SQL checks it; it keeps primary keys present and distinct, deletes nothing, changes no stored key and leaves rows dated before `start` alone |
| Precalc.UpsertedLeavesOtherKeys | analytics/management/commands/precalculate_stats.py:110-193 | a stored row whose key no view from `start` on carries is untouched |
| Precalc.UpsertedHoldsViews | analytics/management/commands/precalculate_stats.py:110-193 | after a run every key of the views from `start` on has a row whose `total_views` is the key's view count, whose `blog_ids` are its distinct blogs and whose `unique_blogs` is their number |
| Precalc.UpsertedIdempotent | analytics/management/commands/precalculate_stats.py:110-193 | running again over the same views creates nothing and leaves the table as it was, stale rows shadowed by a later duplicate included |
| Precalc.LockDecisionMeaning | analytics/management/commands/precalculate_stats.py:52-95 | a forced run takes no lock; the advisory lock is held only after a failed cache lock on PostgreSQL; the run counts as locked exactly when forced, cache-locked or advisory-locked |
| Precalc.RangeStartMeaning | analytics/management/commands/precalculate_stats.py:97-108 | a non-zero `--days` starts `days` before today; otherwise the start is the earliest view's day, which includes every view; there is no start only when there are no views |
| Precalc.EarliestTimestamp | analytics/management/commands/precalculate_stats.py:103-107 | the earliest view's timestamp is that of some view and is at or before all of them |
| Precalc.HllKeyAgrees | analytics/management/commands/precalculate_stats.py:209 | the counter key the command writes for a row is the key the fast query reads for it |
| Precalc.Redis.PfAdd | analytics/management/commands/precalculate_stats.py:213-215 | adds the values to the key's members only |
| Precalc.Redis.Expire | analytics/management/commands/precalculate_stats.py:216 | sets the key's expiry only |
| Precalc.Redis.Publish | analytics/management/commands/precalculate_stats.py:196-218 | the publication loop leaves the counters as the publication function says |
| Precalc.PublishedAdds | analytics/management/commands/precalculate_stats.py:207-218 | every row with blog ids whose key does not fail ends with its ids among its counter's members and a 90-day expiry |
| Precalc.PublishedOnlyTouchesRowKeys | analytics/management/commands/precalculate_stats.py:207-218 | a counter no row maps to keeps its members and its expiry |
| Precalc.PublishedMembersFromRows | analytics/management/commands/precalculate_stats.py:207-218 | every member a counter gains is a blog id of a row published under that key |
| Precalc.AcquireLock | analytics/management/commands/precalculate_stats.py:52-95 | the lock phase reaches the lock decision, adds the cache lock only when it was absent, and holds the advisory lock only when it was granted |
| Precalc.Upsert | analytics/management/commands/precalculate_stats.py:110-193 | returns exactly the planned lists; the table is the upserted table, or unchanged on a dry run |
| Precalc.WriteSummaries | analytics/management/commands/precalculate_stats.py:168-193 | nothing is written on a dry run; otherwise the creations are saved with fresh primary keys and then the updates applied |
| Precalc.ReleaseLock | analytics/management/commands/precalculate_stats.py:222-236 | the cache lock key is deleted whoever took it; the advisory lock is released when this run holds it and the unlock query completes, and stays held when that query raises |
| Precalc.Handle | analytics/management/commands/precalculate_stats.py:47-256 | the whole run. Without a start date, nothing is written and the locks are not released. Otherwise the reported counts are the planned list sizes, the table is upserted unless it is a dry run, the counters receive the created and updated rows when HLL is on and Redis answers, the cache lock is removed, and an advisory lock this run took is released unless the unlock query raises |

## Left out

- Logging, statsd counters and the command's stdout messages are not modelled. They change no state the model observes.
- Cache timeouts are not modelled: the 15-minute result timeout and the one-hour lock timeout. The cache is a map without expiry.
- The text of `json.dumps` and the md5 digest are not computed. The key is a parameter function of the canonical key-sorted tree. The keyword arguments are modelled as that tree.
- Transactions, concurrency and a second process racing for the locks are not modelled. The locks are modelled only as state.
- Exceptions raised by the database engine in the advisory-lock query are reduced to a `Failed` reply, and those in the unlock query to `unlockUp` being false.
- ResultCache.Cache.Get: a cache backend that raises in the services' `cache.get` or `cache.set` (services.py lines 113, 129, 146, 168, 186, 311, 407 and 606) aborts the request with that exception. The model's `Get` and `Set` always answer, so that failure path of the services is not modelled.
- Precalc.NextId: the primary keys `bulk_create` assigns are modelled as consecutive from one past the largest stored key. PostgreSQL's sequence may hand out larger ones; the properties proved use only that the new keys are fresh.
- Precalc.Database.BulkUpdate: batching (`batch_size=1000`) is not modelled. The instances have distinct primary keys, so batches do not interact.
- Serializers.Validate: the in-place update of the `data` dictionary is modelled as a function returning the updated dictionary.
- Serializers.Check: the request arrives already typed. DRF's parsing of the wire text is not modelled: ISO strings for `start_date`/`end_date` (a date-only string becomes that day's midnight, or an error on older Django), and integer strings for `year`/`blog_id`. A datetime given is taken as `At(t)` and a `date` object as `OnDay(d)`, which is rejected.
- Serializers.Check: DRF's error messages and error structure are reduced to the set of failing field names. DRF's `ProhibitSurrogateCharactersValidator` has nothing to reject here: a Dafny `char` is a Unicode scalar value, so a string cannot hold a surrogate code point.
- The first HyperLogLog block of the fast query (services.py lines 459-495) computes values that are never used for `y`, so it is not modelled.
- Performance.CalculateGrowthPeriods: `round(growth, 2)` and the floating-point arithmetic are not modelled. Growth is an exact real number.
- HyperLogLog counters are modelled as exact member sets, and PFCOUNT's answer is a parameter. The estimation error is not modelled.
- Precalc.Redis.Publish: a failure is modelled per key as a skipped PFADD and EXPIRE. An EXPIRE failing after a successful PFADD is not modelled.
- Sub-second time: timestamps and `now` are whole seconds, while Python's `datetime` carries microseconds. The `.ffffff` fraction that `str()` and `isoformat()` print for a non-zero microsecond (the `default=str` of the cache key and the `start_date`/`end_date` output), the order of two timestamps within the same second in `__gte`/`__lte` filters, and the effect of a fraction on `(max - min).days` are not modelled.
- Time zones are not modelled: every timestamp is UTC, as `TruncDate` and `.date()` are under `USE_TZ` with UTC.
- SQL leaves the order of rows with equal sort keys open. The model fixes one order: groups in order of first appearance, then a stable sort that keeps equal keys in that order (`Seqs.SortDescSorted`).
- Precalc.ExistingIndex: `existing_qs` is ordered by `-date, country`, which ties on two stored rows with the same `(date, country, author)` key. SQL then leaves open which of them comes last and so stays in `existing_map`. The model takes the stored table's order, so the later row in the table wins; it does not cover a database that returns the two rows in the other order.
- The fast query's follow-up `__in group_keys` narrowing is not modelled separately. The group keys are exactly the selected rows' groups, so it keeps every row.
- The `__str__` methods, the admin, the views and the URL layer are not part of this model.

Behaviours of the code that the model keeps as written:
- The cache lock key is deleted at the end even when this run did not add it: it was forced, or it was locked by the advisory lock.
- The early return when there are no views skips the release of both locks.
- A dry run still publishes to the HyperLogLog counters.
- With the `created` metric, the label count ignores every filter except the author.
- The fast query on an empty summary table caches nothing, while a non-empty table that yields no rows caches the empty answer.
- A run that acquires no lock still proceeds, after a warning.
