/**
 * The filter dictionary that the validated request hands to the service
 * layer. Every key is optional (`Option`), and the builders test each value
 * with Python truthiness, so `year = 0`, `""` and `[]` count as absent.
 * `start_date`/`end_date` are datetimes from the API, or plain dates when a
 * caller passes them directly.
 */
module Params {
  import opened Wrappers
  import Calendar
  import CanonicalJson
  import Text

  datatype TimeValue =
    | At(t: Calendar.DateTime)
    | OnDay(d: Calendar.Date)

  datatype FilterDict = FilterDict(
    range: Option<string>,
    startDate: Option<TimeValue>,
    endDate: Option<TimeValue>,
    year: Option<int>,
    countryCodes: Option<seq<string>>,
    excludeCountryCodes: Option<seq<string>>,
    authorUsername: Option<string>,
    blogId: Option<int>,
    compare: Option<string>)

  const NoFilters := FilterDict(None, None, None, None, None, None, None, None, None)

  // Python truthiness of `filters.get(...)` for each key

  predicate YearGiven(f: FilterDict) { f.year.Some? && f.year.value != 0 }
  predicate CountryCodesGiven(f: FilterDict) { f.countryCodes.Some? && f.countryCodes.value != [] }
  predicate ExcludeCodesGiven(f: FilterDict) { f.excludeCountryCodes.Some? && f.excludeCountryCodes.value != [] }
  predicate AuthorGiven(f: FilterDict) { f.authorUsername.Some? && f.authorUsername.value != "" }
  predicate BlogGiven(f: FilterDict) { f.blogId.Some? && f.blogId.value != 0 }
  predicate CompareGiven(f: FilterDict) { f.compare.Some? && f.compare.value != "" }

  /** `str()` of a date or datetime, which `json.dumps(default=str)` falls back to. */
  function TimeText(v: TimeValue): string {
    match v
    case At(t) => Calendar.DateTimeText(t)
    case OnDay(d) => Calendar.IsoDate(d)
  }

  function StrList(xs: seq<string>): (j: CanonicalJson.Json)
    ensures j.JList? && |j.items| == |xs|
    ensures CanonicalJson.WellFormed(j)
  {
    var j := CanonicalJson.JList(seq(|xs|, i requires 0 <= i < |xs| => CanonicalJson.JStr(xs[i])));
    assert forall i :: 0 <= i < |j.items| ==> j.items[i] == CanonicalJson.JStr(xs[i]);
    j
  }

  // One entry per key the validated dict holds, none for an absent key

  function StrEntry(name: string, v: Option<string>): (ms: seq<CanonicalJson.Member>)
    ensures OptionalMember(ms, name)
  {
    if v.Some? then [CanonicalJson.Member(name, CanonicalJson.JStr(v.value))] else []
  }

  function TimeEntry(name: string, v: Option<TimeValue>): (ms: seq<CanonicalJson.Member>)
    ensures OptionalMember(ms, name)
  {
    if v.Some? then [CanonicalJson.Member(name, CanonicalJson.JStr(TimeText(v.value)))] else []
  }

  function IntEntry(name: string, v: Option<int>): (ms: seq<CanonicalJson.Member>)
    ensures OptionalMember(ms, name)
  {
    if v.Some? then [CanonicalJson.Member(name, CanonicalJson.JInt(v.value))] else []
  }

  function ListEntry(name: string, v: Option<seq<string>>): (ms: seq<CanonicalJson.Member>)
    ensures OptionalMember(ms, name)
  {
    if v.Some? then [CanonicalJson.Member(name, StrList(v.value))] else []
  }

  /** The serializer's field names, in the order it declares them. */
  const FieldNames: seq<string> := ["range", "start_date", "end_date", "year", "country_codes",
    "exclude_country_codes", "author_username", "blog_id", "compare"]

  /** The entries of `f`, one part per field of `FieldNames`. */
  function Entries(f: FilterDict): (parts: seq<seq<CanonicalJson.Member>>)
    ensures |parts| == |FieldNames|
  {
    [StrEntry("range", f.range), TimeEntry("start_date", f.startDate), TimeEntry("end_date", f.endDate),
     IntEntry("year", f.year), ListEntry("country_codes", f.countryCodes),
     ListEntry("exclude_country_codes", f.excludeCountryCodes), StrEntry("author_username", f.authorUsername),
     IntEntry("blog_id", f.blogId), StrEntry("compare", f.compare)]
  }

  /** Present keys, in the order the serializer declares its fields. */
  function ToJson(f: FilterDict): (j: CanonicalJson.Json)
    ensures j.JObject?
  {
    CanonicalJson.JObject(Concat(Entries(f)))
  }

  /**
   * The members' keys are distinct and drawn from `seen`, each member's
   * value well formed; stated from the last member back, one key at a time.
   */
  ghost predicate DistinctWithin(ms: seq<CanonicalJson.Member>, seen: set<string>)
    decreases |ms|
  {
    ms == [] ||
    (var last := ms[|ms| - 1];
     last.key in seen && CanonicalJson.WellFormed(last.value) && DistinctWithin(ms[..|ms| - 1], seen - {last.key}))
  }

  /** Members with distinct keys and well-formed values make a well-formed object. */
  lemma {:induction false} DistinctWithinWellFormed(ms: seq<CanonicalJson.Member>, seen: set<string>)
    requires DistinctWithin(ms, seen)
    ensures CanonicalJson.UniqueKeys(ms)
    ensures forall i :: 0 <= i < |ms| ==> ms[i].key in seen && CanonicalJson.WellFormed(ms[i].value)
    ensures CanonicalJson.WellFormed(CanonicalJson.JObject(ms))
    decreases |ms|
  {
    if ms != [] {
      var p := ms[..|ms| - 1];
      var last := ms[|ms| - 1];
      DistinctWithinWellFormed(p, seen - {last.key});
      assert forall i :: 0 <= i < |p| ==> ms[i] == p[i];
    }
  }

  /** A larger set of allowed keys is no stronger a demand. */
  lemma {:induction false} DistinctWithinGrow(ms: seq<CanonicalJson.Member>, seen: set<string>, more: set<string>)
    requires DistinctWithin(ms, seen) && seen <= more
    ensures DistinctWithin(ms, more)
    decreases |ms|
  {
    if ms != [] {
      var last := ms[|ms| - 1];
      DistinctWithinGrow(ms[..|ms| - 1], seen - {last.key}, more - {last.key});
    }
  }

  /** The parts joined in order, as `ToJson` joins its optional members. */
  function Concat(parts: seq<seq<CanonicalJson.Member>>): seq<CanonicalJson.Member>
    decreases |parts|
  {
    if parts == [] then [] else Concat(parts[..|parts| - 1]) + parts[|parts| - 1]
  }

  /** No member, or one well-formed member under `name`. */
  ghost predicate OptionalMember(part: seq<CanonicalJson.Member>, name: string) {
    part == [] || (|part| == 1 && part[0].key == name && CanonicalJson.WellFormed(part[0].value))
  }

  /**
   * Joining parts that each hold at most one well-formed member, the `i`-th
   * under `names[i]`, with the names distinct, gives distinct keys among the
   * names.
   */
  lemma {:induction false} OptionalPartsDistinct(parts: seq<seq<CanonicalJson.Member>>, names: seq<string>)
    requires |parts| == |names|
    requires forall i :: 0 <= i < |parts| ==> OptionalMember(parts[i], names[i])
    requires forall i, j :: 0 <= i < j < |names| ==> names[i] != names[j]
    ensures DistinctWithin(Concat(parts), set i | 0 <= i < |names| :: names[i])
    decreases |parts|
  {
    if parts != [] {
      var n := |parts| - 1;
      var before := set i | 0 <= i < n :: names[i];
      var all := set i | 0 <= i < |names| :: names[i];
      OptionalPartsDistinct(parts[..n], names[..n]);
      assert (set i | 0 <= i < n :: names[..n][i]) == before;
      assert names[n] !in before;
      var ms := Concat(parts[..n]);
      AppendOptional(ms, parts[n], before, names[n]);
      DistinctWithinGrow(ms + parts[n], if parts[n] == [] then before else before + {names[n]}, all);
    }
  }

  /** Appending an optional member under a key not seen yet keeps the keys distinct. */
  lemma AppendOptional(ms: seq<CanonicalJson.Member>, part: seq<CanonicalJson.Member>, seen: set<string>, k: string)
    requires DistinctWithin(ms, seen) && k !in seen && OptionalMember(part, k)
    ensures DistinctWithin(ms + part, if part == [] then seen else seen + {k})
  {
    if part == [] {
      assert ms + part == ms;
    } else {
      assert (ms + part)[..|ms|] == ms;
      assert (seen + {k}) - {k} == seen;
    }
  }

  /** The dictionary handed to `json.dumps` never repeats a key, as a Python dict cannot. */
  lemma ToJsonWellFormed(f: FilterDict)
    ensures CanonicalJson.WellFormed(ToJson(f))
  {
    var parts := Entries(f);
    EntriesOptional(f);
    FieldNamesDistinct();
    OptionalPartsDistinct(parts, FieldNames);
    DistinctWithinWellFormed(Concat(parts), set i | 0 <= i < |FieldNames| :: FieldNames[i]);
  }

  /** Each entry holds at most one member, under its field's name. */
  lemma EntriesOptional(f: FilterDict)
    ensures forall i :: 0 <= i < |FieldNames| ==> OptionalMember(Entries(f)[i], FieldNames[i])
  {
    var parts := Entries(f);
    var r := StrEntry("range", f.range);
    var sd := TimeEntry("start_date", f.startDate);
    var ed := TimeEntry("end_date", f.endDate);
    var y := IntEntry("year", f.year);
    var cc := ListEntry("country_codes", f.countryCodes);
    var xc := ListEntry("exclude_country_codes", f.excludeCountryCodes);
    var au := StrEntry("author_username", f.authorUsername);
    var bi := IntEntry("blog_id", f.blogId);
    var cm := StrEntry("compare", f.compare);
    assert parts == [r, sd, ed, y, cc, xc, au, bi, cm];
  }

  /** No field name is declared twice. */
  lemma FieldNamesDistinct()
    ensures forall i, j :: 0 <= i < j < |FieldNames| ==> FieldNames[i] != FieldNames[j]
  {
  }
}
