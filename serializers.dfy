/**
 * `AnalyticsFilterSerializer`: the field constraints checked first (every
 * failing field is reported together; string fields are stripped of edge
 * whitespace, DRF's `trim_whitespace` default, before their blank, length
 * and NUL-character checks; the two `DateTimeField`s take datetimes only),
 * then `validate`, which rejects empty country lists and expands a named
 * `range` into an absolute window ending at `now`. The clock is a parameter.
 */
module Serializers {
  import opened Wrappers
  import opened Params
  import Calendar

  const RangeChoices: seq<string> := ["day", "week", "month", "year"]
  const YearMin := 2000
  const YearMax := 2100
  const CountryCodeMaxLength := 5

  /** `RANGE_DAYS.get(name)`. */
  function RangeDays(name: string): Option<nat> {
    if name == "day" then Some(1)
    else if name == "week" then Some(7)
    else if name == "month" then Some(30)
    else if name == "year" then Some(365)
    else None
  }

  /** `RANGE_DAYS` is defined on exactly the names `range` and `compare` accept. */
  lemma RangeDaysOnChoices(name: string)
    ensures RangeDays(name).Some? <==> name in RangeChoices
    ensures RangeDays(name).Some? ==> 1 <= RangeDays(name).value <= 365
  {
  }

  datatype Validated =
    | Accepted(data: FilterDict)
    | Rejected(fields: set<string>)

  /**
   * Python's `str.isspace` on one character: the characters `str.strip()`
   * removes from either end.
   */
  predicate IsSpace(c: char) {
    c == ' ' || '\t' <= c <= '\r' || '\U{1C}' <= c <= '\U{1F}' || c == '\U{85}' || c == '\U{A0}'
    || c == '\U{1680}' || '\U{2000}' <= c <= '\U{200A}' || c == '\U{2028}' || c == '\U{2029}'
    || c == '\U{202F}' || c == '\U{205F}' || c == '\U{3000}'
  }

  /** Neither end of `s` is whitespace. */
  predicate NoEdgeSpace(s: string) {
    s == [] || (!IsSpace(s[0]) && !IsSpace(s[|s| - 1]))
  }

  /** How many whitespace characters `s` starts with. */
  function LeadingSpaces(s: string): (n: nat)
    ensures n <= |s| && forall k :: 0 <= k < n ==> IsSpace(s[k])
    ensures n < |s| ==> !IsSpace(s[n])
  {
    if s != [] && IsSpace(s[0]) then 1 + LeadingSpaces(s[1..]) else 0
  }

  /** How many whitespace characters `s` ends with. */
  function TrailingSpaces(s: string): (n: nat)
    ensures n <= |s| && forall k :: |s| - n <= k < |s| ==> IsSpace(s[k])
    ensures n < |s| ==> !IsSpace(s[|s| - 1 - n])
  {
    if s != [] && IsSpace(s[|s| - 1]) then 1 + TrailingSpaces(s[..|s| - 1]) else 0
  }

  /**
   * `s.strip()`, which a DRF `CharField` applies by default
   * (`trim_whitespace=True`): the leading whitespace cut off, then the
   * trailing whitespace of what is left; no whitespace remains at either end.
   */
  function Strip(s: string): (r: string)
    ensures NoEdgeSpace(r)
  {
    var t := s[LeadingSpaces(s)..];
    t[..|t| - TrailingSpaces(t)]
  }

  /** The stripped value is a middle slice of `s`, everything cut off being whitespace. */
  lemma StripSlice(s: string)
    ensures var i := LeadingSpaces(s); var r := Strip(s);
      && i + |r| <= |s| && r == s[i..i + |r|]
      && (forall k :: 0 <= k < i ==> IsSpace(s[k]))
      && (forall k :: i + |r| <= k < |s| ==> IsSpace(s[k]))
  {
    var i := LeadingSpaces(s);
    var t := s[i..];
    var r := Strip(s);
    assert r == s[i..i + |r|];
    forall k | i + |r| <= k < |s| ensures IsSpace(s[k]) {
      assert s[k] == t[k - i];
    }
  }

  /** A string without whitespace at its ends strips to itself, so stripping twice is stripping once. */
  lemma StripClean(s: string)
    ensures NoEdgeSpace(s) ==> Strip(s) == s
    ensures Strip(Strip(s)) == Strip(s)
  {
    if NoEdgeSpace(s) {
      assert LeadingSpaces(s) == 0;
      assert s[0..] == s;
      assert TrailingSpaces(s) == 0;
    }
    var r := Strip(s);
    assert LeadingSpaces(r) == 0;
    assert r[0..] == r;
    assert TrailingSpaces(r) == 0;
  }

  /** Every character of `s` is whitespace (DRF calls such a value blank). */
  predicate Blank(s: string) {
    forall k :: 0 <= k < |s| ==> IsSpace(s[k])
  }

  /** A value strips to nothing exactly when it is blank. */
  lemma StripBlank(s: string)
    ensures Strip(s) == "" <==> Blank(s)
  {
  }

  /**
   * A `CharField(max_length=5)` list child: after stripping, not blank, at
   * most five characters and without `\0`.
   */
  predicate CodeOk(code: string) {
    Strip(code) != "" && |Strip(code)| <= CountryCodeMaxLength && NoNul(Strip(code))
  }

  /** DRF's `ProhibitNullCharactersValidator`, which every `CharField` runs: no `\0` character. */
  predicate NoNul(s: string) {
    '\0' !in s
  }

  /** The `author_username` `CharField`: after stripping, not blank and without `\0`. */
  predicate UsernameOk(name: string) {
    Strip(name) != "" && NoNul(Strip(name))
  }

  predicate CodesOk(codes: Option<seq<string>>) {
    codes.None? || forall i :: 0 <= i < |codes.value| ==> CodeOk(codes.value[i])
  }

  /** A code as it leaves the serializer: stripped, not empty, at most five characters, no `\0`. */
  predicate CleanCode(code: string) {
    code != "" && |code| <= CountryCodeMaxLength && NoEdgeSpace(code) && NoNul(code)
  }

  predicate CleanCodes(codes: Option<seq<string>>) {
    codes.None? || forall i :: 0 <= i < |codes.value| ==> CleanCode(codes.value[i])
  }

  /** Every element of a list field stripped, as its `CharField` child returns it. */
  function StripAll(codes: Option<seq<string>>): (r: Option<seq<string>>)
    ensures r.None? <==> codes.None?
    ensures r.Some? ==>
      |r.value| == |codes.value| && forall i :: 0 <= i < |codes.value| ==> r.value[i] == Strip(codes.value[i])
  {
    match codes
    case None => None
    case Some(v) => Some(seq(|v|, i requires 0 <= i < |v| => Strip(v[i])))
  }

  /** The field values `to_internal_value` hands to `validate`: string fields stripped. */
  function Trimmed(d: FilterDict): FilterDict {
    d.(countryCodes := StripAll(d.countryCodes),
       excludeCountryCodes := StripAll(d.excludeCountryCodes),
       authorUsername := if d.authorUsername.Some? then Some(Strip(d.authorUsername.value)) else None)
  }

  /** The string fields of `d` are already free of edge whitespace. */
  predicate AlreadyTrimmed(d: FilterDict) {
    && (d.countryCodes.Some? ==> forall i :: 0 <= i < |d.countryCodes.value| ==> NoEdgeSpace(d.countryCodes.value[i]))
    && (d.excludeCountryCodes.Some? ==>
          forall i :: 0 <= i < |d.excludeCountryCodes.value| ==> NoEdgeSpace(d.excludeCountryCodes.value[i]))
    && (d.authorUsername.Some? ==> NoEdgeSpace(d.authorUsername.value))
  }

  /** Stripping the elements of an already stripped list changes nothing, and a stripped list is stripped. */
  lemma StripAllClean(codes: Option<seq<string>>)
    ensures (codes.Some? ==> forall i :: 0 <= i < |codes.value| ==> NoEdgeSpace(codes.value[i])) ==>
      StripAll(codes) == codes
    ensures StripAll(codes).Some? ==>
      forall i :: 0 <= i < |StripAll(codes).value| ==> NoEdgeSpace(StripAll(codes).value[i])
  {
    if codes.Some? && forall i :: 0 <= i < |codes.value| ==> NoEdgeSpace(codes.value[i]) {
      forall i | 0 <= i < |codes.value| ensures StripAll(codes).value[i] == codes.value[i] {
        StripClean(codes.value[i]);
      }
      assert StripAll(codes).value == codes.value;
    }
  }

  /** Trimming changes nothing in a dictionary whose strings are already stripped. */
  lemma TrimmedClean(d: FilterDict)
    ensures AlreadyTrimmed(d) ==> Trimmed(d) == d
    ensures AlreadyTrimmed(Trimmed(d))
  {
    StripAllClean(d.countryCodes);
    StripAllClean(d.excludeCountryCodes);
    if d.authorUsername.Some? { StripClean(d.authorUsername.value); }
  }

  /**
   * A `DateTimeField` accepts a datetime and rejects a plain date ("Expected
   * a datetime but got a date"), so only `At` values pass.
   */
  predicate DateTimeOk(v: Option<TimeValue>) {
    v.None? || v.value.At?
  }

  /** The fields whose own declaration rejects the value given. */
  function FieldErrors(d: FilterDict): set<string> {
    (if d.range.Some? && d.range.value !in RangeChoices then {"range"} else {})
    + (if d.year.Some? && !(YearMin <= d.year.value <= YearMax) then {"year"} else {})
    + (if !CodesOk(d.countryCodes) then {"country_codes"} else {})
    + (if !CodesOk(d.excludeCountryCodes) then {"exclude_country_codes"} else {})
    + (if d.authorUsername.Some? && !UsernameOk(d.authorUsername.value) then {"author_username"} else {})
    + (if d.blogId.Some? && d.blogId.value < 1 then {"blog_id"} else {})
    + (if d.compare.Some? && d.compare.value !in RangeChoices then {"compare"} else {})
    + (if !DateTimeOk(d.startDate) then {"start_date"} else {})
    + (if !DateTimeOk(d.endDate) then {"end_date"} else {})
  }

  /** `validate(data)`, run on data whose fields are individually valid. */
  function Validate(data: FilterDict, now: Calendar.DateTime): Validated {
    if data.countryCodes == Some([]) then Rejected({"country_codes"})
    else if data.excludeCountryCodes == Some([]) then Rejected({"exclude_country_codes"})
    else if data.range.Some? && data.range.value != "" then
      match RangeDays(data.range.value)
      case None => Rejected({"range"})
      case Some(days) =>
        Accepted(data.(startDate := Some(At(now - days * Calendar.SecondsPerDay)), endDate := Some(At(now))))
    else Accepted(data)
  }

  /**
   * `is_valid()`: field errors first; `validate`, on the stripped values, only
   * when there are none.
   */
  function Check(input: FilterDict, now: Calendar.DateTime): (v: Validated)
    ensures v.Rejected? ==> v.fields != {}
  {
    var errs := FieldErrors(input);
    if errs != {} then Rejected(errs) else Validate(Trimmed(input), now)
  }

  /** `country_codes: []` never validates; alone at fault it is the one field reported. */
  lemma EmptyCountryCodesRejected(input: FilterDict, now: Calendar.DateTime)
    requires input.countryCodes == Some([])
    ensures Check(input, now).Rejected?
    ensures FieldErrors(input) == {} ==> Check(input, now).fields == {"country_codes"}
  {
  }

  /** `exclude_country_codes: []` never validates, whatever `range` says. */
  lemma EmptyExcludeCodesRejected(input: FilterDict, now: Calendar.DateTime)
    requires input.excludeCountryCodes == Some([])
    ensures Check(input, now).Rejected?
    ensures FieldErrors(input) == {} && input.countryCodes != Some([]) ==>
      Check(input, now).fields == {"exclude_country_codes"}
  {
  }

  /** A named range replaces any given window by `[now - RANGE_DAYS[range], now]` and is kept. */
  lemma RangeOverridesWindow(input: FilterDict, now: Calendar.DateTime)
    requires FieldErrors(input) == {} && input.range.Some?
    requires input.countryCodes != Some([]) && input.excludeCountryCodes != Some([])
    ensures RangeDays(input.range.value).Some?
    ensures Check(input, now) == Accepted(Trimmed(input).(
      startDate := Some(At(now - RangeDays(input.range.value).value * Calendar.SecondsPerDay)),
      endDate := Some(At(now))))
    ensures Check(input, now).data.range == input.range
  {
  }

  /**
   * Without a range every validated field comes back as given, its strings
   * stripped; already stripped input comes back unchanged.
   */
  lemma NoRangeUnchanged(input: FilterDict, now: Calendar.DateTime)
    requires FieldErrors(input) == {} && input.range.None?
    requires input.countryCodes != Some([]) && input.excludeCountryCodes != Some([])
    ensures Check(input, now) == Accepted(Trimmed(input))
    ensures AlreadyTrimmed(input) ==> Check(input, now) == Accepted(input)
  {
    TrimmedClean(input);
  }

  /** A code that is all whitespace is rejected as blank, whatever else is given. */
  lemma BlankCodeRejected(input: FilterDict, now: Calendar.DateTime)
    requires input.countryCodes.Some?
    requires exists i :: 0 <= i < |input.countryCodes.value| && Blank(input.countryCodes.value[i])
    ensures Check(input, now).Rejected? && "country_codes" in Check(input, now).fields
  {
    var i :| 0 <= i < |input.countryCodes.value| && Blank(input.countryCodes.value[i]);
    StripBlank(input.countryCodes.value[i]);
  }

  /** Stripping never removes a `\0`, which is not whitespace. */
  lemma StripKeepsNul(s: string)
    ensures NoNul(Strip(s)) <==> NoNul(s)
  {
    StripSlice(s);
    var i := LeadingSpaces(s);
    var r := Strip(s);
    if !NoNul(s) {
      var k :| 0 <= k < |s| && s[k] == '\0';
      assert !IsSpace(s[k]);
      assert i <= k < i + |r|;
      assert r[k - i] == s[k];
    }
  }

  /** A code holding a `\0` is rejected on `country_codes`, whatever else is given. */
  lemma NulCodeRejected(input: FilterDict, now: Calendar.DateTime)
    requires input.countryCodes.Some?
    requires exists i :: 0 <= i < |input.countryCodes.value| && !NoNul(input.countryCodes.value[i])
    ensures Check(input, now).Rejected? && "country_codes" in Check(input, now).fields
  {
    var i :| 0 <= i < |input.countryCodes.value| && !NoNul(input.countryCodes.value[i]);
    StripKeepsNul(input.countryCodes.value[i]);
    assert !CodeOk(input.countryCodes.value[i]);
  }

  /** A username holding a `\0` is rejected on `author_username`, whatever else is given. */
  lemma NulUsernameRejected(input: FilterDict, now: Calendar.DateTime)
    requires input.authorUsername.Some? && !NoNul(input.authorUsername.value)
    ensures Check(input, now).Rejected? && "author_username" in Check(input, now).fields
  {
    StripKeepsNul(input.authorUsername.value);
  }

  /** A padded code whose stripped form is valid is accepted, and comes back stripped. */
  lemma PaddedCodeAccepted(code: string, now: Calendar.DateTime)
    requires Strip(code) != "" && |Strip(code)| <= CountryCodeMaxLength && NoNul(Strip(code))
    ensures Check(NoFilters.(countryCodes := Some([code])), now) == Accepted(NoFilters.(countryCodes := Some([Strip(code)])))
  {
    var input := NoFilters.(countryCodes := Some([code]));
    assert CodesOk(input.countryCodes) by {
      assert input.countryCodes.value[0] == code;
    }
    assert FieldErrors(input) == {};
    var r := StripAll(Some([code]));
    assert r.value[0] == Strip(code);
    assert r.value == [Strip(code)];
    assert Trimmed(input) == NoFilters.(countryCodes := Some([Strip(code)]));
  }

  /** What every accepted filter dictionary satisfies. */
  lemma AcceptedWithinBounds(input: FilterDict, now: Calendar.DateTime)
    requires Check(input, now).Accepted?
    ensures var d := Check(input, now).data;
      && (d.year.Some? ==> YearMin <= d.year.value <= YearMax)
      && (d.blogId.Some? ==> d.blogId.value >= 1)
      && CleanCodes(d.countryCodes) && CleanCodes(d.excludeCountryCodes)
      && (d.authorUsername.Some? ==>
            d.authorUsername.value != "" && NoEdgeSpace(d.authorUsername.value) && NoNul(d.authorUsername.value))
      && d.countryCodes != Some([]) && d.excludeCountryCodes != Some([])
      && (d.range.Some? ==> d.range.value in RangeChoices)
      && (d.compare.Some? ==> d.compare.value in RangeChoices)
      && (d.range.Some? ==>
            d.startDate.Some? && d.endDate == Some(At(now)) && d.startDate.value.At? && d.startDate.value.t < now)
      && DateTimeOk(d.startDate) && DateTimeOk(d.endDate)
  {
  }

  /** A plain date given for `start_date` or `end_date` is rejected on that field. */
  lemma DateValueRejected(input: FilterDict, now: Calendar.DateTime)
    requires !DateTimeOk(input.startDate) || !DateTimeOk(input.endDate)
    ensures Check(input, now).Rejected?
    ensures !DateTimeOk(input.startDate) ==> "start_date" in Check(input, now).fields
    ensures !DateTimeOk(input.endDate) ==> "end_date" in Check(input, now).fields
  {
  }
}
