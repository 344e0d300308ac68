/**
 * Time as the model sees it: a `DateTime` is a count of whole seconds
 * since 1970-01-01T00:00:00 UTC (Python's microseconds are dropped) and a `Date` a count of days since 1970-01-01,
 * both in the proleptic Gregorian calendar that Python's `datetime` uses.
 * The conversions follow the well-known days-from-civil algorithm; they
 * supply `.date()`, `__year`, the `Trunc*` period starts, `isoformat()` and
 * `str()` of a timestamp.
 */
module Calendar {
  import Text

  type DateTime = int
  type Date = int

  const SecondsPerDay := 86400

  /** `timestamp.date()` (and `TruncDate`) in UTC. */
  function DateOf(t: DateTime): Date {
    t / SecondsPerDay
  }

  /** The first second of day `d`: a `date` used where a `datetime` is compared. */
  function Midnight(d: Date): DateTime {
    d * SecondsPerDay
  }

  /** A timestamp is at or after midnight of `d` exactly when its date is at or after `d`. */
  lemma AtOrAfterMidnight(t: DateTime, d: Date)
    ensures t >= Midnight(d) <==> DateOf(t) >= d
  {
    var q, r := t / SecondsPerDay, t % SecondsPerDay;
    assert t == q * SecondsPerDay + r && 0 <= r < SecondsPerDay;
    if q >= d {
      assert q * SecondsPerDay >= d * SecondsPerDay;
    } else {
      assert q + 1 <= d;
      assert (q + 1) * SecondsPerDay <= d * SecondsPerDay;
    }
  }

  lemma DateOfMonotone(t1: DateTime, t2: DateTime)
    requires t1 <= t2
    ensures DateOf(t1) <= DateOf(t2)
  {
    AtOrAfterMidnight(t2, DateOf(t1));
    AtOrAfterMidnight(t1, DateOf(t1));
  }

  datatype Civil = Civil(year: int, month: int, day: int)

  /** Calendar year, month and day of day number `z0`. */
  function CivilFromDays(z0: Date): Civil {
    var z := z0 + 719468;
    var era := z / 146097;
    var doe := z - era * 146097;
    var yoe := (doe - doe / 1460 + doe / 36524 - doe / 146096) / 365;
    var y := yoe + era * 400;
    var doy := doe - (365 * yoe + yoe / 4 - yoe / 100);
    var mp := (5 * doy + 2) / 153;
    var d := doy - (153 * mp + 2) / 5 + 1;
    var m := if mp < 10 then mp + 3 else mp - 9;
    Civil(if m <= 2 then y + 1 else y, m, d)
  }

  /** Day number of calendar date `y`-`m`-`d`. */
  function DaysFromCivil(y0: int, m: int, d: int): Date {
    var y := if m <= 2 then y0 - 1 else y0;
    var era := y / 400;
    var yoe := y - era * 400;
    var doy := (153 * (if m > 2 then m - 3 else m + 9) + 2) / 5 + d - 1;
    var doe := yoe * 365 + yoe / 4 - yoe / 100 + doy;
    era * 146097 + doe - 719468
  }

  /** `__year` of a date. */
  function YearOf(d: Date): int {
    CivilFromDays(d).year
  }

  /** `TruncWeek`: the Monday of the ISO week (1970-01-01 was a Thursday). */
  function WeekStart(d: Date): Date {
    d - (d + 3) % 7
  }

  /** `TruncMonth`: the first day of the month. */
  function MonthStart(d: Date): Date {
    var c := CivilFromDays(d);
    DaysFromCivil(c.year, c.month, 1)
  }

  /** `TruncYear`: the first of January. */
  function YearStart(d: Date): Date {
    DaysFromCivil(YearOf(d), 1, 1)
  }

  function SignedPadded(n: int, width: nat): string {
    if n < 0 then "-" + Text.Padded(-n, width) else Text.Padded(n, width)
  }

  /** `date.isoformat()`: `YYYY-MM-DD`. */
  function IsoDate(d: Date): string {
    var c := CivilFromDays(d);
    SignedPadded(c.year, 4) + "-" + SignedPadded(c.month, 2) + "-" + SignedPadded(c.day, 2)
  }

  /** `str()` of a UTC-aware timestamp: `YYYY-MM-DD HH:MM:SS+00:00`. */
  function DateTimeText(t: DateTime): string {
    var s := t % SecondsPerDay;
    IsoDate(DateOf(t)) + " " + Text.Padded(s / 3600, 2) + ":" + Text.Padded(s % 3600 / 60, 2)
      + ":" + Text.Padded(s % 60, 2) + "+00:00"
  }
}
