/**
 Photo-taken timestamps: a calendar date and a wall-clock time to the second,
 all in one fixed zone, ordered the way time.Time's Before and After order them.
 */
module Timestamps {
  import opened Wrappers

  datatype Moment = Moment(year: int, month: int, day: int, hour: int, minute: int, second: int)

  predicate IsLeapYear(y: int) {
    y % 4 == 0 && (y % 100 != 0 || y % 400 == 0)
  }

  function DaysIn(year: int, month: int): int
    requires 1 <= month <= 12
  {
    if month == 2 then (if IsLeapYear(year) then 29 else 28)
    else if month in {4, 6, 9, 11} then 30
    else 31
  }

  /** A calendar moment with a four-digit year, as EXIF date-times and the --from/--to layout carry. */
  predicate Valid(t: Moment) {
    && 0 <= t.year <= 9999
    && 1 <= t.month <= 12
    && 1 <= t.day <= DaysIn(t.year, t.month)
    && 0 <= t.hour < 24
    && 0 <= t.minute < 60
    && 0 <= t.second < 60
  }

  type Timestamp = t: Moment | Valid(t) witness Moment(1970, 1, 1, 0, 0, 0)

  /** time.Time.Before for two moments of the same zone: lexicographic on the calendar fields. */
  predicate Before(a: Timestamp, b: Timestamp) {
    || a.year < b.year
    || (a.year == b.year && a.month < b.month)
    || (a.year == b.year && a.month == b.month && a.day < b.day)
    || (a.year == b.year && a.month == b.month && a.day == b.day && a.hour < b.hour)
    || (a.year == b.year && a.month == b.month && a.day == b.day && a.hour == b.hour
        && a.minute < b.minute)
    || (a.year == b.year && a.month == b.month && a.day == b.day && a.hour == b.hour
        && a.minute == b.minute && a.second < b.second)
  }

  /** time.Time.After: a is after b exactly when b is before a. */
  predicate After(a: Timestamp, b: Timestamp) {
    Before(b, a)
  }

  /** An independent numeric reading of a moment: its fields as digits of a mixed-radix number. */
  function Ordinal(t: Timestamp): int {
    ((((t.year * 13 + t.month) * 32 + t.day) * 24 + t.hour) * 60 + t.minute) * 60 + t.second
  }

  lemma MulGap(x: int, d: int, base: int)
    requires 1 <= d && 0 < base
    ensures (x + d) * base >= x * base + base
  {
    assert (x + d) * base == x * base + d * base;
    assert d * base == base + (d - 1) * base;
    assert (d - 1) * base >= 0;
  }

  lemma RadixStep(x1: int, r1: int, x2: int, r2: int, base: int)
    requires 0 <= r1 < base && 0 <= r2 < base
    ensures x1 * base + r1 < x2 * base + r2 <==> x1 < x2 || (x1 == x2 && r1 < r2)
    ensures x1 * base + r1 == x2 * base + r2 <==> x1 == x2 && r1 == r2
  {
    if x1 < x2 {
      MulGap(x1, x2 - x1, base);
    } else if x1 > x2 {
      MulGap(x2, x1 - x2, base);
    }
  }

  /** Before is exactly "has the smaller ordinal", so it is a strict total order on timestamps. */
  lemma BeforeIsOrdinalOrder(a: Timestamp, b: Timestamp)
    ensures Before(a, b) <==> Ordinal(a) < Ordinal(b)
    ensures a == b <==> Ordinal(a) == Ordinal(b)
  {
    var a1, b1 := a.year * 13 + a.month, b.year * 13 + b.month;
    RadixStep(a.year, a.month, b.year, b.month, 13);
    var a2, b2 := a1 * 32 + a.day, b1 * 32 + b.day;
    RadixStep(a1, a.day, b1, b.day, 32);
    var a3, b3 := a2 * 24 + a.hour, b2 * 24 + b.hour;
    RadixStep(a2, a.hour, b2, b.hour, 24);
    var a4, b4 := a3 * 60 + a.minute, b3 * 60 + b.minute;
    RadixStep(a3, a.minute, b3, b.minute, 60);
    RadixStep(a4, a.second, b4, b.second, 60);
    assert Ordinal(a) == a4 * 60 + a.second && Ordinal(b) == b4 * 60 + b.second;
  }

  /** The --from/--to filter: not before `from` (when given) and not after `to` (when given). */
  predicate InRange(t: Timestamp, from: Option<Timestamp>, to: Option<Timestamp>) {
    && (from.None? || !Before(t, from.value))
    && (to.None? || !After(t, to.value))
  }

  /** Both bounds are optional and inclusive: from <= t <= to on the ordinal. */
  lemma InRangeIsInclusive(t: Timestamp, from: Option<Timestamp>, to: Option<Timestamp>)
    ensures InRange(t, from, to) <==>
      && (from.None? || Ordinal(from.value) <= Ordinal(t))
      && (to.None? || Ordinal(t) <= Ordinal(to.value))
  {
    if from.Some? {
      BeforeIsOrdinalOrder(t, from.value);
    }
    if to.Some? {
      BeforeIsOrdinalOrder(to.value, t);
    }
  }

  /** A timestamp equal to either bound is kept. */
  lemma BoundsAreKept(from: Timestamp, to: Timestamp)
    requires !Before(to, from)
    ensures InRange(from, Some(from), Some(to))
    ensures InRange(to, Some(from), Some(to))
  {
    BeforeIsOrdinalOrder(from, from);
    BeforeIsOrdinalOrder(to, to);
  }

  /** The year-2023 window: mid-year is kept, the last second of 2022 is not, the first second is. */
  lemma Year2023Window()
    ensures var from, to := Moment(2023, 1, 1, 0, 0, 0), Moment(2023, 12, 31, 23, 59, 59);
      && InRange(Moment(2023, 6, 15, 10, 0, 0), Some(from), Some(to))
      && !InRange(Moment(2022, 12, 31, 23, 59, 59), Some(from), Some(to))
      && InRange(from, Some(from), Some(to))
  {
  }
}
