/** Calendar values. A date is a day number and a time is a minute of the
    day, so the canonical texts "YYYY-MM-DD" and "HH:MM" the source stores
    and compares become integers with the same order. */
module Calendar {
  import opened Wrappers

  /** Minutes in one day. */
  const MinutesPerDay: int := 1440

  /** A calendar date as a proleptic Gregorian ordinal, Python's
      `date.toordinal()`: 0001-01-01 is day 1. Comparing two canonical
      "YYYY-MM-DD" texts compares their day numbers. */
  type Day = int

  /** A wall-clock time with minute precision, "HH:MM" as minutes since midnight. */
  type Minute = m: int | 0 <= m < MinutesPerDay

  /** A date together with a time, what one successful parse produces. */
  datatype Instant = Instant(day: Day, minute: Minute)

  /** Minutes since the start of day 0; the order of instants in time. */
  function AbsoluteMinute(t: Instant): int {
    t.day * MinutesPerDay + t.minute
  }

  /** The instant `minutes` after the start of day 0, the inverse of
      `AbsoluteMinute`. This is how `datetime + timedelta(minutes=...)`
      rolls over midnight. */
  function FromAbsolute(minutes: int): (t: Instant)
    ensures AbsoluteMinute(t) == minutes
  {
    Instant(minutes / MinutesPerDay, minutes % MinutesPerDay)
  }

  lemma {:induction false} AbsoluteRoundTrip(t: Instant)
    ensures FromAbsolute(AbsoluteMinute(t)) == t
  {
    var m := AbsoluteMinute(t);
    assert m == t.day * MinutesPerDay + t.minute;
    DivModUnique(m, t.day, t.minute);
  }

  lemma DivModUnique(m: int, q: int, r: int)
    requires 0 <= r < MinutesPerDay && m == q * MinutesPerDay + r
    ensures m / MinutesPerDay == q && m % MinutesPerDay == r
  {
  }

  /** Python's `date.weekday()`: Monday is 0 and Sunday is 6. Day 1 was a Monday. */
  function Weekday(d: Day): (w: int)
    ensures 0 <= w < 7
    // `d` lies `w` days after a Monday, day 1 being one
    ensures (d - w) % 7 == 1
  {
    (d + 6) % 7
  }

  /** The Sunday ending the week of `today`: `today + (6 - weekday)` days. */
  function WeekEnd(today: Day): Day {
    today + (6 - Weekday(today))
  }

  /** The Monday starting the week of `today`: six days before its Sunday. */
  function WeekStart(today: Day): Day {
    WeekEnd(today) - 6
  }

  /** The week used by the list and agenda views runs Monday to Sunday and
      contains the day it is computed from. */
  lemma WeekBounds(today: Day)
    ensures Weekday(WeekStart(today)) == 0 && Weekday(WeekEnd(today)) == 6
    ensures WeekStart(today) <= today <= WeekEnd(today)
    ensures WeekEnd(today) - WeekStart(today) == 6
  {
  }

  /** Text handed to the date parser. `Typed` is what the user entered;
      `StoredDate` and `StoredTime` stand for the canonical text of a
      value already in the store ("YYYY-MM-DD" and "HH:MM"), which the edit
      operation uses as a fallback. */
  datatype DateText = Typed(text: string) | StoredDate(day: Day)
  datatype TimeText = TypedTime(text: string) | StoredTime(minute: Minute)

  /** The loose human date parser, an oracle: given a date text and, when
      one is supplied, a time text (which the source joins to the date with
      a space), it yields the parsed date and time or fails. */
  type DateParser = (DateText, Option<TimeText>) -> Option<Instant>

  /** The parser reads the canonical text of a stored date and time back as
      that same date and time. */
  ghost predicate ReadsBackStored(parse: DateParser) {
    forall d: Day, m: Minute :: parse(StoredDate(d), Some(StoredTime(m))) == Some(Instant(d, m))
  }
}
