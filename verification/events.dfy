/** The one entity of the engine, `Event`, with the times derived from it. */
module Events {
  import opened Wrappers
  import opened Calendar
  import Text

  /** A creation or update stamp, the text "YYYY-MM-DDTHH:MM:SS" of the
      wall clock when the operation ran. */
  type Stamp = string

  /** One stored record. The source's dictionary keys are `id`, `title`,
      `date`, `start_time`, `duration`, `location`, `description`,
      `created` and `updated`. */
  datatype Event = Event(
    id: string,
    title: string,
    date: Day,
    startTime: Minute,
    duration: int,
    location: Option<string>,
    description: Option<string>,
    created: Option<Stamp>,
    updated: Option<Stamp>)

  /** `get_start_datetime`, as minutes since the start of day 0. */
  function Start(e: Event): int {
    AbsoluteMinute(Instant(e.date, e.startTime))
  }

  /** `get_end_datetime`: start plus the duration in minutes. */
  function End(e: Event): int {
    Start(e) + e.duration
  }

  /** The end as a date and a time of day; an event may end on a later date
      than it starts. */
  function EndInstant(e: Event): (t: Instant)
    ensures AbsoluteMinute(t) == Start(e) + e.duration
    ensures e.duration >= 0 ==> t.day >= e.date
  {
    FromAbsolute(End(e))
  }

  /** An event of 90 minutes starting at 09:00 ends at 10:30 the same day,
      and one of 90 minutes starting at 23:30 ends at 01:00 the next day. */
  lemma EndExamples(e: Event)
    requires e.startTime == 9 * 60 && e.duration == 90
    ensures EndInstant(e) == Instant(e.date, 10 * 60 + 30)
    ensures EndInstant(e.(startTime := 23 * 60 + 30)) == Instant(e.date + 1, 60)
  {
    AbsoluteRoundTrip(Instant(e.date, 10 * 60 + 30));
    AbsoluteRoundTrip(Instant(e.date + 1, 60));
  }

  /** How the source cleans an optional location or description:
      `value.strip() if value else None`. */
  function Tidy(value: Option<string>): (r: Option<string>)
    ensures r.None? <==> (value.None? || value.value == "")
    ensures r.Some? ==> r.value == Text.Strip(value.value)
  {
    if value.Some? && value.value != "" then Some(Text.Strip(value.value)) else None
  }

  /** The identifiers in use in a store. */
  function IdsOf(events: seq<Event>): set<string> {
    set e | e in events :: e.id
  }
}
