/** The mutating and lookup operations of the event store: `add_event`,
    `edit_event`, `delete_event`, `delete_events_by_date` and `show_event`.
    Each takes the loaded store as a value and returns what would be saved
    (if anything) together with its result or error. */
module Engine {
  import opened Wrappers
  import opened Calendar
  import opened Events
  import opened ShortIds
  import opened Conflicts
  import opened Ordering
  import Seqs
  import Text

  /** The ways an operation fails. The source raises `ValueError` (or the
      parser's subclass of it) for all but the last. */
  datatype Error =
    | MissingField               // "title, date, and time are required"
    | NonPositiveDuration        // "duration must be positive"
    | Unparseable                // the date parser rejected the text
    | Conflict(with: seq<Event>) // the events the new times overlap
    | IdSourceExhausted          // the draws supplied held no unused identifier

  /** One operation's effect: `saved` is the sequence handed to
      `save_events`, `None` when nothing is saved. */
  datatype Step<T> = Step(saved: Option<seq<Event>>, out: Result<T, Error>)

  /** Each record occurs once and no two records share an identifier. */
  ghost predicate UniqueIds(s: seq<Event>) {
    && (forall x :: multiset(s)[x] <= 1)
    && (forall x, y :: x in s && y in s && x.id == y.id ==> x == y)
  }

  /** The position of the first event with identifier `id`, the one the
      source's `for event in events: if event["id"] == event_id` loops stop at. */
  function IndexOfId(s: seq<Event>, id: string): (r: Option<nat>)
    ensures r.None? <==> id !in IdsOf(s)
    ensures r.Some? ==> r.value < |s| && s[r.value].id == id
    ensures r.Some? ==> forall j :: 0 <= j < r.value ==> s[j].id != id
  {
    if |s| == 0 then None
    else if s[0].id == id then Some(0)
    else
      var r := IndexOfId(s[1..], id);
      assert IdsOf(s) == {s[0].id} + IdsOf(s[1..]) by {
        assert s == [s[0]] + s[1..];
      }
      if r.None? then None else Some(r.value + 1)
  }

  // ---------------------------------------------------------------- add

  /** `add_event`. `draws` is the random source: the first draw is the
      proposed identifier, the rest are the redraws of `_ensure_unique_id`. */
  function AddEvent(store: seq<Event>, title: string, date: string, time: string, duration: int,
                    location: Option<string>, description: Option<string>, force: bool,
                    parse: DateParser, draws: seq<Draw>, now: Stamp): (step: Step<Event>)
    // every failure leaves the store as it was
    ensures step.out.Failure? ==> step.saved.None?
    // validation comes first and does not depend on the store
    ensures step.out.Failure? && step.out.error.MissingField? <==> title == "" || date == "" || time == ""
    ensures step.out.Failure? && step.out.error.NonPositiveDuration? <==>
      title != "" && date != "" && time != "" && duration <= 0
    ensures step.out.Failure? && step.out.error.Unparseable? <==>
      title != "" && date != "" && time != "" && duration > 0 &&
      parse(Typed(date), Some(TypedTime(time))).None?
    ensures step.out.Failure? && step.out.error.IdSourceExhausted? <==>
      title != "" && date != "" && time != "" && duration > 0 &&
      parse(Typed(date), Some(TypedTime(time))).Some? &&
      forall k :: 0 <= k < |draws| ==> ShortId(draws[k]) in IdsOf(store)
    // with `force` no conflict is ever reported
    ensures step.out.Failure? && step.out.error.Conflict? ==>
      && !force
      && parse(Typed(date), Some(TypedTime(time))).Some?
      && var lo := AbsoluteMinute(parse(Typed(date), Some(TypedTime(time))).value);
      && step.out.error.with != []
      && Seqs.Selects(step.out.error.with, store, SpanClashes(lo, lo + duration))
      && forall e :: e in step.out.error.with <==> e in store && OverlapsSpan(lo, lo + duration, e)
    ensures step.out.Success? ==>
      var ev := step.out.value;
      && step.saved.Some?
      && step.saved == Some(SortByStart(store + [ev]))
      && multiset(step.saved.value) == multiset(store) + multiset{ev}
      && Sorted(step.saved.value)
      && DrawId(store, draws) == Some(ev.id)
      && IsShortId(ev.id) && ev.id !in IdsOf(store)
      && ev.title == Text.Strip(title)
      && parse(Typed(date), Some(TypedTime(time))) == Some(Instant(ev.date, ev.startTime))
      && ev.duration == duration > 0
      && ev.location == Tidy(location) && ev.description == Tidy(description)
      && ev.created == Some(now) && ev.updated == Some(now)
      && (!force ==> forall e :: e in store ==> !Overlaps(ev, e))
  {
    if title == "" || date == "" || time == "" then Step(None, Failure(MissingField))
    else if duration <= 0 then Step(None, Failure(NonPositiveDuration))
    else match parse(Typed(date), Some(TypedTime(time)))
      case None => Step(None, Failure(Unparseable))
      case Some(at) => Admit(store, title, at, duration, location, description, force, draws, now)
  }

  /** The part of `add_event` after validation: draw an identifier, build
      the record starting at `at`, and schedule it. */
  function Admit(store: seq<Event>, title: string, at: Instant, duration: int,
                 location: Option<string>, description: Option<string>, force: bool,
                 draws: seq<Draw>, now: Stamp): (step: Step<Event>)
    ensures step.out.Failure? ==> step.saved.None?
    ensures step.out.Failure? ==> step.out.error.IdSourceExhausted? || step.out.error.Conflict?
    ensures step.out.Failure? && step.out.error.IdSourceExhausted? <==>
      forall k :: 0 <= k < |draws| ==> ShortId(draws[k]) in IdsOf(store)
    ensures step.out.Failure? && step.out.error.Conflict? ==>
      && !force
      && var lo := AbsoluteMinute(at);
      && step.out.error.with != []
      && Seqs.Selects(step.out.error.with, store, SpanClashes(lo, lo + duration))
      && forall e :: e in step.out.error.with <==> e in store && OverlapsSpan(lo, lo + duration, e)
    ensures step.out.Success? ==>
      var ev := step.out.value;
      && step.saved == Some(SortByStart(store + [ev]))
      && multiset(step.saved.value) == multiset(store) + multiset{ev}
      && Sorted(step.saved.value)
      && DrawId(store, draws) == Some(ev.id)
      && IsShortId(ev.id) && ev.id !in IdsOf(store)
      && ev.title == Text.Strip(title)
      && at == Instant(ev.date, ev.startTime)
      && ev.duration == duration
      && ev.location == Tidy(location) && ev.description == Tidy(description)
      && ev.created == Some(now) && ev.updated == Some(now)
      && (!force ==> forall e :: e in store ==> !Overlaps(ev, e))
  {
    match DrawId(store, draws)
    case None => Step(None, Failure(IdSourceExhausted))
    case Some(id) =>
      var ev := Event(id, Text.Strip(title), at.day, at.minute, duration,
                      Tidy(location), Tidy(description), Some(now), Some(now));
      Schedule(store, ev, force)
  }

  /** `id` is drawn by the first draw whose identifier no stored event uses. */
  ghost predicate FirstFree(store: seq<Event>, draws: seq<Draw>, id: string) {
    exists k :: 0 <= k < |draws| && id == ShortId(draws[k]) &&
      forall j :: 0 <= j < k ==> ShortId(draws[j]) in IdsOf(store)
  }

  /** The identifier `add_event` gives a new event: the first draw, or the
      first unused redraw when it is taken. */
  function DrawId(store: seq<Event>, draws: seq<Draw>): (id: Option<string>)
    ensures id.None? <==> forall k :: 0 <= k < |draws| ==> ShortId(draws[k]) in IdsOf(store)
    ensures id.Some? ==> IsShortId(id.value) && id.value !in IdsOf(store)
    ensures id.Some? ==> FirstFree(store, draws, id.value)
  {
    if |draws| == 0 then None
    else
      var id := EnsureUniqueId(store, ShortId(draws[0]), draws[1..]);
      assert id.None? <==> forall k :: 0 <= k < |draws| ==> ShortId(draws[k]) in IdsOf(store) by {
        assert forall k :: 0 < k < |draws| ==> draws[k] == draws[1..][k - 1];
      }
      if id.Some? && id.value != ShortId(draws[0]) then
        // a redraw was taken, so the proposed id was in use
        var k :| 0 <= k < |draws| - 1 && id.value == ShortId(draws[1..][k]) &&
          forall j :: 0 <= j < k ==> ShortId(draws[1..][j]) in IdsOf(store);
        assert id.value == ShortId(draws[k + 1]);
        assert forall j :: 0 <= j < k + 1 ==> ShortId(draws[j]) in IdsOf(store) by {
          forall j | 0 < j < k + 1
            ensures ShortId(draws[j]) in IdsOf(store)
          {
            assert draws[j] == draws[1..][j - 1];
          }
        }
        assert FirstFree(store, draws, id.value);
        id
      else
        assert id.Some? ==> ShortId(draws[0]) == id.value && FirstFree(store, draws, id.value);
        id
  }

  /** The last part of `add_event`: unless forced, refuse an event that
      overlaps a stored one; otherwise append it and re-sort. */
  function Schedule(store: seq<Event>, ev: Event, force: bool): (step: Step<Event>)
    ensures step.out.Failure? ==>
      && step.saved.None? && !force && step.out.error.Conflict?
      && step.out.error.with == CheckConflicts(store, ev, None)
      && step.out.error.with != []
      && Seqs.IsSubsequence(step.out.error.with, store)
      && forall e :: e in step.out.error.with <==> e in store && Overlaps(ev, e)
    ensures step.out.Success? ==>
      && step.out.value == ev
      && step.saved == Some(SortByStart(store + [ev]))
      && multiset(step.saved.value) == multiset(store) + multiset{ev}
      && Sorted(step.saved.value)
      && (!force ==> forall e :: e in store ==> !Overlaps(ev, e))
  {
    var conflicts := if force then [] else CheckConflicts(store, ev, None);
    if conflicts != [] then
      Step(None, Failure(Conflict(conflicts)))
    else
      assert multiset(store + [ev]) == multiset(store) + multiset{ev};
      Step(Some(SortByStart(store + [ev])), Success(ev))
  }

  // --------------------------------------------------------------- edit

  /** The arguments of `edit_event`; `None` is an argument not given. */
  datatype Changes = Changes(
    title: Option<string>,
    date: Option<string>,
    time: Option<string>,
    duration: Option<int>,
    location: Option<string>,
    description: Option<string>)

  const NoChanges: Changes := Changes(None, None, None, None, None, None)

  /** Python truthiness of an optional string argument. */
  predicate Given(arg: Option<string>) {
    arg.Some? && arg.value != ""
  }

  /** The date text the edit parses: the new date, or when it is absent or
      empty, the stored one. */
  function DateArg(cur: Event, ch: Changes): DateText {
    if Given(ch.date) then Typed(ch.date.value) else StoredDate(cur.date)
  }

  /** The time text the edit parses: the new time, or the stored one. */
  function TimeArg(cur: Event, ch: Changes): TimeText {
    if Given(ch.time) then TypedTime(ch.time.value) else StoredTime(cur.startTime)
  }

  /** `ev` is `cur` with the changes applied: an absent argument leaves its
      field alone, a given one sets it (the title stripped, the location and
      description tidied, the start parsed with the stored date or time
      standing in for an empty or absent one). Identity and stamps are kept. */
  ghost predicate FollowsChanges(cur: Event, ch: Changes, parse: DateParser, ev: Event) {
    && ev.id == cur.id && ev.created == cur.created && ev.updated == cur.updated
    && (ch.title.None? ==> ev.title == cur.title)
    && (ch.title.Some? ==> ev.title == Text.Strip(ch.title.value))
    && (ch.date.None? && ch.time.None? ==> ev.date == cur.date && ev.startTime == cur.startTime)
    && (ch.date.Some? || ch.time.Some? ==>
          parse(DateArg(cur, ch), Some(TimeArg(cur, ch))) == Some(Instant(ev.date, ev.startTime)))
    && (ch.duration.None? ==> ev.duration == cur.duration)
    && (ch.duration.Some? ==> ev.duration == ch.duration.value > 0)
    && (ch.location.None? ==> ev.location == cur.location)
    && (ch.location.Some? ==> ev.location == Tidy(ch.location))
    && (ch.description.None? ==> ev.description == cur.description)
    && (ch.description.Some? ==> ev.description == Tidy(ch.description))
  }

  /** The date and time the edit would parse when a new date or time is
      given, `None` when the parser cannot read them. */
  function NewStart(cur: Event, ch: Changes, parse: DateParser): Option<Instant> {
    parse(DateArg(cur, ch), Some(TimeArg(cur, ch)))
  }

  /** The record `edit_event` builds from the stored one before checking
      for conflicts: fields are overwritten in source order, and the
      parse and duration checks can fail on the way. */
  function ApplyChanges(cur: Event, ch: Changes, parse: DateParser): (r: Result<Event, Error>)
    ensures r == Failure(Unparseable) <==> (ch.date.Some? || ch.time.Some?) && NewStart(cur, ch, parse).None?
    ensures r == Failure(NonPositiveDuration) <==>
      r != Failure(Unparseable) && ch.duration.Some? && ch.duration.value <= 0
    ensures r.Failure? ==> r.error == Unparseable || r.error == NonPositiveDuration
    ensures r.Success? ==> FollowsChanges(cur, ch, parse, r.value)
  {
    var titled := if ch.title.Some? then cur.(title := Text.Strip(ch.title.value)) else cur;
    var timed :=
      if ch.date.Some? || ch.time.Some? then
        match NewStart(cur, ch, parse)
        case None => Failure(Unparseable)
        case Some(at) => Success(titled.(date := at.day, startTime := at.minute))
      else Success(titled);
    if timed.Failure? then timed
    else if ch.duration.Some? && ch.duration.value <= 0 then Failure(NonPositiveDuration)
    else
      var ev := timed.value;
      var ev := if ch.duration.Some? then ev.(duration := ch.duration.value) else ev;
      var ev := if ch.location.Some? then ev.(location := Tidy(ch.location)) else ev;
      var ev := if ch.description.Some? then ev.(description := Tidy(ch.description)) else ev;
      Success(ev)
  }

  /** `edit_event`. `Success(None)` is "not found". */
  function EditEvent(store: seq<Event>, id: string, ch: Changes, parse: DateParser, now: Stamp)
    : (step: Step<Option<Event>>)
    ensures step.out.Failure? ==> step.saved.None?
    ensures step.out.Success? && step.out.value.None? <==> id !in IdsOf(store)
    ensures step.out.Success? && step.out.value.None? ==> step.saved.None?
    ensures step.out.Failure? && !step.out.error.Conflict? ==>
      id in IdsOf(store) && ApplyChanges(store[IndexOfId(store, id).value], ch, parse) == Failure(step.out.error)
    // a conflict is reported exactly when the detector, skipping the edited
    // identifier, finds stored events overlapping the changed record, and
    // it carries exactly those events
    ensures step.out.Failure? && step.out.error.Conflict? ==>
      && id in IdsOf(store)
      && var upd := ApplyChanges(store[IndexOfId(store, id).value], ch, parse);
      && upd.Success?
      && step.out.error.with == CheckConflicts(store, upd.value, Some(id))
      && step.out.error.with != []
    ensures id in IdsOf(store) ==>
      var upd := ApplyChanges(store[IndexOfId(store, id).value], ch, parse);
      upd.Success? && CheckConflicts(store, upd.value, Some(id)) == [] ==>
        step.out.Success? && step.out.value.Some?
    // and the converse: whatever the detector reports, the empty identifier's
    // own record included, makes the edit fail
    ensures id in IdsOf(store) ==>
      var upd := ApplyChanges(store[IndexOfId(store, id).value], ch, parse);
      upd.Success? && CheckConflicts(store, upd.value, Some(id)) != [] ==>
        step.out.Failure? && step.out.error.Conflict?
    ensures step.out.Success? && step.out.value.Some? ==>
      var cur := store[IndexOfId(store, id).value];
      var ev := step.out.value.value;
      && ev.id == id && ev.created == cur.created && ev.updated == Some(now)
      && FollowsChanges(cur, ch, parse, ev.(updated := cur.updated))
      // no other event with a different identifier overlaps the result
      && (forall e :: e in store && e.id != id ==> !Overlaps(ev, e))
      // the event is replaced in place and the store re-sorted
      && step.saved == Some(SortByStart(store[IndexOfId(store, id).value := ev]))
      && multiset(step.saved.value) == multiset(store) - multiset{cur} + multiset{ev}
      && Sorted(step.saved.value)
  {
    match IndexOfId(store, id)
    case None => Step(None, Success(None))
    case Some(i) =>
      match ApplyChanges(store[i], ch, parse)
      case Failure(err) => Step(None, Failure(err))
      case Success(upd) =>
        var conflicts := CheckConflicts(store, upd, Some(id));
        if conflicts != [] then
          Step(None, Failure(Conflict(conflicts)))
        else
          assert upd.(updated := Some(now)).(updated := store[i].updated) == upd;
          NoClashNoOverlap(store, upd, id, now);
          Commit(store, i, upd.(updated := Some(now)))
  }

  /** An edited record the detector reports nothing against overlaps no
      stored event of another identifier, stamped or not. */
  lemma NoClashNoOverlap(store: seq<Event>, upd: Event, id: string, now: Stamp)
    requires CheckConflicts(store, upd, Some(id)) == []
    ensures forall e :: e in store && e.id != id ==> !Overlaps(upd.(updated := Some(now)), e)
  {
    forall e | e in store && e.id != id
      ensures !Overlaps(upd, e)
    {
      assert e !in CheckConflicts(store, upd, Some(id));
    }
  }

  /** Saves `ev` in place of the event at `i` and re-sorts. */
  function Commit(store: seq<Event>, i: nat, ev: Event): (step: Step<Option<Event>>)
    requires i < |store|
    ensures step.out == Success(Some(ev))
    ensures step.saved == Some(SortByStart(store[i := ev]))
    ensures multiset(step.saved.value) == multiset(store) - multiset{store[i]} + multiset{ev}
    ensures Sorted(step.saved.value)
  {
    ReplaceMultiset(store, i, ev);
    Step(Some(SortByStart(store[i := ev])), Success(Some(ev)))
  }

  lemma ReplaceMultiset(s: seq<Event>, i: nat, x: Event)
    requires i < |s|
    ensures multiset(s[i := x]) == multiset(s) - multiset{s[i]} + multiset{x}
  {
    assert s == s[..i] + [s[i]] + s[i + 1..];
    assert s[i := x] == s[..i] + [x] + s[i + 1..];
  }

  // ------------------------------------------------------------- delete

  /** `delete_event`: removes the first event with that identifier and
      returns it; `Success(None)` is "not found" and saves nothing. */
  function DeleteEvent(store: seq<Event>, id: string): (step: Step<Option<Event>>)
    ensures step.out.Success?
    ensures step.out.value.None? <==> id !in IdsOf(store)
    ensures step.out.value.None? ==> step.saved.None?
    ensures step.out.value.Some? ==>
      var i := IndexOfId(store, id).value;
      var ev := step.out.value.value;
      && ev == store[i] && ev.id == id
      && step.saved == Some(store[..i] + store[i + 1..])
      && multiset(step.saved.value) + multiset{ev} == multiset(store)
      && Seqs.IsSubsequence(step.saved.value, store)
  {
    match IndexOfId(store, id)
    case None => Step(None, Success(None))
    case Some(i) =>
      assert store == store[..i] + [store[i]] + store[i + 1..];
      Seqs.RemoveAtIsSubsequence(store, i);
      Step(Some(store[..i] + store[i + 1..]), Success(Some(store[i])))
  }

  /** The events dated `d`. */
  function OnDay(d: Day): Event -> bool {
    (e: Event) => e.date == d
  }

  /** The events not dated `d`. */
  function OffDay(d: Day): Event -> bool {
    (e: Event) => e.date != d
  }

  /** `delete_events_by_date`: splits the store into the events on the
      parsed date, which are returned, and the rest, which are saved, but
      only when something was removed. */
  function DeleteEventsByDate(store: seq<Event>, date: string, parse: DateParser)
    : (step: Step<seq<Event>>)
    ensures step.out.Failure? <==> parse(Typed(date), None).None?
    ensures step.out.Failure? ==> step.out.error == Unparseable && step.saved.None?
    ensures step.out.Success? ==>
      var d := parse(Typed(date), None).value.day;
      && Seqs.Selects(step.out.value, store, OnDay(d))
      && (step.saved.Some? <==> step.out.value != [])
      && (step.saved.Some? ==> Seqs.Selects(step.saved.value, store, OffDay(d)))
      && multiset(step.out.value) + multiset(step.saved.GetOr(store)) == multiset(store)
  {
    match parse(Typed(date), None)
    case None => Step(None, Failure(Unparseable))
    case Some(at) =>
      var deleted := Seqs.Filter(OnDay(at.day), store);
      var remaining := Seqs.Filter(OffDay(at.day), store);
      Seqs.FilterSelects(OnDay(at.day), store);
      Seqs.FilterSelects(OffDay(at.day), store);
      assert deleted == [] ==> multiset(deleted) + multiset(store) == multiset(store);
      Step(if deleted != [] then Some(remaining) else None, Success(deleted))
  }

  // --------------------------------------------------------------- show

  /** What `show_event` returns: the record, its end time of day, and the
      other events it overlaps. */
  datatype Shown = Shown(event: Event, endTime: Minute, conflicts: seq<Event>)

  /** `show_event`. Conflicts are reported for information, never as an error. */
  function ShowEvent(store: seq<Event>, id: string): (r: Option<Shown>)
    ensures r.None? <==> id !in IdsOf(store)
    ensures r.Some? ==>
      var ev := r.value.event;
      && ev == store[IndexOfId(store, id).value]
      && (End(ev) - r.value.endTime) % MinutesPerDay == 0
      && r.value.conflicts == CheckConflicts(store, ev, Some(id))
      && Seqs.IsSubsequence(r.value.conflicts, store)
      && forall e :: e in r.value.conflicts <==> e in store && !Skipped(Some(id), e) && Overlaps(ev, e)
  {
    match IndexOfId(store, id)
    case None => None
    case Some(i) =>
      var ev := store[i];
      Some(Shown(ev, EndInstant(ev).minute, CheckConflicts(store, ev, Some(id))))
  }
}
