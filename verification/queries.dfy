/** The read-only operations: `list_events`, `search_events` and
    `get_agenda`. None of them saves anything, so each returns only its
    result. */
module Queries {
  import opened Wrappers
  import opened Calendar
  import opened Events
  import opened Engine
  import Ordering
  import Seqs
  import Text

  // ---------------------------------------------------------------- list

  /** The events of the Monday-to-Sunday week holding `today`. */
  function InWeek(today: Day): Event -> bool {
    (e: Event) => WeekStart(today) <= e.date <= WeekEnd(today)
  }

  /** The events dated within the bounds given, each bound inclusive. */
  function Within(lo: Option<Day>, hi: Option<Day>): Event -> bool {
    (e: Event) => (lo.None? || lo.value <= e.date) && (hi.None? || e.date <= hi.value)
  }

  /** A bound is given but the parser cannot read it. */
  predicate Rejects(arg: Option<string>, parse: DateParser) {
    Given(arg) && parse(Typed(arg.value), None).None?
  }

  /** The day a given bound parses to. */
  function Bound(arg: Option<string>, parse: DateParser): Option<Day> {
    if Given(arg) && parse(Typed(arg.value), None).Some? then Some(parse(Typed(arg.value), None).value.day)
    else None
  }

  /** The `from_date` filter followed by the `to_date` filter, each applied
      only when its bound is given. */
  function RangeFilter(store: seq<Event>, lo: Option<Day>, hi: Option<Day>): (r: seq<Event>)
    ensures Seqs.Selects(r, store, Within(lo, hi))
  {
    var atLeast := if lo.Some? then Seqs.Filter(Within(lo, None), store) else store;
    var r := if hi.Some? then Seqs.Filter(Within(None, hi), atLeast) else atLeast;
    if lo.Some? && hi.Some? then
      Seqs.FilterFilter(Within(lo, None), Within(None, hi), Within(lo, hi), store);
      Seqs.FilterSelects(Within(lo, hi), store);
      r
    else if lo.Some? || hi.Some? then
      Seqs.FilterSelects(Within(lo, hi), store);
      r
    else
      Seqs.FilterSelects(Within(lo, hi), store);
      assert forall x :: Within(lo, hi)(x);
      SelectAll(store, Within(lo, hi));
      r
  }

  /** A predicate every element meets selects the whole sequence. */
  lemma SelectAll(s: seq<Event>, p: Event -> bool)
    requires forall x :: p(x)
    ensures Seqs.Selects(s, s, p)
  {
    Seqs.SubsequenceReflexive(s);
  }

  /** `list_events`. `today` wins over `week`, which wins over the date
      range; with none of them only events from `now` on are listed. */
  function ListEvents(store: seq<Event>, from: Option<string>, to: Option<string>, today: bool, week: bool,
                      now: Day, parse: DateParser): (r: Result<seq<Event>, Error>)
    ensures r.Failure? ==> r.error == Unparseable
    ensures today ==> r.Success? && Seqs.Selects(r.value, store, OnDay(now))
    ensures !today && week ==> r.Success? && Seqs.Selects(r.value, store, InWeek(now))
    ensures !today && !week ==> (r.Failure? <==> Rejects(from, parse) || Rejects(to, parse))
    ensures !today && !week && (Given(from) || Given(to)) && r.Success? ==>
      Seqs.Selects(r.value, store, Within(Bound(from, parse), Bound(to, parse)))
    ensures !today && !week && !Given(from) && !Given(to) ==>
      r.Success? && Seqs.Selects(r.value, store, Within(Some(now), None))
  {
    if today then
      Seqs.FilterSelects(OnDay(now), store);
      Success(Seqs.Filter(OnDay(now), store))
    else if week then
      Seqs.FilterSelects(InWeek(now), store);
      Success(Seqs.Filter(InWeek(now), store))
    else if Rejects(from, parse) || Rejects(to, parse) then
      Failure(Unparseable)
    else
      var ranged := RangeFilter(store, Bound(from, parse), Bound(to, parse));
      if !Given(from) && !Given(to) then
        Seqs.SelectsUnique(ranged, store, Within(None, None));
        SelectAll(store, Within(None, None));
        Seqs.SelectsUnique(store, store, Within(None, None));
        Seqs.FilterSelects(Within(Some(now), None), store);
        Success(Seqs.Filter(Within(Some(now), None), ranged))
      else
        Success(ranged)
  }

  /** A selection from a sorted store is sorted. */
  lemma SelectionKeepsOrder(r: seq<Event>, store: seq<Event>, p: Event -> bool)
    requires Seqs.Selects(r, store, p) && Ordering.Sorted(store)
    ensures Ordering.Sorted(r)
  {
    Ordering.SubsequenceKeepsSorted(r, store);
  }

  /** Listing a sorted store lists in (date, start time) order. */
  lemma {:induction false} ListKeepsOrder(store: seq<Event>, from: Option<string>, to: Option<string>,
                                          today: bool, week: bool, now: Day, parse: DateParser)
    requires Ordering.Sorted(store)
    requires ListEvents(store, from, to, today, week, now, parse).Success?
    ensures Ordering.Sorted(ListEvents(store, from, to, today, week, now, parse).value)
  {
    var r := ListEvents(store, from, to, today, week, now, parse).value;
    if today {
      SelectionKeepsOrder(r, store, OnDay(now));
    } else if week {
      SelectionKeepsOrder(r, store, InWeek(now));
    } else if Given(from) || Given(to) {
      SelectionKeepsOrder(r, store, Within(Bound(from, parse), Bound(to, parse)));
    } else {
      SelectionKeepsOrder(r, store, Within(Some(now), None));
    }
  }

  /** With no filter, a store holding only past events lists nothing. */
  lemma {:induction false} DefaultHidesPast(store: seq<Event>, now: Day, parse: DateParser)
    requires forall e :: e in store ==> e.date < now
    ensures ListEvents(store, None, None, false, false, now, parse) == Success([])
  {
    var r := ListEvents(store, None, None, false, false, now, parse).value;
    Seqs.SelectsUnique(r, store, Within(Some(now), None));
    Seqs.FilterNone(Within(Some(now), None), store);
  }

  /** Today's listing is the week's listing cut down to today. */
  lemma {:induction false} TodayWithinWeek(store: seq<Event>, now: Day, parse: DateParser)
    ensures ListEvents(store, None, None, true, false, now, parse).value ==
            Seqs.Filter(OnDay(now), ListEvents(store, None, None, false, true, now, parse).value)
  {
    WeekBounds(now);
    var day := ListEvents(store, None, None, true, false, now, parse).value;
    var week := ListEvents(store, None, None, false, true, now, parse).value;
    Seqs.SelectsUnique(day, store, OnDay(now));
    Seqs.SelectsUnique(week, store, InWeek(now));
    Seqs.FilterFilter(InWeek(now), OnDay(now), OnDay(now), store);
  }

  // -------------------------------------------------------------- search

  /** The text a query is matched against: the title alone, or the title,
      description and location joined by single spaces, a missing field
      counting as empty. */
  function SearchText(e: Event, titleOnly: bool): string {
    if titleOnly then e.title
    else e.title + " " + e.description.GetOr("") + " " + e.location.GetOr("")
  }

  /** The events whose lower-cased search text contains `q`. */
  function Matches(q: string, titleOnly: bool): Event -> bool {
    (e: Event) => Text.Contains(Text.Lower(SearchText(e, titleOnly)), q)
  }

  /** `search_events`: a blank query finds nothing; otherwise the stripped,
      lower-cased query is looked for in each event's lower-cased text. */
  function SearchEvents(store: seq<Event>, query: string, titleOnly: bool): (r: seq<Event>)
    ensures Text.AllSpace(query) ==> r == []
    ensures !Text.AllSpace(query) ==>
      var q := Text.Lower(Text.Strip(query));
      && Seqs.Selects(r, store, Matches(q, titleOnly))
      && forall e :: e in r <==> e in store && Text.IsSubstring(q, Text.Lower(SearchText(e, titleOnly)))
  {
    if Text.Strip(query) == "" then []
    else
      var q := Text.Lower(Text.Strip(query));
      Seqs.FilterSelects(Matches(q, titleOnly), store);
      Seqs.Filter(Matches(q, titleOnly), store)
  }

  /** Lower-casing maps an occurrence to an occurrence at the same place. */
  lemma LowerKeepsOccurrence(needle: string, hay: string, i: int)
    requires Text.OccursAt(needle, hay, i)
    ensures Text.OccursAt(Text.Lower(needle), Text.Lower(hay), i)
  {
    assert Text.Lower(hay)[i..i + |needle|] == Text.Lower(needle) by {
      forall k | 0 <= k < |needle|
        ensures Text.Lower(hay)[i..i + |needle|][k] == Text.Lower(needle)[k]
      {
        assert hay[i + k] == needle[k];
      }
    }
  }

  /** An occurrence in the lower-cased title is one in the lower-cased
      search text, whichever fields are searched. */
  lemma TitleOccursInSearchText(needle: string, e: Event, titleOnly: bool, i: int)
    requires Text.OccursAt(needle, Text.Lower(e.title), i)
    ensures Text.OccursAt(needle, Text.Lower(SearchText(e, titleOnly)), i)
  {
    if !titleOnly {
      var rest := " " + e.description.GetOr("") + " " + e.location.GetOr("");
      assert SearchText(e, false) == e.title + rest;
      Text.LowerConcat(e.title, rest);
      assert Text.Lower(SearchText(e, false))[i..i + |needle|] == Text.Lower(e.title)[i..i + |needle|];
    }
  }

  /** Searching ignores case: an event whose title contains the stripped
      query, in any mix of upper and lower case, is found. */
  lemma {:induction false} SearchIgnoresCase(store: seq<Event>, query: string, e: Event, titleOnly: bool)
    requires e in store && !Text.AllSpace(query)
    requires Text.IsSubstring(Text.Lower(Text.Strip(query)), Text.Lower(e.title))
    ensures e in SearchEvents(store, query, titleOnly)
  {
    var i :| Text.OccursAt(Text.Lower(Text.Strip(query)), Text.Lower(e.title), i);
    TitleOccursInSearchText(Text.Lower(Text.Strip(query)), e, titleOnly, i);
  }

  /** In particular an event whose title contains the stripped query
      verbatim is found. */
  lemma {:induction false} SearchFindsVerbatim(store: seq<Event>, query: string, e: Event, titleOnly: bool)
    requires e in store && !Text.AllSpace(query)
    requires Text.IsSubstring(Text.Strip(query), e.title)
    ensures e in SearchEvents(store, query, titleOnly)
  {
    var i :| Text.OccursAt(Text.Strip(query), e.title, i);
    LowerKeepsOccurrence(Text.Strip(query), e.title, i);
    SearchIgnoresCase(store, query, e, titleOnly);
  }

  /** The query "MEETING" finds an event titled "Team Meeting". */
  lemma {:induction false} SearchCaseExample(e: Event)
    requires e.title == "Team Meeting"
    ensures e in SearchEvents([e], "MEETING", true)
  {
    MeetingIsStripped();
    MeetingOccurs(e.title);
    SearchIgnoresCase([e], "MEETING", e, true);
  }

  lemma MeetingIsStripped()
    ensures Text.Strip("MEETING") == "MEETING" && !Text.AllSpace("MEETING")
  {
    var query := "MEETING";
    assert !Text.IsSpace(query[0]) && !Text.IsSpace(query[6]);
    Text.StrippedIsFixed(query);
  }

  lemma MeetingOccurs(title: string)
    requires title == "Team Meeting"
    ensures Text.OccursAt(Text.Lower("MEETING"), Text.Lower(title), 5)
  {
    var query := "MEETING";
    var lq, lt := Text.Lower(query), Text.Lower(title);
    forall k | 0 <= k < 7
      ensures lt[5..12][k] == lq[k]
    {
      assert Text.LowerChar(title[5 + k]) == Text.LowerChar(query[k]);
    }
  }

  /** A title-only search finds a subset of what a full search finds. */
  lemma {:induction false} TitleHitIsFullHit(store: seq<Event>, query: string, e: Event)
    ensures e in SearchEvents(store, query, true) ==> e in SearchEvents(store, query, false)
  {
    if e in SearchEvents(store, query, true) {
      var q := Text.Lower(Text.Strip(query));
      var i :| Text.OccursAt(q, Text.Lower(e.title), i);
      TitleOccursInSearchText(q, e, false, i);
    }
  }

  // -------------------------------------------------------------- agenda

  /** One entry of the week agenda's `events_by_date`. */
  datatype DayGroup = DayGroup(date: Day, events: seq<Event>)

  /** What `get_agenda` returns. */
  datatype Agenda =
    | DayAgenda(date: Day, events: seq<Event>, total: nat)
    | WeekAgenda(byDate: seq<DayGroup>, total: nat)

  function DatesOf(gs: seq<DayGroup>): set<Day> {
    set g | g in gs :: g.date
  }

  /** Each date has at most one group, as each key of a dictionary. */
  ghost predicate DistinctDates(gs: seq<DayGroup>) {
    forall i, j :: 0 <= i < j < |gs| ==> gs[i].date != gs[j].date
  }

  /** The events grouped under `d`, none if there is no group: `agenda.get(d, [])`. */
  function GroupOf(gs: seq<DayGroup>, d: Day): seq<Event> {
    if |gs| == 0 then []
    else if gs[0].date == d then gs[0].events
    else GroupOf(gs[1..], d)
  }

  /** The number of events over all groups. */
  function TotalSize(gs: seq<DayGroup>): nat {
    if |gs| == 0 then 0 else |gs[0].events| + TotalSize(gs[1..])
  }

  lemma {:induction false} NoGroupIsEmpty(gs: seq<DayGroup>, d: Day)
    requires d !in DatesOf(gs)
    ensures GroupOf(gs, d) == []
    decreases |gs|
  {
    if |gs| > 0 {
      assert gs[0] in gs;
      assert DatesOf(gs[1..]) <= DatesOf(gs) by {
        forall g | g in gs[1..]
          ensures g in gs
        {
        }
      }
      NoGroupIsEmpty(gs[1..], d);
    }
  }

  lemma DatesSplit(gs: seq<DayGroup>)
    requires |gs| > 0
    ensures DatesOf(gs) == {gs[0].date} + DatesOf(gs[1..])
    ensures DistinctDates(gs) ==> DistinctDates(gs[1..]) && gs[0].date !in DatesOf(gs[1..])
  {
    assert gs == [gs[0]] + gs[1..];
    if DistinctDates(gs) {
      forall g | g in gs[1..]
        ensures g.date != gs[0].date
      {
        var j :| 0 <= j < |gs[1..]| && gs[1..][j] == g;
        assert gs[j + 1] == g;
      }
    }
  }

  /** One step of the grouping loop: append `e` to the group of its date,
      opening a new group at the end when the date has none. */
  function Place(gs: seq<DayGroup>, e: Event): (r: seq<DayGroup>)
    ensures |r| == |gs| || |r| == |gs| + 1
    decreases |gs|
  {
    if |gs| == 0 then [DayGroup(e.date, [e])]
    else if gs[0].date == e.date then [gs[0].(events := gs[0].events + [e])] + gs[1..]
    else [gs[0]] + Place(gs[1..], e)
  }

  /** `r` is `gs` with `e` added to the group of its date and nothing
      else changed; dates stay distinct and groups non-empty. */
  ghost predicate Placed(gs: seq<DayGroup>, e: Event, r: seq<DayGroup>) {
    && DistinctDates(r)
    && DatesOf(r) == DatesOf(gs) + {e.date}
    && (forall d :: GroupOf(r, d) == GroupOf(gs, d) + (if d == e.date then [e] else []))
    && TotalSize(r) == TotalSize(gs) + 1
    && ((forall g :: g in gs ==> g.events != []) ==> forall g :: g in r ==> g.events != [])
  }

  /** `Place` adds `e` to the group of its date and to nothing else, and
      keeps the dates distinct and the groups non-empty. */
  lemma {:induction false} PlaceFacts(gs: seq<DayGroup>, e: Event)
    requires DistinctDates(gs)
    ensures Placed(gs, e, Place(gs, e))
    decreases |gs|
  {
    var r := Place(gs, e);
    if |gs| == 0 {
      assert r[0] in r;
      assert forall g :: g in r ==> g == r[0];
    } else if gs[0].date == e.date {
      PlaceInHead(gs, e);
    } else {
      DatesSplit(gs);
      PlaceFacts(gs[1..], e);
      PlaceBehindHead(gs, e);
    }
  }

  lemma PlaceInHead(gs: seq<DayGroup>, e: Event)
    requires DistinctDates(gs) && |gs| > 0 && gs[0].date == e.date
    ensures Placed(gs, e, Place(gs, e))
  {
    var r := Place(gs, e);
    var tail := gs[1..];
    DatesSplit(gs);
    NoGroupIsEmpty(tail, e.date);
    assert r[1..] == tail;
    DatesSplit(r);
    assert forall i :: 0 <= i < |r| ==> r[i].date == gs[i].date;
    assert forall g :: g in r ==> g == r[0] || g in tail;
    assert forall d :: GroupOf(r, d) == GroupOf(gs, d) + (if d == e.date then [e] else []);
  }

  lemma PlaceBehindHead(gs: seq<DayGroup>, e: Event)
    requires DistinctDates(gs) && |gs| > 0 && gs[0].date != e.date
    requires Placed(gs[1..], e, Place(gs[1..], e))
    ensures Placed(gs, e, Place(gs, e))
  {
    var rest := Place(gs[1..], e);
    assert Place(gs, e) == [gs[0]] + rest;
    PrependDates(gs, e, rest);
    PrependGroups(gs, e, rest);
    PrependSizes(gs, e, rest);
  }

  lemma PrependDates(gs: seq<DayGroup>, e: Event, rest: seq<DayGroup>)
    requires DistinctDates(gs) && |gs| > 0 && gs[0].date != e.date
    requires DistinctDates(rest) && DatesOf(rest) == DatesOf(gs[1..]) + {e.date}
    ensures DatesOf([gs[0]] + rest) == DatesOf(gs) + {e.date}
    ensures DistinctDates([gs[0]] + rest)
  {
    var r := [gs[0]] + rest;
    assert r[1..] == rest;
    DatesSplit(gs);
    DatesSplit(r);
    PrependKeepsDistinct(r);
  }

  lemma PrependGroups(gs: seq<DayGroup>, e: Event, rest: seq<DayGroup>)
    requires |gs| > 0 && gs[0].date != e.date
    requires forall d :: GroupOf(rest, d) == GroupOf(gs[1..], d) + (if d == e.date then [e] else [])
    ensures forall d :: GroupOf([gs[0]] + rest, d) == GroupOf(gs, d) + (if d == e.date then [e] else [])
  {
    var r := [gs[0]] + rest;
    assert r[1..] == rest;
    forall d
      ensures GroupOf(r, d) == GroupOf(gs, d) + (if d == e.date then [e] else [])
    {
      if d != gs[0].date {
        assert GroupOf(r, d) == GroupOf(rest, d);
        assert GroupOf(gs, d) == GroupOf(gs[1..], d);
      }
    }
  }

  lemma PrependSizes(gs: seq<DayGroup>, e: Event, rest: seq<DayGroup>)
    requires |gs| > 0
    requires TotalSize(rest) == TotalSize(gs[1..]) + 1
    requires (forall g :: g in gs[1..] ==> g.events != []) ==> forall g :: g in rest ==> g.events != []
    ensures TotalSize([gs[0]] + rest) == TotalSize(gs) + 1
    ensures (forall g :: g in gs ==> g.events != []) ==> forall g :: g in [gs[0]] + rest ==> g.events != []
  {
    var r := [gs[0]] + rest;
    assert r[1..] == rest;
    assert forall g :: g in r ==> g == gs[0] || g in rest;
    assert forall g :: g in gs[1..] ==> g in gs;
  }

  /** A head whose date the tail does not use keeps the dates distinct. */
  lemma PrependKeepsDistinct(r: seq<DayGroup>)
    requires |r| > 0 && DistinctDates(r[1..]) && r[0].date !in DatesOf(r[1..])
    ensures DistinctDates(r)
  {
    forall i, j | 0 <= i < j < |r|
      ensures r[i].date != r[j].date
    {
      assert r[j] == r[1..][j - 1];
      if i > 0 {
        assert r[i] == r[1..][i - 1];
      } else {
        assert r[1..][j - 1] in r[1..];
      }
    }
  }

  /** The events on `d` of a one-element sequence. */
  lemma FilterOne(d: Day, x: Event)
    ensures Seqs.Filter(OnDay(d), [x]) == if d == x.date then [x] else []
  {
    assert [x][1..] == [];
  }

  /** The dates of the groups, in group order. */
  function DateList(gs: seq<DayGroup>): seq<Day> {
    seq(|gs|, i requires 0 <= i < |gs| => gs[i].date)
  }

  /** The distinct dates of `events` in order of first appearance, which is
      the key order of a Python dict filled by scanning the events. */
  function FirstSeen(events: seq<Event>): seq<Day>
    decreases |events|
  {
    if |events| == 0 then []
    else
      var seen := FirstSeen(events[..|events| - 1]);
      var d := events[|events| - 1].date;
      if d in seen then seen else seen + [d]
  }

  lemma DateListCons(gs: seq<DayGroup>)
    requires |gs| > 0
    ensures DateList(gs) == [gs[0].date] + DateList(gs[1..])
  {
  }

  /** One grouping step opens a group at the end exactly when the date is new. */
  lemma {:induction false} PlaceOrder(gs: seq<DayGroup>, e: Event)
    ensures DateList(Place(gs, e)) ==
      if e.date in DateList(gs) then DateList(gs) else DateList(gs) + [e.date]
    decreases |gs|
  {
    if |gs| > 0 {
      var r := Place(gs, e);
      DateListCons(gs);
      if gs[0].date == e.date {
        assert DateList(r) == DateList(gs);
      } else {
        PlaceOrder(gs[1..], e);
        DateListCons(r);
        assert r[1..] == Place(gs[1..], e);
      }
    }
  }

  /** The grouping loop of the week agenda: one group per date in order of
      first appearance, each holding that date's events in input order. */
  function GroupByDate(events: seq<Event>): (r: seq<DayGroup>)
    ensures DistinctDates(r)
    ensures forall g :: g in r ==> g.events != []
    ensures DatesOf(r) == set e | e in events :: e.date
    ensures forall d :: GroupOf(r, d) == Seqs.Filter(OnDay(d), events)
    ensures TotalSize(r) == |events|
    ensures DateList(r) == FirstSeen(events)
    decreases |events|
  {
    if |events| == 0 then []
    else
      var front := events[..|events| - 1];
      var last := events[|events| - 1];
      assert events == front + [last];
      var gs := GroupByDate(front);
      assert forall d :: Seqs.Filter(OnDay(d), events) ==
                         Seqs.Filter(OnDay(d), front) + (if d == last.date then [last] else []) by {
        forall d
          ensures Seqs.Filter(OnDay(d), events) ==
                  Seqs.Filter(OnDay(d), front) + (if d == last.date then [last] else [])
        {
          Seqs.FilterConcat(OnDay(d), front, [last]);
          FilterOne(d, last);
        }
      }
      assert (set e | e in events :: e.date) == (set e | e in front :: e.date) + {last.date};
      PlaceFacts(gs, last);
      PlaceOrder(gs, last);
      Place(gs, last)
  }

  /** `get_agenda`: one day's events (the given date, else today), or the
      week's events grouped by date. */
  function GetAgenda(store: seq<Event>, date: Option<string>, week: bool, now: Day, parse: DateParser)
    : (r: Result<Agenda, Error>)
    ensures r.Failure? <==> !week && Rejects(date, parse)
    ensures r.Failure? ==> r.error == Unparseable
    ensures r.Success? && !week ==>
      var d := if Given(date) then parse(Typed(date.value), None).value.day else now;
      && r.value.DayAgenda?
      && r.value.date == d
      && Seqs.Selects(r.value.events, store, OnDay(d))
      && r.value.total == |r.value.events|
    ensures week ==>
      && r.Success? && r.value.WeekAgenda?
      && r.value.total == TotalSize(r.value.byDate)
      && DistinctDates(r.value.byDate)
      // the groups in order of each date's first appearance in the week's listing
      && DateList(r.value.byDate) == FirstSeen(Seqs.Filter(InWeek(now), store))
      && (forall g :: g in r.value.byDate ==> g.events != [] && WeekStart(now) <= g.date <= WeekEnd(now))
      && (forall d :: WeekStart(now) <= d <= WeekEnd(now) ==>
            Seqs.Selects(GroupOf(r.value.byDate, d), store, OnDay(d)))
      && (forall e :: e in store && WeekStart(now) <= e.date <= WeekEnd(now) ==> e.date in DatesOf(r.value.byDate))
  {
    if week then
      var events := ListEvents(store, None, None, false, true, now, parse).value;
      var groups := GroupByDate(events);
      WeekGroups(store, now, events, groups);
      Success(WeekAgenda(groups, |events|))
    else if Rejects(date, parse) then
      Failure(Unparseable)
    else
      var d := if Given(date) then parse(Typed(date.value), None).value.day else now;
      Seqs.FilterSelects(OnDay(d), store);
      var events := Seqs.Filter(OnDay(d), store);
      Success(DayAgenda(d, events, |events|))
  }

  /** The groups of the week's events are exactly the store's events of
      each day of the week. */
  lemma {:induction false} WeekGroups(store: seq<Event>, now: Day, events: seq<Event>, groups: seq<DayGroup>)
    requires Seqs.Selects(events, store, InWeek(now))
    requires DatesOf(groups) == set e | e in events :: e.date
    requires forall d :: GroupOf(groups, d) == Seqs.Filter(OnDay(d), events)
    ensures forall g :: g in groups ==> WeekStart(now) <= g.date <= WeekEnd(now)
    ensures forall d :: WeekStart(now) <= d <= WeekEnd(now) ==> Seqs.Selects(GroupOf(groups, d), store, OnDay(d))
    ensures forall e :: e in store && WeekStart(now) <= e.date <= WeekEnd(now) ==> e.date in DatesOf(groups)
  {
    WeekDates(store, now, events, groups);
    WeekContents(store, now, events, groups);
  }

  lemma WeekDates(store: seq<Event>, now: Day, events: seq<Event>, groups: seq<DayGroup>)
    requires Seqs.Selects(events, store, InWeek(now))
    requires DatesOf(groups) == set e | e in events :: e.date
    ensures forall g :: g in groups ==> WeekStart(now) <= g.date <= WeekEnd(now)
    ensures forall e :: e in store && WeekStart(now) <= e.date <= WeekEnd(now) ==> e.date in DatesOf(groups)
  {
    forall g | g in groups
      ensures WeekStart(now) <= g.date <= WeekEnd(now)
    {
      assert g.date in DatesOf(groups);
      var e :| e in events && e.date == g.date;
      assert multiset(events)[e] > 0;
    }
    forall e | e in store && WeekStart(now) <= e.date <= WeekEnd(now)
      ensures e.date in DatesOf(groups)
    {
      assert multiset(store)[e] > 0;
      assert multiset(events)[e] > 0;
    }
  }

  lemma WeekContents(store: seq<Event>, now: Day, events: seq<Event>, groups: seq<DayGroup>)
    requires Seqs.Selects(events, store, InWeek(now))
    requires forall d :: GroupOf(groups, d) == Seqs.Filter(OnDay(d), events)
    ensures forall d :: WeekStart(now) <= d <= WeekEnd(now) ==> Seqs.Selects(GroupOf(groups, d), store, OnDay(d))
  {
    Seqs.SelectsUnique(events, store, InWeek(now));
    Seqs.FilterSelects(InWeek(now), store);
    forall d | WeekStart(now) <= d <= WeekEnd(now)
      ensures Seqs.Selects(GroupOf(groups, d), store, OnDay(d))
    {
      Seqs.FilterFilter(InWeek(now), OnDay(d), OnDay(d), store);
      Seqs.FilterSelects(OnDay(d), store);
    }
  }
}
