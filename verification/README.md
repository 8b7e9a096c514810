# calctl event engine, modelled in Dafny

calctl is a command-line personal calendar. Its engine, `src/calctl/core.py`,
keeps a collection of timed events. Each event has an identifier of the form
`evt-XXXX`, a title, a date, a start time, a duration in minutes, an optional
location and description, and creation and update stamps. The engine adds,
lists, shows, edits, deletes and searches events, and builds day and week
agendas. It refuses to schedule overlapping events unless told to force them,
and it keeps the stored collection sorted by (date, start time).

This project models that engine as pure functions over an immutable store.

- Every mutating operation takes the loaded store as a value and returns a
  `Step`. A `Step` holds the sequence that would be saved (`None` when the
  source does not call `save_events`) and the operation's result or error.
- Dates are proleptic day numbers and times are minutes of the day. The
  canonical `YYYY-MM-DD` and `HH:MM` texts the source compares as strings
  order the same way as these integers.
- The loose date parser (`dateutil`), the wall clock and the random source
  are parameters:
  - `DateParser` is any function from a date text and an optional time text
    to an optional instant.
  - `now` is the stamp or day the clock would give.
  - `draws` is the sequence of random picks the identifier generator would
    make.

Modules:

| file | module | contents |
|---|---|---|
| wrappers.dfy | Wrappers | `Option`, `Result` |
| seqs.dfy | Seqs | `Filter`, order-preserving selection `Selects`, subsequence facts |
| text.dfy | Text | Python `strip` and ASCII `lower`, substring search |
| calendar.dfy | Calendar | day/minute arithmetic, the Monday-to-Sunday week, the parser oracle |
| events.dfy | Events | the `Event` record, its start and end, field tidying |
| shortids.dfy | ShortIds | `_generate_short_id`, `_ensure_unique_id` |
| conflicts.dfy | Conflicts | `_check_conflicts` and the overlap relation |
| ordering.dfy | Ordering | the stable sort by (date, start time) |
| engine.dfy | Engine | add, edit, delete, delete by date, show |
| engine_props.dfy | EngineProps | invariants kept across operations, round trips |
| queries.dfy | Queries | list, search, agenda |

## Model

| member | source | states |
|---|---|---|
| Events.EndInstant | src/calctl/core.py:63-66 | the end, as a date and time of day, lies exactly `duration` minutes after the start and never falls on an earlier date |
| Events.EndExamples | src/calctl/core.py:63-66 | 09:00 plus 90 minutes ends at 10:30 on the same date, and 23:30 plus 90 minutes ends at 01:00 on the next date |
| Events.Tidy | src/calctl/core.py:134-135 | a missing or empty location or description becomes missing; any other text becomes its `strip()`, a stripped infix of itself |
| Text.Strip | src/calctl/core.py:130 | the result has no surrounding whitespace, is empty exactly when the input is all whitespace, and is the input with only whitespace cut from both ends |
| Text.Contains | src/calctl/core.py:352 | decides Python's `needle in hay`: true exactly when the needle occurs at some position of the haystack |
| Text.Lower | src/calctl/core.py:337 | `str.lower()` on ASCII: same length, no upper-case letter left, each character equal to the input's up to case, and every character that is not an upper-case letter unchanged |
| Calendar.Weekday | src/calctl/core.py:180 | `date.weekday()`: a number from 0 to 6 counting the days since the last Monday, day 1 (0001-01-01) being a Monday |
| Calendar.WeekBounds | src/calctl/core.py:179-182 | the week runs from a Monday to the following Sunday, six days apart, and contains today |
| ShortIds.ShortId | src/calctl/core.py:23-27 | every generated identifier is `evt-` followed by four characters from a-z and 0-9, eight characters in all |
| ShortIds.ShortIdRoundTrip | src/calctl/core.py:23-27 | draws and well-formed identifiers are in one-to-one correspondence: the draw can be read back from its identifier and vice versa |
| ShortIds.IdCharIndexesAlphabet | src/calctl/core.py:25-26 | the pick `k` selects character `k` of `ascii_lowercase + digits` |
| ShortIds.EnsureUniqueId | src/calctl/core.py:30-35 | a proposed identifier no stored event uses is kept; otherwise the first unused redraw is taken; the result never clashes with a stored identifier; no result exactly when every candidate is in use |
| Conflicts.CheckConflicts | src/calctl/core.py:83-102 | the stored events, in stored order and with their multiplicities, that are not excluded by a non-empty id and whose half-open interval meets the candidate's |
| Conflicts.OverlapFacts | src/calctl/core.py:99 | overlap is symmetric, events that only touch do not overlap, and an event with a positive duration overlaps itself |
| Conflicts.DetectionIsSymmetric | src/calctl/core.py:83-102 | `b` is reported against `a` exactly when `a` is reported against `b` |
| Ordering.SortByStart | src/calctl/core.py:158 | the result is ordered by (date, start time) and is a permutation of the input |
| Ordering.SortIsStable | src/calctl/core.py:158 | events with the same date and start time keep their relative order |
| Ordering.SortedIsFixpoint | src/calctl/core.py:158 | sorting an already sorted store changes nothing |
| Ordering.AppendThenSort | src/calctl/core.py:157-158 | appending to a sorted store and sorting inserts the new event after every event whose key is not greater |
| Engine.IndexOfId | src/calctl/core.py:275-276 | finds the first event carrying the identifier, and none exactly when no event carries it |
| Engine.AddEvent | src/calctl/core.py:105-161 | missing title, date or time, then a non-positive duration, then an unreadable date are each reported exactly when they occur, and running out of draws exactly when all of those pass and every draw is in use; every failure saves nothing; on success the saved store is the old store plus the new event, sorted, and the event has the id `DrawId` picks (fresh and well formed), the stripped title, the parsed start, tidied optional fields and both stamps set to now; without `force` it overlaps no stored event, and a reported conflict lists exactly the overlapping stored events, in stored order and as often as each is stored |
| Engine.DrawId | src/calctl/core.py:127 | the new identifier is the first draw no stored event uses: the proposed one when it is free, otherwise the first unused redraw; it is well formed and unused; there is none exactly when every draw supplied is already in use |
| Engine.Schedule | src/calctl/core.py:140-161 | unless forced, an event overlapping stored ones is refused with exactly what the conflict detector reports (those events, in stored order and as often as stored) and nothing is saved; otherwise the store plus the event is saved, sorted, and a non-forced event overlaps nothing stored |
| Engine.ApplyChanges | src/calctl/core.py:278-298 | the edit fails as unreadable exactly when a date or time argument is given and the parser rejects the resulting text, and otherwise as a non-positive duration exactly when such a duration is given; otherwise every absent argument leaves its field alone and every given one sets it, with identity and stamps kept |
| Engine.EditEvent | src/calctl/core.py:261-327 | an unknown id is "not found" and saves nothing; a parse or duration failure is exactly the one building the changed record gives; a conflict is reported exactly when the detector, skipping the edited id, finds stored events overlapping the changed record (for a stored empty id nothing is skipped, so the record conflicts with itself), and it carries exactly those events; otherwise the edit succeeds: every absent argument leaves its field alone and every given one sets it (stripped or tidied, the time re-parsed with the stored date or time as fallback), `created` is kept, `updated` is now, and the saved store is the store with that one record replaced, stably sorted |
| Engine.DeleteEvent | src/calctl/core.py:224-236 | removes and returns the first event with the id, leaving the rest in order; an unknown id saves nothing |
| Engine.DeleteEventsByDate | src/calctl/core.py:239-258 | an unreadable date fails before anything else; the result is exactly the events of that date in order, the saved store exactly the others, together a partition of the store, and nothing is saved when nothing matched |
| Engine.ShowEvent | src/calctl/core.py:204-221 | finds the first event with the id, gives the time of day its end falls on, and lists exactly what the conflict detector reports for it with its own id skipped: the other stored events it overlaps, in stored order and as often as stored |
| EngineProps.AddKeepsInvariants | src/calctl/core.py:127-159 | a successful add keeps identifiers unique, the store sorted and durations positive, and without `force` keeps the store free of conflicts |
| EngineProps.AddInsertsInPlace | src/calctl/core.py:157-158 | added to a sorted store, the new event is inserted after all events whose key is not greater and nothing else moves |
| EngineProps.AddThenShow | src/calctl/core.py:204-219 | showing the id an add returned gives back the added event, with no conflicts when it was added without `force` |
| EngineProps.AddThenDelete | src/calctl/core.py:224-236 | deleting the event an add returned gives back exactly the sorted store it was added to |
| EngineProps.EditKeepsInvariants | src/calctl/core.py:300-323 | a successful edit keeps identifiers unique, the store sorted and durations positive, and keeps a conflict-free store conflict-free |
| EngineProps.EmptyEditOnlyStamps | src/calctl/core.py:261-327 | an edit with no arguments of a non-empty id present in a healthy, conflict-free store succeeds, returns the record with only `updated` set to now, and saves the store with just that record restamped in place (with the empty id nothing is skipped, so the event would conflict with itself) |
| EngineProps.BlankDateTimeKeepsStart | src/calctl/core.py:281-288 | an edit giving neither a new date nor a new time keeps the start, when the parser reads stored text back |
| EngineProps.DeleteKeepsInvariants | src/calctl/core.py:229-234 | deleting keeps identifiers unique, durations positive, the store in order, and a conflict-free store conflict-free |
| EngineProps.DeleteRemovesId | src/calctl/core.py:229-234 | with unique identifiers, the deleted id no longer occurs in the saved store |
| EngineProps.DeleteByDateKeepsInvariants | src/calctl/core.py:239-258 | deleting by date keeps the store healthy, in order and conflict-free if it was, and no saved event falls on that date |
| Queries.RangeFilter | src/calctl/core.py:189-194 | the `from` filter then the `to` filter selects exactly the events between the given bounds, inclusive, in order |
| Queries.ListEvents | src/calctl/core.py:164-201 | `today` wins over `week`, which wins over the range; each lists exactly the store's events of that day, that week or that range, in order; an unreadable bound fails; with no filter only events from today on are listed |
| Queries.ListKeepsOrder | src/calctl/core.py:164-201 | listing a sorted store lists in (date, start time) order |
| Queries.DefaultHidesPast | src/calctl/core.py:196-199 | with no filter, a store holding only past events lists nothing |
| Queries.TodayWithinWeek | src/calctl/core.py:175-187 | today's listing is the week's listing restricted to today |
| Queries.SearchEvents | src/calctl/core.py:330-355 | a blank query finds nothing; otherwise exactly the events, in order, whose lower-cased title (or title, description and location joined by spaces) contains the stripped, lower-cased query |
| Queries.SearchIgnoresCase | src/calctl/core.py:337-353 | an event whose lower-cased title contains the stripped, lower-cased query is found, whatever the letter case of query and title, and whether or not only titles are searched |
| Queries.SearchFindsVerbatim | src/calctl/core.py:337-353 | an event whose title contains the stripped query verbatim is found |
| Queries.SearchCaseExample | src/calctl/core.py:337-353 | the query "MEETING" finds the event titled "Team Meeting" |
| Queries.TitleHitIsFullHit | src/calctl/core.py:342-352 | whatever a title-only search finds, a full search finds too |
| Queries.PlaceFacts | src/calctl/core.py:365-369 | one grouping step appends the event to the group of its date, opening a group when the date has none, and changes nothing else |
| Queries.GroupByDate | src/calctl/core.py:364-369 | one non-empty group per distinct date, the groups in order of each date's first appearance (the key order of the source's dict), the group of each date holding exactly that date's events in input order, sizes summing to the input length |
| Queries.PlaceOrder | src/calctl/core.py:366-368 | one grouping step opens a new group, at the end, exactly when the event's date has none yet |
| Queries.GetAgenda | src/calctl/core.py:358-384 | the day agenda holds exactly the events of the given date (today if none) with their count, and an unreadable date fails; the week agenda groups exactly this week's events by date, the groups in order of each date's first appearance in the week's listing, covering every one of them, with a total equal to their number |
| Queries.WeekGroups | src/calctl/core.py:362-371 | the group of each day of the week is exactly the store's events of that day |

## Left out

- Storage (`load_events`, `save_events`, `storage.py`) is not part of this model. A store is a value passed in, and a save is the `saved` field of a `Step`. A corrupt file read as empty is the empty store.
- `dateutil.parser.parse` is a parameter (`DateParser`). Its fuzzy reading of human dates is not modelled. Only its results matter: an instant, or a failure.
- The date-only branch of `_parse_date_time` (src/calctl/core.py:71-75) is never taken, because both callers always pass a non-empty time. `add_event` refuses an empty time first (src/calctl/core.py:117). `edit_event` falls back to the stored time (src/calctl/core.py:285). The model therefore always hands the parser the date together with the time.
- The clock is a parameter: `now` for stamps and for "today". The 0.2-second sleep before an edit's stamp is not modelled, so that the stamp is strictly newer is not stated.
- `secrets.choice` is a parameter: the sequence of draws. The source loops until it finds an unused identifier. The model stops when the draws run out and reports `IdSourceExhausted`; the source has no such error.
- Records are stored in canonical form. Stored dates and times that do not parse (hand-edited files) are not modelled.
- The text of error messages (the conflict list with titles and "HH:MM - HH:MM" ranges) is not modelled. A conflict error carries the conflicting events themselves.
- The command-line layer `src/calctl/app.py` (argument parsing, output formatting, confirmation prompts) is not part of this model.
- Events.End: dates are unbounded. Python's `datetime` ends at 9999-12-31, and `get_end_datetime` raises `OverflowError` when an event would end after it. The model computes such an end.
- Engine.AddEvent: without `force`, an event ending after 9999-12-31 is added, where the source raises `OverflowError` in the conflict check. With `force` both save it. A stored event ending after that date makes the source's conflict checks raise; the model compares its end like any other.
- Engine.ShowEvent: the end of an event ending after 9999-12-31 is computed, where the source raises `OverflowError`.
- Engine.EditEvent: an edit making an event end after 9999-12-31 is checked for conflicts and saved, where the source raises `OverflowError`.
- Text.Lower: folds only the ASCII letters A-Z. Python's `str.lower` also folds other Unicode letters.
- Stored `title`, `description` and `location` values that are `None` in a hand-edited store are not modelled. The title is always a string, so `event.get("title") or ""` is the title.
- Behaviour of the code that is easy to miss, modelled as written:
  - `add_event` tests the raw title, so a whitespace-only title is accepted and stored as the empty string.
  - A location or description of only whitespace is stored as the empty string, not as missing. Only an empty or missing argument becomes missing.
  - A no-argument edit still sets `updated` to now.
  - `delete_event` does not re-sort. It keeps a sorted store sorted (`EngineProps.DeleteKeepsInvariants`).
  - Conflict exclusion tests the id's truthiness, so nothing is excluded for the empty identifier.
