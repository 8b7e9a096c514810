/** Properties that relate several engine operations, or one operation to
    the invariants every saved store keeps. */
module EngineProps {
  import opened Wrappers
  import opened Calendar
  import opened Events
  import opened ShortIds
  import opened Conflicts
  import opened Ordering
  import opened Engine
  import Seqs

  /** The invariants every store written by the engine keeps: identifiers
      are unique, the store is in (date, start time) order, and every
      duration is positive. */
  ghost predicate Healthy(store: seq<Event>) {
    && UniqueIds(store)
    && Sorted(store)
    && (forall e :: e in store ==> e.duration > 0)
  }

  // ------------------------------------------------------ general facts

  /** Adding an event whose identifier is new keeps identifiers unique. */
  lemma AddFreshKeepsUnique(store: seq<Event>, saved: seq<Event>, ev: Event)
    requires UniqueIds(store) && ev.id !in IdsOf(store)
    requires multiset(saved) == multiset(store) + multiset{ev}
    ensures UniqueIds(saved)
  {
    assert ev !in store;
    assert forall x :: x in saved ==> x in store || x == ev by {
      forall x | x in saved
        ensures x in store || x == ev
      {
        assert x in multiset(saved);
      }
    }
  }

  /** Replacing one record of a store by one with the same identifier keeps
      identifiers unique. */
  lemma ReplaceKeepsUnique(store: seq<Event>, saved: seq<Event>, cur: Event, ev: Event)
    requires UniqueIds(store) && cur in store && ev.id == cur.id
    requires multiset(saved) == multiset(store) - multiset{cur} + multiset{ev}
    ensures UniqueIds(saved)
  {
    var rest := multiset(store) - multiset{cur};
    assert rest[cur] == 0;
    assert forall x :: x in rest ==> x in store && x.id != cur.id by {
      forall x | x in rest
        ensures x in store && x.id != cur.id
      {
        assert x != cur;
      }
    }
    assert ev !in rest;
    assert forall x :: x in saved ==> x in rest || x == ev by {
      forall x | x in saved
        ensures x in rest || x == ev
      {
        assert x in multiset(saved);
      }
    }
  }

  /** Any sub-multiset of a store keeps its identifiers unique and its
      events free of conflicts. */
  lemma SubMultisetKeeps(store: seq<Event>, kept: seq<Event>)
    requires multiset(kept) <= multiset(store)
    ensures UniqueIds(store) ==> UniqueIds(kept)
    ensures ConflictFree(store) ==> ConflictFree(kept)
    ensures (forall e :: e in store ==> e.duration > 0) ==> forall e :: e in kept ==> e.duration > 0
  {
    assert forall x :: x in kept ==> x in store by {
      forall x | x in kept
        ensures x in store
      {
        assert x in multiset(kept);
      }
    }
  }

  // ---------------------------------------------------------------- add

  /** A successful add keeps the store healthy; without `force` it also
      keeps it free of conflicts. */
  lemma {:induction false} AddKeepsInvariants(
      store: seq<Event>, title: string, date: string, time: string, duration: int,
      location: Option<string>, description: Option<string>, force: bool,
      parse: DateParser, draws: seq<Draw>, now: Stamp)
    ensures
      var step := AddEvent(store, title, date, time, duration, location, description, force, parse, draws, now);
      step.out.Success? ==>
        && (Healthy(store) ==> Healthy(step.saved.value))
        && (ConflictFree(store) && !force ==> ConflictFree(step.saved.value))
  {
    var step := AddEvent(store, title, date, time, duration, location, description, force, parse, draws, now);
    if step.out.Failure? {
      return;
    }
    AddedKeeps(store, step.saved.value, step.out.value, force);
  }

  /** The store saved by an add, described only by what it holds. */
  lemma AddedKeeps(store: seq<Event>, saved: seq<Event>, ev: Event, force: bool)
    requires multiset(saved) == multiset(store) + multiset{ev}
    requires Sorted(saved) && ev.id !in IdsOf(store) && ev.duration > 0
    requires !force ==> forall e :: e in store ==> !Overlaps(ev, e)
    ensures Healthy(store) ==> Healthy(saved)
    ensures ConflictFree(store) && !force ==> ConflictFree(saved)
  {
    assert forall x :: x in saved <==> x in store || x == ev by {
      forall x
        ensures x in saved <==> x in store || x == ev
      {
        assert x in saved <==> x in multiset(saved);
      }
    }
    if UniqueIds(store) {
      AddFreshKeepsUnique(store, saved, ev);
    }
    if ConflictFree(store) && !force {
      forall a, b | a in saved && b in saved && a.id != b.id
        ensures !Overlaps(a, b)
      {
        OverlapFacts(a, b);
      }
    }
  }

  /** Added to a sorted store, the new event goes after every event whose
      key is not greater, and all other events keep their relative order. */
  lemma {:induction false} AddInsertsInPlace(
      store: seq<Event>, title: string, date: string, time: string, duration: int,
      location: Option<string>, description: Option<string>, force: bool,
      parse: DateParser, draws: seq<Draw>, now: Stamp)
    requires Sorted(store)
    ensures
      var step := AddEvent(store, title, date, time, duration, location, description, force, parse, draws, now);
      step.out.Success? ==> step.saved == Some(Insert(store, step.out.value))
  {
    var step := AddEvent(store, title, date, time, duration, location, description, force, parse, draws, now);
    if step.out.Success? {
      AppendThenSort(store, step.out.value);
    }
  }

  /** `Insert` puts the new element at one position and leaves the rest of
      the sequence as it was. */
  lemma {:induction false} InsertSplits(t: seq<Event>, x: Event) returns (k: nat)
    requires Sorted(t)
    ensures k <= |t| && Insert(t, x) == t[..k] + [x] + t[k..]
    decreases |t|
  {
    if |t| == 0 || !KeyLe(t[0], x) {
      k := 0;
    } else {
      var j := InsertSplits(t[1..], x);
      k := j + 1;
      assert t[..k] == [t[0]] + t[1..][..j];
      assert t[k..] == t[1..][j..];
    }
  }

  /** The event an add returns is what `show_event` then finds under its
      identifier; added without `force`, it shows no conflicts. */
  lemma {:induction false} AddThenShow(
      store: seq<Event>, title: string, date: string, time: string, duration: int,
      location: Option<string>, description: Option<string>, force: bool,
      parse: DateParser, draws: seq<Draw>, now: Stamp)
    ensures
      var step := AddEvent(store, title, date, time, duration, location, description, force, parse, draws, now);
      step.out.Success? ==>
        var shown := ShowEvent(step.saved.value, step.out.value.id);
        && shown.Some?
        && shown.value.event == step.out.value
        && (!force ==> shown.value.conflicts == [])
  {
    var step := AddEvent(store, title, date, time, duration, location, description, force, parse, draws, now);
    if step.out.Failure? {
      return;
    }
    var ev, saved := step.out.value, step.saved.value;
    assert ev in multiset(saved);
    assert ev.id in IdsOf(saved);
    var i := IndexOfId(saved, ev.id).value;
    assert saved[i] in multiset(saved);
    assert saved[i] !in store;
    if !force {
      var p := ClashesWith(ev, Some(ev.id));
      forall x | x in saved
        ensures !p(x)
      {
        assert x in multiset(saved);
        OverlapFacts(ev, x);
      }
      Seqs.FilterNone(p, saved);
    }
  }

  /** Deleting an event just added to a sorted store gives back exactly the
      store it was added to. */
  lemma {:induction false} AddThenDelete(
      store: seq<Event>, title: string, date: string, time: string, duration: int,
      location: Option<string>, description: Option<string>, force: bool,
      parse: DateParser, draws: seq<Draw>, now: Stamp)
    requires Sorted(store)
    ensures
      var step := AddEvent(store, title, date, time, duration, location, description, force, parse, draws, now);
      step.out.Success? ==>
        DeleteEvent(step.saved.value, step.out.value.id) == Step(Some(store), Success(Some(step.out.value)))
  {
    var step := AddEvent(store, title, date, time, duration, location, description, force, parse, draws, now);
    if step.out.Success? {
      AddInsertsInPlace(store, title, date, time, duration, location, description, force, parse, draws, now);
      DeleteUndoesInsert(store, step.out.value);
    }
  }

  lemma {:induction false} DeleteUndoesInsert(t: seq<Event>, x: Event)
    requires Sorted(t) && x.id !in IdsOf(t)
    ensures DeleteEvent(Insert(t, x), x.id) == Step(Some(t), Success(Some(x)))
  {
    var k := InsertSplits(t, x);
    DeleteAfterSplice(t, x, k);
  }

  /** Deleting the only event with its identifier from a sequence undoes
      splicing that event in. */
  lemma DeleteAfterSplice(t: seq<Event>, x: Event, k: nat)
    requires k <= |t| && x.id !in IdsOf(t)
    ensures DeleteEvent(t[..k] + [x] + t[k..], x.id) == Step(Some(t), Success(Some(x)))
  {
    var s := t[..k] + [x] + t[k..];
    assert s[k] == x;
    assert forall j :: 0 <= j < k ==> s[j].id != x.id by {
      forall j | 0 <= j < k
        ensures s[j].id != x.id
      {
        assert s[j] == t[j] && t[j] in t;
      }
    }
    FirstIndex(s, x.id, k);
    assert s[..k] + s[k + 1..] == t by {
      assert s[..k] == t[..k];
      assert s[k + 1..] == t[k..];
    }
  }

  /** The first position holding an identifier is the one `IndexOfId` finds. */
  lemma FirstIndex(s: seq<Event>, id: string, k: nat)
    requires k < |s| && s[k].id == id
    requires forall j :: 0 <= j < k ==> s[j].id != id
    ensures IndexOfId(s, id) == Some(k)
  {
    assert s[k] in s;
  }

  // --------------------------------------------------------------- edit

  /** A successful edit keeps the store healthy and, if it was, free of
      conflicts. */
  lemma {:induction false} EditKeepsInvariants(
      store: seq<Event>, id: string, ch: Changes, parse: DateParser, now: Stamp)
    requires EditEvent(store, id, ch, parse, now).out.Success?
    requires EditEvent(store, id, ch, parse, now).out.value.Some?
    ensures
      var step := EditEvent(store, id, ch, parse, now);
      && (Healthy(store) ==> Healthy(step.saved.value))
      && (ConflictFree(store) ==> ConflictFree(step.saved.value))
  {
    var step := EditEvent(store, id, ch, parse, now);
    var cur := store[IndexOfId(store, id).value];
    var ev, saved := step.out.value.value, step.saved.value;
    assert cur in store;
    if Healthy(store) {
      ReplaceKeepsHealthy(store, saved, cur, ev);
    }
    if ConflictFree(store) {
      ReplaceKeepsConflictFree(store, saved, cur, ev);
    }
  }

  lemma ReplaceKeepsHealthy(store: seq<Event>, saved: seq<Event>, cur: Event, ev: Event)
    requires Healthy(store) && cur in store && ev.id == cur.id && ev.duration > 0
    requires multiset(saved) == multiset(store) - multiset{cur} + multiset{ev}
    requires Sorted(saved)
    ensures Healthy(saved)
  {
    ReplaceKeepsUnique(store, saved, cur, ev);
    assert forall x :: x in saved ==> x in store || x == ev by {
      forall x | x in saved
        ensures x in store || x == ev
      {
        assert x in multiset(saved);
      }
    }
  }

  lemma ReplaceKeepsConflictFree(store: seq<Event>, saved: seq<Event>, cur: Event, ev: Event)
    requires ConflictFree(store)
    requires multiset(saved) == multiset(store) - multiset{cur} + multiset{ev}
    requires forall e :: e in store && e.id != ev.id ==> !Overlaps(ev, e)
    ensures ConflictFree(saved)
  {
    forall a, b | a in saved && b in saved && a.id != b.id
      ensures !Overlaps(a, b)
    {
      assert a in multiset(saved) && b in multiset(saved);
      OverlapFacts(a, b);
    }
  }

  /** An edit with no arguments of an event in a healthy, conflict-free
      store succeeds and changes only the `updated` stamp. */
  lemma {:induction false} EmptyEditOnlyStamps(
      store: seq<Event>, id: string, parse: DateParser, now: Stamp)
    requires Healthy(store) && ConflictFree(store)
    requires id in IdsOf(store) && id != ""
    ensures
      var i := IndexOfId(store, id).value;
      var stamped := store[i].(updated := Some(now));
      && EditEvent(store, id, NoChanges, parse, now).out == Success(Some(stamped))
      && EditEvent(store, id, NoChanges, parse, now).saved == Some(store[i := stamped])
  {
    var i := IndexOfId(store, id).value;
    var cur := store[i];
    var stamped := cur.(updated := Some(now));
    SameKeyStaysInPlace(store, i, stamped, store[i := stamped]);
    assert ApplyChanges(cur, NoChanges, parse) == Success(cur);
    var p := ClashesWith(cur, Some(id));
    forall x | x in store
      ensures !p(x)
    {
    }
    Seqs.FilterNone(p, store);
  }

  /** Giving the date or time as empty text falls back to the stored text;
      a parser that reads stored text back leaves the start unchanged. */
  lemma {:induction false} BlankDateTimeKeepsStart(
      store: seq<Event>, id: string, ch: Changes, parse: DateParser, now: Stamp)
    requires ReadsBackStored(parse)
    requires !Given(ch.date) && !Given(ch.time)
    requires id in IdsOf(store)
    ensures
      var cur := store[IndexOfId(store, id).value];
      var step := EditEvent(store, id, ch, parse, now);
      step.out.Success? ==>
        step.out.value.value.date == cur.date && step.out.value.value.startTime == cur.startTime
  {
    var cur := store[IndexOfId(store, id).value];
    assert parse(StoredDate(cur.date), Some(StoredTime(cur.startTime))) == Some(Instant(cur.date, cur.startTime));
  }

  // ------------------------------------------------------------- delete

  /** Deleting keeps the store healthy, free of conflicts if it was, and
      in its order. */
  lemma {:induction false} DeleteKeepsInvariants(store: seq<Event>, id: string)
    requires DeleteEvent(store, id).saved.Some?
    ensures
      var saved := DeleteEvent(store, id).saved.value;
      && (Healthy(store) ==> Healthy(saved))
      && (ConflictFree(store) ==> ConflictFree(saved))
  {
    var step := DeleteEvent(store, id);
    var saved := step.saved.value;
    SubMultisetKeeps(store, saved);
    if Sorted(store) {
      SubsequenceKeepsSorted(saved, store);
    }
  }

  /** After a delete the identifier is gone, given unique identifiers. */
  lemma {:induction false} DeleteRemovesId(store: seq<Event>, id: string)
    requires UniqueIds(store) && id in IdsOf(store)
    ensures id !in IdsOf(DeleteEvent(store, id).saved.value)
  {
    var step := DeleteEvent(store, id);
    var ev, saved := step.out.value.value, step.saved.value;
    assert multiset(store)[ev] == 1;
    assert multiset(saved)[ev] == 0;
    forall x | x in saved
      ensures x.id != id
    {
      assert x in multiset(saved);
    }
  }

  /** Deleting by date keeps the store healthy and free of conflicts if it
      was, and removes every event on that date. */
  lemma {:induction false} DeleteByDateKeepsInvariants(store: seq<Event>, date: string, parse: DateParser)
    requires DeleteEventsByDate(store, date, parse).saved.Some?
    ensures
      var saved := DeleteEventsByDate(store, date, parse).saved.value;
      && (Healthy(store) ==> Healthy(saved))
      && (ConflictFree(store) ==> ConflictFree(saved))
      && forall e :: e in saved ==> e.date != parse(Typed(date), None).value.day
  {
    var step := DeleteEventsByDate(store, date, parse);
    var d := parse(Typed(date), None).value.day;
    var saved := step.saved.value;
    Seqs.SubsequenceMultiset(saved, store);
    SubMultisetKeeps(store, saved);
    if Sorted(store) {
      SubsequenceKeepsSorted(saved, store);
    }
    forall e | e in saved
      ensures e.date != d
    {
      assert e in multiset(saved);
      assert OffDay(d)(e);
    }
  }
}
