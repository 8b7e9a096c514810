/** The store order: `events.sort(key=lambda e: (e["date"], e["start_time"]))`,
    a stable sort on the pair (date, start time). */
module Ordering {
  import opened Calendar
  import opened Events
  import Seqs

  /** The sort key of an event. */
  function Key(e: Event): Instant {
    Instant(e.date, e.startTime)
  }

  /** Tuple comparison of the sort keys `(date, start_time)`. */
  predicate KeyLe(a: Event, b: Event) {
    a.date < b.date || (a.date == b.date && a.startTime <= b.startTime)
  }

  ghost predicate Sorted(s: seq<Event>) {
    forall i, j :: 0 <= i < j < |s| ==> KeyLe(s[i], s[j])
  }

  /** Places `x` after every element of sorted `t` whose key is not greater,
      which is where a stable sort puts an element that comes last. */
  function Insert(t: seq<Event>, x: Event): (r: seq<Event>)
    requires Sorted(t)
    ensures Sorted(r)
    ensures multiset(r) == multiset(t) + multiset{x}
    ensures forall y :: y in r <==> y in t || y == x
    ensures |r| == |t| + 1
  {
    if |t| == 0 then [x]
    else if !KeyLe(t[0], x) then
      InsertInFront(t, x);
      [x] + t
    else
      var rest := Insert(t[1..], x);
      InsertBehindHead(t, x, rest);
      [t[0]] + rest
  }

  /** The first case of `Insert`: `x` sorts before the head of `t`. */
  lemma InsertInFront(t: seq<Event>, x: Event)
    requires Sorted(t) && |t| > 0 && !KeyLe(t[0], x)
    ensures Sorted([x] + t)
    ensures multiset([x] + t) == multiset(t) + multiset{x}
    ensures forall y :: y in [x] + t <==> y in t || y == x
  {
    forall y | y in t
      ensures KeyLe(x, y)
    {
      var i :| 0 <= i < |t| && t[i] == y;
      assert i == 0 || KeyLe(t[0], t[i]);
    }
    PrependSorted(x, t);
  }

  /** The recursive case of `Insert`: the head of `t` stays in front of the
      insertion into the rest. */
  lemma InsertBehindHead(t: seq<Event>, x: Event, rest: seq<Event>)
    requires Sorted(t) && |t| > 0 && KeyLe(t[0], x)
    requires Sorted(rest)
    requires multiset(rest) == multiset(t[1..]) + multiset{x}
    requires forall y :: y in rest <==> y in t[1..] || y == x
    ensures Sorted([t[0]] + rest)
    ensures multiset([t[0]] + rest) == multiset(t) + multiset{x}
    ensures forall y :: y in [t[0]] + rest <==> y in t || y == x
  {
    assert t == [t[0]] + t[1..];
    forall y | y in rest
      ensures KeyLe(t[0], y)
    {
      if y != x {
        var i :| 0 <= i < |t[1..]| && t[1..][i] == y;
        assert t[i + 1] == y;
      }
    }
    PrependSorted(t[0], rest);
  }

  /** An event not above any event of a sorted sequence can go in front. */
  lemma PrependSorted(h: Event, s: seq<Event>)
    requires Sorted(s)
    requires forall y :: y in s ==> KeyLe(h, y)
    ensures Sorted([h] + s)
  {
    forall i, j | 0 <= i < j < |[h] + s|
      ensures KeyLe(([h] + s)[i], ([h] + s)[j])
    {
      assert ([h] + s)[j] == s[j - 1];
      if i > 0 {
        assert ([h] + s)[i] == s[i - 1];
      }
    }
  }

  /** The store after `events.sort(...)`: sorted, a permutation, and stable
      (see `SortIsStable`). */
  function SortByStart(s: seq<Event>): (r: seq<Event>)
    ensures Sorted(r)
    ensures multiset(r) == multiset(s)
    ensures |r| == |s|
    decreases |s|
  {
    if |s| == 0 then []
    else
      var front := s[..|s| - 1];
      assert s == front + [s[|s| - 1]];
      Insert(SortByStart(front), s[|s| - 1])
  }

  /** The events whose sort key is `k`. */
  function HasKey(k: Instant): Event -> bool {
    e => Key(e) == k
  }

  lemma {:induction false} InsertIsStable(t: seq<Event>, x: Event, k: Instant)
    requires Sorted(t)
    ensures Seqs.Filter(HasKey(k), Insert(t, x)) == Seqs.Filter(HasKey(k), t) + Seqs.Filter(HasKey(k), [x])
    decreases |t|
  {
    if |t| == 0 {
    } else if !KeyLe(t[0], x) {
      InsertInFrontIsStable(t, x, k);
    } else {
      var p := HasKey(k);
      var rest := Insert(t[1..], x);
      assert Insert(t, x) == [t[0]] + rest;
      InsertIsStable(t[1..], x, k);
      Seqs.FilterConcat(p, [t[0]], rest);
      Seqs.FilterConcat(p, [t[0]], t[1..]);
      assert [t[0]] + t[1..] == t;
    }
  }

  lemma InsertInFrontIsStable(t: seq<Event>, x: Event, k: Instant)
    requires Sorted(t) && |t| > 0 && !KeyLe(t[0], x)
    ensures Seqs.Filter(HasKey(k), [x] + t) == Seqs.Filter(HasKey(k), t) + Seqs.Filter(HasKey(k), [x])
  {
    var p := HasKey(k);
    Seqs.FilterConcat(p, [x], t);
    if Key(x) == k {
      AllAfter(t, x);
      Seqs.FilterNone(p, t);
    } else {
      Seqs.FilterNone(p, [x]);
    }
  }

  /** No event of sorted `t` has the key of `x` when `x` sorts before its head. */
  lemma AllAfter(t: seq<Event>, x: Event)
    requires Sorted(t) && |t| > 0 && !KeyLe(t[0], x)
    ensures forall y :: y in t ==> Key(y) != Key(x)
  {
    forall y | y in t
      ensures Key(y) != Key(x)
    {
      var i :| 0 <= i < |t| && t[i] == y;
      assert i == 0 || KeyLe(t[0], t[i]);
    }
  }

  /** Python's sort is stable: among events with equal keys the sorted
      store keeps their original relative order. */
  lemma {:induction false} SortIsStable(s: seq<Event>, k: Instant)
    ensures Seqs.Filter(HasKey(k), SortByStart(s)) == Seqs.Filter(HasKey(k), s)
    decreases |s|
  {
    if |s| > 0 {
      var p, front, last := HasKey(k), s[..|s| - 1], s[|s| - 1];
      assert front + [last] == s;
      calc {
        Seqs.Filter(p, SortByStart(s));
        Seqs.Filter(p, Insert(SortByStart(front), last));
        { InsertIsStable(SortByStart(front), last, k); }
        Seqs.Filter(p, SortByStart(front)) + Seqs.Filter(p, [last]);
        { SortIsStable(front, k); }
        Seqs.Filter(p, front) + Seqs.Filter(p, [last]);
        { Seqs.FilterConcat(p, front, [last]); }
        Seqs.Filter(p, s);
      }
    }
  }

  lemma {:induction false} InsertLast(t: seq<Event>, x: Event)
    requires Sorted(t)
    requires forall y :: y in t ==> KeyLe(y, x)
    ensures Insert(t, x) == t + [x]
    decreases |t|
  {
    if |t| > 0 {
      assert t[0] in t;
      InsertLast(t[1..], x);
      assert t == [t[0]] + t[1..];
    }
  }

  /** Sorting a sorted store changes nothing. */
  lemma {:induction false} SortedIsFixpoint(s: seq<Event>)
    requires Sorted(s)
    ensures SortByStart(s) == s
    decreases |s|
  {
    if |s| > 0 {
      var front, last := s[..|s| - 1], s[|s| - 1];
      SortedFront(s, front);
      SortedIsFixpoint(front);
      InsertLast(front, last);
      assert SortByStart(s) == Insert(SortByStart(front), last);
      assert front + [last] == s;
    }
  }

  /** Without its last element a sorted sequence is sorted, and that
      element is not below any other. */
  lemma SortedFront(s: seq<Event>, front: seq<Event>)
    requires Sorted(s) && |s| > 0 && front == s[..|s| - 1]
    ensures Sorted(front)
    ensures forall y :: y in front ==> KeyLe(y, s[|s| - 1])
  {
    forall y | y in front
      ensures KeyLe(y, s[|s| - 1])
    {
      var i :| 0 <= i < |front| && front[i] == y;
      assert s[i] == y;
    }
  }

  /** Replacing an event of a sorted store by one with the same key leaves
      the store sorted, so sorting it changes nothing. */
  lemma SameKeyStaysInPlace(s: seq<Event>, i: nat, x: Event, t: seq<Event>)
    requires Sorted(s) && i < |s| && Key(x) == Key(s[i]) && t == s[i := x]
    ensures Sorted(t) && SortByStart(t) == t
  {
    forall j, k | 0 <= j < k < |t|
      ensures KeyLe(t[j], t[k])
    {
      assert KeyLe(s[j], s[k]);
    }
    SortedIsFixpoint(t);
  }

  /** Appending one event to a sorted store and sorting inserts that event
      after all events whose key is not greater, the others keep their places. */
  lemma {:induction false} AppendThenSort(s: seq<Event>, x: Event)
    requires Sorted(s)
    ensures SortByStart(s + [x]) == Insert(s, x)
  {
    assert (s + [x])[..|s|] == s;
    SortedIsFixpoint(s);
  }

  /** Dropping events from a sorted store leaves it sorted. */
  lemma {:induction false} SubsequenceKeepsSorted(a: seq<Event>, b: seq<Event>)
    requires Seqs.IsSubsequence(a, b) && Sorted(b)
    ensures Sorted(a)
    decreases |b|
  {
    if |a| > 0 {
      if a[0] == b[0] && Seqs.IsSubsequence(a[1..], b[1..]) {
        SubsequenceKeepsSorted(a[1..], b[1..]);
        Seqs.SubsequenceMembers(a[1..], b[1..]);
        forall i, j | 0 <= i < j < |a|
          ensures KeyLe(a[i], a[j])
        {
          if i == 0 {
            assert a[j] == a[1..][j - 1];
            assert a[j] in b[1..];
          } else {
            assert a[i] == a[1..][i - 1] && a[j] == a[1..][j - 1];
          }
        }
      } else {
        SubsequenceKeepsSorted(a, b[1..]);
      }
    }
  }
}
