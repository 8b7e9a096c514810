/** The conflict detector, `_check_conflicts`: which stored events overlap a
    candidate event in time. */
module Conflicts {
  import opened Wrappers
  import opened Events
  import Seqs

  /** The half-open interval `[lo, hi)` meets `[Start(e), End(e))`:
      `new_start < existing_end and new_end > existing_start`. */
  predicate OverlapsSpan(lo: int, hi: int, e: Event) {
    lo < End(e) && hi > Start(e)
  }

  predicate Overlaps(a: Event, b: Event) {
    OverlapsSpan(Start(a), End(a), b)
  }

  /** The detector passes over an event when an exclusion id is given (and
      non-empty, Python's truthiness) and the event carries it. */
  predicate Skipped(exclude: Option<string>, e: Event) {
    exclude.Some? && exclude.value != "" && e.id == exclude.value
  }

  /** The events whose interval meets `[lo, hi)`. */
  function SpanClashes(lo: int, hi: int): Event -> bool {
    (e: Event) => OverlapsSpan(lo, hi, e)
  }

  /** The events the detector reports for `candidate`. */
  function ClashesWith(candidate: Event, exclude: Option<string>): Event -> bool {
    e => !Skipped(exclude, e) && Overlaps(candidate, e)
  }

  /** `_check_conflicts`: exactly the stored events, in stored order, that
      are not skipped and overlap the candidate. The stored sequence is a
      value here, so it cannot be modified. */
  function CheckConflicts(events: seq<Event>, candidate: Event, exclude: Option<string>): (r: seq<Event>)
    ensures Seqs.Selects(r, events, ClashesWith(candidate, exclude))
    ensures forall e :: e in r <==> e in events && !Skipped(exclude, e) && Overlaps(candidate, e)
    ensures exclude.None? ==> Seqs.Selects(r, events, SpanClashes(Start(candidate), End(candidate)))
  {
    Seqs.FilterSelects(ClashesWith(candidate, exclude), events);
    Seqs.Filter(ClashesWith(candidate, exclude), events)
  }

  /** The overlap test is symmetric, and intervals that only touch (one
      ends exactly when the other starts) do not overlap. */
  lemma OverlapFacts(a: Event, b: Event)
    ensures Overlaps(a, b) <==> Overlaps(b, a)
    ensures End(a) == Start(b) ==> !Overlaps(a, b) && !Overlaps(b, a)
    ensures a.duration > 0 ==> Overlaps(a, a)
  {
  }

  /** Conflict detection itself is symmetric: `b` is reported against `a`
      exactly when `a` is reported against `b`. */
  lemma {:induction false} DetectionIsSymmetric(a: Event, b: Event)
    ensures CheckConflicts([b], a, None) == [b] <==> CheckConflicts([a], b, None) == [a]
  {
    OverlapFacts(a, b);
    var ab := CheckConflicts([b], a, None);
    var ba := CheckConflicts([a], b, None);
    assert ab == [b] <==> b in ab by {
      assert |ab| <= 1 by { Seqs.SubsequenceMultiset(ab, [b]); }
      if b in ab {
        assert ab[0] == b;
      }
    }
    assert ba == [a] <==> a in ba by {
      assert |ba| <= 1 by { Seqs.SubsequenceMultiset(ba, [a]); }
      if a in ba {
        assert ba[0] == a;
      }
    }
  }

  /** No two events of `events` with different identifiers overlap. */
  ghost predicate ConflictFree(events: seq<Event>) {
    forall a, b :: a in events && b in events && a.id != b.id ==> !Overlaps(a, b)
  }
}
