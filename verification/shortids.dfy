/** Event identifiers of the form "evt-XXXX" (`_generate_short_id`) and the
    retry loop that makes a proposed identifier unique (`_ensure_unique_id`).
    The random source is an oracle: each draw is the four indices
    `secrets.choice` picks from the alphabet. */
module ShortIds {
  import opened Wrappers
  import opened Events

  const IdPrefix: string := "evt-"

  /** An index into the 36-character alphabet. */
  type Pick = k: int | 0 <= k < 36

  /** The four picks of one call to `_generate_short_id`. */
  type Draw = d: seq<Pick> | |d| == 4 witness [0, 0, 0, 0]

  /** Character `k` of `string.ascii_lowercase + string.digits`. */
  function IdChar(k: Pick): char {
    if k < 26 then ('a' as int + k) as char else ('0' as int + (k - 26)) as char
  }

  const IdAlphabet: string := "abcdefghijklmnopqrstuvwxyz0123456789"

  /** `IdChar` indexes the alphabet. */
  lemma {:induction false} IdCharIndexesAlphabet(k: Pick)
    ensures IdAlphabet[k] == IdChar(k)
  {
  }

  predicate IsIdChar(c: char) {
    'a' <= c <= 'z' || '0' <= c <= '9'
  }

  /** The index `secrets.choice` must have picked to produce `c`. */
  function PickOf(c: char): (k: Pick)
    requires IsIdChar(c)
    ensures IdChar(k) == c
  {
    if 'a' <= c <= 'z' then c as int - 'a' as int else 26 + (c as int - '0' as int)
  }

  /** The shape every generated identifier has: "evt-" and four characters
      from a-z0-9, eight characters in all. */
  predicate IsShortId(s: string) {
    |s| == 8 && s[..4] == IdPrefix && forall k :: 4 <= k < 8 ==> IsIdChar(s[k])
  }

  /** `_generate_short_id` with its random picks supplied. */
  function ShortId(d: Draw): (id: string)
    ensures IsShortId(id)
  {
    var suffix := [IdChar(d[0]), IdChar(d[1]), IdChar(d[2]), IdChar(d[3])];
    assert forall k :: 0 <= k < 4 ==> IsIdChar(suffix[k]);
    IdPrefix + suffix
  }

  /** The picks that produce a well-formed identifier. */
  function DrawOf(id: string): (d: Draw)
    requires IsShortId(id)
  {
    [PickOf(id[4]), PickOf(id[5]), PickOf(id[6]), PickOf(id[7])]
  }

  /** Draws and well-formed identifiers are in one-to-one correspondence, so
      there are exactly 36^4 identifiers. */
  lemma {:induction false} ShortIdRoundTrip(d: Draw, id: string)
    ensures DrawOf(ShortId(d)) == d
    ensures IsShortId(id) ==> ShortId(DrawOf(id)) == id
  {
    var s := ShortId(d);
    forall k | 0 <= k < 4
      ensures PickOf(s[4 + k]) == d[k]
    {
      assert s[4 + k] == IdChar(d[k]);
    }
    if IsShortId(id) {
      assert id == id[..4] + id[4..];
    }
  }

  /** `_ensure_unique_id`: keep the proposed identifier when no stored
      event uses it, otherwise take freshly drawn identifiers, in order,
      until one is unused. `None` means the draws supplied ran out first,
      that is, the source's loop would still be running. */
  function EnsureUniqueId(events: seq<Event>, proposed: string, redraws: seq<Draw>): (r: Option<string>)
    ensures r.Some? ==> r.value !in IdsOf(events)
    ensures proposed !in IdsOf(events) ==> r == Some(proposed)
    ensures r.Some? && r.value != proposed ==>
      exists k :: 0 <= k < |redraws| && r.value == ShortId(redraws[k]) &&
        forall j :: 0 <= j < k ==> ShortId(redraws[j]) in IdsOf(events)
    ensures r.None? <==>
      proposed in IdsOf(events) && forall k :: 0 <= k < |redraws| ==> ShortId(redraws[k]) in IdsOf(events)
    decreases |redraws|
  {
    if proposed !in IdsOf(events) then Some(proposed)
    else if |redraws| == 0 then None
    else
      var r := EnsureUniqueId(events, ShortId(redraws[0]), redraws[1..]);
      assert r.Some? && r.value != ShortId(redraws[0]) ==>
        exists k :: 0 <= k < |redraws| && r.value == ShortId(redraws[k]) &&
          forall j :: 0 <= j < k ==> ShortId(redraws[j]) in IdsOf(events) by {
        if r.Some? && r.value != ShortId(redraws[0]) {
          var k :| 0 <= k < |redraws| - 1 && r.value == ShortId(redraws[1..][k]) &&
            forall j :: 0 <= j < k ==> ShortId(redraws[1..][j]) in IdsOf(events);
          assert forall j :: 0 <= j < k + 1 ==> ShortId(redraws[j]) in IdsOf(events) by {
            forall j | 0 <= j < k + 1
              ensures ShortId(redraws[j]) in IdsOf(events)
            {
              if j > 0 {
                assert redraws[j] == redraws[1..][j - 1];
              }
            }
          }
        }
      }
      assert r.None? ==> forall k :: 0 <= k < |redraws| ==> ShortId(redraws[k]) in IdsOf(events) by {
        if r.None? {
          forall k | 0 <= k < |redraws|
            ensures ShortId(redraws[k]) in IdsOf(events)
          {
            if k > 0 {
              assert redraws[k] == redraws[1..][k - 1];
            }
          }
        }
      }
      r
  }
}
