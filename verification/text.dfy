/** The string operations the engine applies to user input: Python's
    `str.strip()`, `str.lower()` and the substring test `q in s`. */
module Text {

  /** The characters Python's `str.isspace()` accepts, which is the set
      `str.strip()` removes when called without arguments. */
  predicate IsSpace(c: char) {
    c in {' ', '\t', '\n', '\r', '\U{0B}', '\U{0C}', '\U{1C}', '\U{1D}', '\U{1E}', '\U{1F}',
          '\U{85}', '\U{A0}', '\U{1680}', '\U{2028}', '\U{2029}', '\U{202F}', '\U{205F}', '\U{3000}'}
    || '\U{2000}' <= c <= '\U{200A}'
  }

  predicate AllSpace(s: string) {
    forall i :: 0 <= i < |s| ==> IsSpace(s[i])
  }

  /** Neither end of `s` is white space. */
  predicate IsStripped(s: string) {
    |s| == 0 || (!IsSpace(s[0]) && !IsSpace(s[|s| - 1]))
  }

  function LeadingSpaces(s: string): (n: nat)
    ensures n <= |s|
    ensures AllSpace(s[..n])
    ensures n < |s| ==> !IsSpace(s[n])
    ensures AllSpace(s) ==> n == |s|
  {
    if |s| > 0 && IsSpace(s[0]) then 1 + LeadingSpaces(s[1..]) else 0
  }

  function TrailingSpaces(s: string): (n: nat)
    ensures n <= |s|
    ensures AllSpace(s[|s| - n..])
    ensures n < |s| ==> !IsSpace(s[|s| - n - 1])
  {
    if |s| > 0 && IsSpace(s[|s| - 1]) then 1 + TrailingSpaces(s[..|s| - 1]) else 0
  }

  /** `str.strip()`: the infix of `s` left after removing white space from
      both ends. */
  function Strip(s: string): (r: string)
    ensures IsStripped(r)
    ensures r == [] <==> AllSpace(s)
    ensures exists i :: OccursAt(r, s, i) && AllSpace(s[..i]) && AllSpace(s[i + |r|..])
  {
    var lead := LeadingSpaces(s);
    var t := s[lead..];
    var r := t[..|t| - TrailingSpaces(t)];
    StripFacts(s, lead, t, r);
    r
  }

  lemma StripFacts(s: string, lead: nat, t: string, r: string)
    requires lead == LeadingSpaces(s) && t == s[lead..] && r == t[..|t| - TrailingSpaces(t)]
    ensures IsStripped(r)
    ensures r == [] <==> AllSpace(s)
    ensures exists i :: OccursAt(r, s, i) && AllSpace(s[..i]) && AllSpace(s[i + |r|..])
  {
    StripPlacement(s, lead, t, r);
    StripEnds(s, lead, t, r);
    StripEmpty(s, lead, t, r);
  }

  lemma StripPlacement(s: string, lead: nat, t: string, r: string)
    requires lead == LeadingSpaces(s) && t == s[lead..] && r == t[..|t| - TrailingSpaces(t)]
    ensures OccursAt(r, s, lead) && AllSpace(s[..lead]) && AllSpace(s[lead + |r|..])
  {
    assert r == s[lead..lead + |r|];
    assert s[lead + |r|..] == t[|t| - TrailingSpaces(t)..];
  }

  lemma StripEnds(s: string, lead: nat, t: string, r: string)
    requires lead == LeadingSpaces(s) && t == s[lead..] && r == t[..|t| - TrailingSpaces(t)]
    ensures IsStripped(r)
  {
    if |r| > 0 {
      assert r[0] == s[lead];
      assert r[|r| - 1] == t[|t| - TrailingSpaces(t) - 1];
    }
  }

  lemma StripEmpty(s: string, lead: nat, t: string, r: string)
    requires lead == LeadingSpaces(s) && t == s[lead..] && r == t[..|t| - TrailingSpaces(t)]
    ensures r == [] <==> AllSpace(s)
  {
    var trail := TrailingSpaces(t);
    if r == [] {
      assert |t| - trail == 0;
      assert AllSpace(t) by {
        assert t[|t| - trail..] == t;
      }
      assert s == s[..lead] + t;
      SpaceConcat(s[..lead], t);
    }
  }

  lemma SpaceConcat(a: string, b: string)
    requires AllSpace(a) && AllSpace(b)
    ensures AllSpace(a + b)
  {
  }

  /** Text with no white space at either end strips to itself. */
  lemma StrippedIsFixed(s: string)
    requires IsStripped(s)
    ensures Strip(s) == s
  {
    assert LeadingSpaces(s) == 0;
    assert TrailingSpaces(s[0..]) == 0;
    assert s[0..] == s;
  }

  function LowerChar(c: char): char {
    if 'A' <= c <= 'Z' then (c as int + 32) as char else c
  }

  /** `str.lower()`, restricted to ASCII letters (see README). */
  function Lower(s: string): (r: string)
    ensures |r| == |s|
    ensures forall i :: 0 <= i < |r| ==> !('A' <= r[i] <= 'Z')
    ensures forall i :: 0 <= i < |r| ==> LowerChar(r[i]) == LowerChar(s[i])
    ensures forall i :: 0 <= i < |s| && !('A' <= s[i] <= 'Z') ==> r[i] == s[i]
  {
    seq(|s|, i requires 0 <= i < |s| => LowerChar(s[i]))
  }

  lemma LowerConcat(a: string, b: string)
    ensures Lower(a + b) == Lower(a) + Lower(b)
  {
  }

  /** `needle` occurs in `hay` starting at position `i`. */
  predicate OccursAt(needle: string, hay: string, i: int) {
    0 <= i <= |hay| - |needle| && hay[i..i + |needle|] == needle
  }

  /** Python's `needle in hay` for strings. */
  ghost predicate IsSubstring(needle: string, hay: string) {
    exists i :: OccursAt(needle, hay, i)
  }

  /** A left-to-right scan deciding `IsSubstring`. */
  function Contains(hay: string, needle: string): (b: bool)
    ensures b <==> IsSubstring(needle, hay)
    decreases |hay|
  {
    if |needle| > |hay| then false
    else if hay[..|needle|] == needle then
      assert OccursAt(needle, hay, 0);
      true
    else
      var b := Contains(hay[1..], needle);
      assert b ==> IsSubstring(needle, hay) by {
        if b {
          var i :| OccursAt(needle, hay[1..], i);
          assert hay[i + 1..i + 1 + |needle|] == hay[1..][i..i + |needle|];
          assert OccursAt(needle, hay, i + 1);
        }
      }
      assert IsSubstring(needle, hay) ==> b by {
        if IsSubstring(needle, hay) {
          var i :| OccursAt(needle, hay, i);
          assert i != 0;
          assert hay[1..][i - 1..i - 1 + |needle|] == hay[i..i + |needle|];
          assert OccursAt(needle, hay[1..], i - 1);
        }
      }
      b
  }
}
