/**
 * The string operations the classifier and the record projection use:
 * lower-casing, the substring test `needle in haystack`, and `sep.join(parts)`.
 */
module Text {

  /** Lower-cases one character; only the ASCII letters A..Z are folded. */
  function LowerChar(c: char): (r: char)
    ensures 'a' <= r <= 'z' <==> 'a' <= c <= 'z' || 'A' <= c <= 'Z'
    ensures !('A' <= r <= 'Z')
    ensures 'A' <= c <= 'Z' ==> r as int - 'a' as int == c as int - 'A' as int
    ensures !('A' <= c <= 'Z') ==> r == c
  {
    if 'A' <= c <= 'Z' then (c as int + 32) as char else c
  }

  /** `s.lower()`: every character lower-cased, nothing added or removed. */
  function Lower(s: string): (r: string)
    ensures |r| == |s|
    ensures forall i :: 0 <= i < |s| ==> r[i] == LowerChar(s[i])
  {
    if s == [] then [] else [LowerChar(s[0])] + Lower(s[1..])
  }

  /** Lower-casing twice is lower-casing once. */
  lemma LowerIdempotent(s: string)
    ensures Lower(Lower(s)) == Lower(s)
  {
  }

  /** `needle` occurs in `haystack` starting at position `i`. */
  predicate OccursAt(needle: string, haystack: string, i: nat) {
    i + |needle| <= |haystack| && haystack[i..i + |needle|] == needle
  }

  lemma OccursAtShift(needle: string, haystack: string, i: nat)
    requires |haystack| > 0
    ensures OccursAt(needle, haystack[1..], i) <==> OccursAt(needle, haystack, i + 1)
  {
    if i + |needle| <= |haystack[1..]| {
      assert haystack[1..][i..i + |needle|] == haystack[i + 1..i + 1 + |needle|];
    }
  }

  /** Python's `needle in haystack` on strings: some position of `haystack` starts a copy of `needle`. */
  function Contains(haystack: string, needle: string): (r: bool)
    ensures r <==> exists i: nat :: OccursAt(needle, haystack, i)
    decreases |haystack|
  {
    if needle <= haystack then
      assert OccursAt(needle, haystack, 0);
      true
    else if haystack == [] then
      false
    else
      var r := Contains(haystack[1..], needle);
      assert r ==> exists i: nat :: OccursAt(needle, haystack, i) by {
        if r {
          var i: nat :| OccursAt(needle, haystack[1..], i);
          OccursAtShift(needle, haystack, i);
        }
      }
      assert (exists i: nat :: OccursAt(needle, haystack, i)) ==> r by {
        if exists i: nat :: OccursAt(needle, haystack, i) {
          var i: nat :| OccursAt(needle, haystack, i);
          assert i != 0;
          OccursAtShift(needle, haystack, i - 1);
        }
      }
      r
  }

  /** Python's `any(kw in haystack for kw in needles)`. */
  predicate ContainsAny(haystack: string, needles: seq<string>) {
    exists k :: 0 <= k < |needles| && Contains(haystack, needles[k])
  }

  /** An occurrence in `s` is also an occurrence, shifted, in `prefix + s`. */
  lemma OccursAfterPrefix(needle: string, prefix: string, s: string, i: nat)
    requires OccursAt(needle, s, i)
    ensures OccursAt(needle, prefix + s, |prefix| + i)
  {
    assert (prefix + s)[|prefix| + i..|prefix| + i + |needle|] == s[i..i + |needle|];
  }

  /** Where part `k` starts in `sep.join(parts)`: the parts before it, each followed by `sep`. */
  function Offset(sep: string, parts: seq<string>, k: nat): nat
    requires k <= |parts|
  {
    if k == 0 then 0 else Offset(sep, parts, k - 1) + |parts[k - 1]| + |sep|
  }

  /** Where the separator after part `k` starts. */
  function SepAt(sep: string, parts: seq<string>, k: nat): nat
    requires k < |parts|
  {
    Offset(sep, parts, k) + |parts[k]|
  }

  /** Offsets in `parts` are those in `parts[1..]`, shifted by the first part and a separator. */
  lemma {:induction false} OffsetOfTail(sep: string, parts: seq<string>, k: nat)
    requires 1 <= k <= |parts|
    ensures Offset(sep, parts, k) == |parts[0]| + |sep| + Offset(sep, parts[1..], k - 1)
    decreases k
  {
    if k > 1 {
      OffsetOfTail(sep, parts, k - 1);
      assert parts[1..][k - 2] == parts[k - 1];
    }
  }

  /** The part at position k >= 1 of `parts[0] + sep + rest` sits where it sat in `rest`, shifted. */
  lemma PartAfterPrefix(sep: string, parts: seq<string>, rest: string, k: nat)
    requires 1 <= k < |parts|
    requires OccursAt(parts[1..][k - 1], rest, Offset(sep, parts[1..], k - 1))
    ensures OccursAt(parts[k], parts[0] + sep + rest, Offset(sep, parts, k))
  {
    OffsetOfTail(sep, parts, k);
    OccursAfterPrefix(parts[k], parts[0] + sep, rest, Offset(sep, parts[1..], k - 1));
  }

  /** Likewise for the separator after part k >= 1. */
  lemma SepAfterPrefix(sep: string, parts: seq<string>, rest: string, k: nat)
    requires 1 <= k < |parts| - 1
    requires OccursAt(sep, rest, SepAt(sep, parts[1..], k - 1))
    ensures OccursAt(sep, parts[0] + sep + rest, SepAt(sep, parts, k))
  {
    OffsetOfTail(sep, parts, k);
    OccursAfterPrefix(sep, parts[0] + sep, rest, Offset(sep, parts[1..], k - 1) + |parts[k]|);
  }

  /** An occurrence at a known position is an occurrence. */
  lemma OccursContains(needle: string, haystack: string, i: nat)
    requires OccursAt(needle, haystack, i)
    ensures Contains(haystack, needle)
  {
  }

  /**
   * Python's `sep.join(parts)`: part k starts at `Offset(sep, parts, k)` and,
   * unless it is the last, is followed by `sep`; nothing else is in the
   * result, whose length is the parts' lengths plus one `sep` between each two.
   */
  function Join(sep: string, parts: seq<string>): (r: string)
    ensures parts == [] ==> r == ""
    ensures parts != [] ==> |r| + |sep| == Offset(sep, parts, |parts|)
    ensures forall k {:trigger OccursAt(parts[k], r, Offset(sep, parts, k))} ::
      0 <= k < |parts| ==> OccursAt(parts[k], r, Offset(sep, parts, k))
    ensures forall k {:trigger SepAt(sep, parts, k)} :: 0 <= k < |parts| - 1 ==> OccursAt(sep, r, SepAt(sep, parts, k))
    ensures forall k :: 0 <= k < |parts| ==> Contains(r, parts[k])
  {
    if parts == [] then ""
    else if |parts| == 1 then
      assert OccursAt(parts[0], parts[0], 0);
      OccursContains(parts[0], parts[0], 0);
      parts[0]
    else
      var tail := parts[1..];
      var rest := Join(sep, tail);
      var r := parts[0] + sep + rest;
      assert |rest| + |sep| == Offset(sep, tail, |tail|);
      assert |r| + |sep| == Offset(sep, parts, |parts|) by {
        OffsetOfTail(sep, parts, |parts|);
      }
      assert OccursAt(parts[0], r, 0) by {
        assert r[0..|parts[0]|] == parts[0];
      }
      assert OccursAt(sep, r, SepAt(sep, parts, 0)) by {
        assert r[|parts[0]|..|parts[0]| + |sep|] == sep;
      }
      assert Offset(sep, parts, 0) == 0;
      forall k | 1 <= k < |parts|
        ensures OccursAt(parts[k], r, Offset(sep, parts, k))
      {
        PartAfterPrefix(sep, parts, rest, k);
      }
      forall k | 1 <= k < |parts| - 1
        ensures OccursAt(sep, r, SepAt(sep, parts, k))
      {
        SepAfterPrefix(sep, parts, rest, k);
      }
      forall k | 0 <= k < |parts|
        ensures Contains(r, parts[k])
      {
        OccursContains(parts[k], r, Offset(sep, parts, k));
      }
      r
  }
}
