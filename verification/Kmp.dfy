/**
  Substring search in both directions (uthash/utstring.h:157-388), after Knuth, Morris
  and Pratt. The right-to-left half is read as the left-to-right one on reversed strings.
 */
module Kmp {

  // ---- occurrences and borders ----

  predicate OccursAt(h: string, p: string, s: int) {
    0 <= s && s + |p| <= |h| && h[s..s + |p|] == p
  }

  /** The first k characters of p are also the last k of its first i. */
  predicate Border(p: string, i: int, k: int) {
    0 <= k < i <= |p| && p[..k] == p[i - k..i]
  }

  /** j is the length of the longest border of p[..i], or -1 for the empty prefix. */
  ghost predicate Longest(p: string, i: int, j: int) {
    && (j == -1 || Border(p, i, j))
    && forall k | Border(p, i, k) :: k <= j
  }

  /**
    t is the longest border of p[..i] after which p does not go on as it does after i,
    or -1; after the whole of p every border is as good.
   */
  ghost predicate Fallback(p: string, i: int, t: int) {
    && (t == -1 || (Border(p, i, t) && (i < |p| ==> p[t] != p[i])))
    && forall k | Border(p, i, k) && k > t :: i < |p| && p[k] == p[i]
  }

  ghost predicate TableUpTo(p: string, table: seq<int>, n: int) {
    n <= |p| < |table| && forall i | 0 <= i <= n :: Fallback(p, i, table[i])
  }

  function Reverse(s: string): (r: string)
    ensures |r| == |s| && forall k | 0 <= k < |s| :: r[k] == s[|s| - 1 - k]
  {
    seq(|s|, k requires 0 <= k < |s| => s[|s| - 1 - k])
  }

  lemma OccursPointwise(h: string, p: string, s: int)
    requires 0 <= s && s + |p| <= |h|
    ensures OccursAt(h, p, s) <==> forall k | 0 <= k < |p| :: h[s + k] == p[k]
  {
    if OccursAt(h, p, s) {
      forall k | 0 <= k < |p|
        ensures h[s + k] == p[k]
      {
        assert h[s..s + |p|][k] == h[s + k];
      }
    }
  }

  lemma BorderPointwise(p: string, i: int, k: int)
    requires 0 <= k < i <= |p|
    ensures Border(p, i, k) <==> forall m | 0 <= m < k :: p[m] == p[i - k + m]
  {
    if Border(p, i, k) {
      forall m | 0 <= m < k
        ensures p[m] == p[i - k + m]
      {
        assert p[..k][m] == p[i - k..i][m];
      }
    }
  }

  /** A shorter border of the same prefix is a border of the longer border. */
  lemma BorderOfBorder(p: string, i: int, j: int, k: int)
    requires Border(p, i, j) && k < j
    ensures Border(p, i, k) <==> Border(p, j, k)
  {
    if 0 <= k {
      BorderPointwise(p, i, j);
      BorderPointwise(p, i, k);
      BorderPointwise(p, j, k);
      forall m | 0 <= m < k
        ensures p[m] == p[j - k + m] <==> p[m] == p[i - k + m]
      {
        assert p[j - k + m] == p[i - j + (j - k + m)];
      }
    }
  }

  // ---- the steps of the two algorithms ----

  /** No border longer than j can be extended by p[i]. */
  ghost predicate NoneExtends(p: string, i: int, j: int) {
    0 <= i < |p| && forall k | Border(p, i, k) && k > j :: p[k] != p[i]
  }

  lemma FallBackInTable(p: string, i: int, j: int, t: int)
    requires Border(p, i, j) && i < |p| && p[i] != p[j] && NoneExtends(p, i, j) && Fallback(p, j, t)
    ensures (t == -1 || Border(p, i, t)) && NoneExtends(p, i, t)
  {
    if t != -1 {
      BorderOfBorder(p, i, j, t);
    }
    forall k | Border(p, i, k) && k > t
      ensures p[k] != p[i]
    {
      if k < j {
        BorderOfBorder(p, i, j, k);
      }
    }
  }

  lemma ExtendBorder(p: string, i: int, j: int)
    requires 0 <= i < |p| && (j == -1 || (Border(p, i, j) && p[i] == p[j])) && NoneExtends(p, i, j) && (i == 0 ==> j == -1)
    ensures Longest(p, i + 1, j + 1)
  {
    if j != -1 {
      BorderPointwise(p, i, j);
    }
    BorderPointwise(p, i + 1, j + 1);
    var next := i + 1;
    forall k | Border(p, next, k)
      ensures k <= j + 1
    {
      if k > 0 {
        BorderPointwise(p, next, k);
        BorderPointwise(p, i, k - 1);
        assert p[k - 1] == p[next - k + (k - 1)];
      }
    }
  }

  lemma SameChar(p: string, i: int, j: int, t: int)
    requires 0 < i < |p| && Longest(p, i, j) && 0 <= j && (Fallback(p, j, t) || p[i] != p[j])
    ensures Fallback(p, i, t) || p[i] != p[j]
  {
    if p[i] == p[j] {
      if t != -1 {
        BorderOfBorder(p, i, j, t);
      }
      forall k | Border(p, i, k) && k > t
        ensures p[k] == p[i]
      {
        if k < j {
          BorderOfBorder(p, i, j, k);
        }
      }
    }
  }

  lemma OtherChar(p: string, i: int, j: int)
    requires 0 < i <= |p| && Longest(p, i, j) && 0 <= j && (i < |p| ==> p[i] != p[j])
    ensures Fallback(p, i, j)
  {
  }

  /** i characters of p match before position j of h, and p occurs nowhere further left. */
  ghost predicate Matched(h: string, p: string, j: int, i: int) {
    && -1 <= i <= |p| && i <= j <= |h|
    && (i >= 0 ==> h[j - i..j] == p[..i])
    && forall s | OccursAt(h, p, s) :: s >= j - i
  }

  lemma ShiftedMatch(h: string, p: string, j: int, i: int, t: int)
    requires 0 <= i <= j <= |h| && Border(p, i, t) && h[j - i..j] == p[..i]
    ensures h[j - t..j] == p[..t]
  {
    assert h[j - t..j] == h[j - i..j][i - t..];
    assert p[i - t..i] == p[..i][i - t..];
  }

  /** An occurrence that starts within a match makes a border of what has matched. */
  lemma OccurrenceIsBorder(h: string, p: string, j: int, i: int, s: int)
    requires 0 <= i < |p| && i <= j < |h| && h[j - i..j] == p[..i] && OccursAt(h, p, s) && j - i < s <= j
    ensures Border(p, i, j - s) && p[j - s] == h[j]
  {
    var k := j - s;
    assert h[s..j] == h[j - i..j][i - k..];
    assert p[i - k..i] == p[..i][i - k..];
    assert h[s..j] == h[s..s + |p|][..k];
    assert h[s..s + |p|][k] == h[j];
  }

  lemma FallBackInSearch(h: string, p: string, j: int, i: int, t: int)
    requires Matched(h, p, j, i) && 0 <= i < |p| && j < |h| && p[i] != h[j] && Fallback(p, i, t)
    ensures Matched(h, p, j, t)
  {
    if t != -1 {
      ShiftedMatch(h, p, j, i, t);
    }
    forall s | OccursAt(h, p, s)
      ensures s >= j - t
    {
      OccursPointwise(h, p, s);
      assert h[s + i] == p[i];
      if j - i < s <= j {
        OccurrenceIsBorder(h, p, j, i, s);
      }
    }
  }

  lemma ExtendMatch(h: string, p: string, j: int, i: int)
    requires Matched(h, p, j, i) && i < |p| && j < |h| && (i > -1 ==> p[i] == h[j])
    ensures Matched(h, p, j + 1, i + 1)
  {
    if i > -1 {
      assert h[j - i..j + 1] == h[j - i..j] + [h[j]];
      assert p[..i + 1] == p[..i] + [p[i]];
    }
  }

  // ---- left to right ----

  method BuildTable(needle: string, table: array<int>)
    requires |needle| > 0 && table.Length == |needle| + 1
    modifies table
    ensures TableUpTo(needle, table[..], |needle|)
  {
    var i, j := 0, -1;
    table[0] := j;
    while i < |needle|
      invariant 0 <= i <= |needle| && Longest(needle, i, j) && (i > 0 ==> j >= 0)
      invariant TableUpTo(needle, table[..], i)
    {
      j := ExtendableBorder(needle, table, i, j);
      ExtendBorder(needle, i, j);
      i := i + 1;
      j := j + 1;
      SetEntry(needle, i, j, table);
    }
  }

  /** The inner loop: the longest border of needle[..i] that needle[i] extends, or -1. */
  method ExtendableBorder(needle: string, table: array<int>, i: nat, longest: int) returns (j: int)
    requires i < |needle| && TableUpTo(needle, table[..], i) && Longest(needle, i, longest)
    ensures j == -1 || (Border(needle, i, j) && needle[i] == needle[j])
    ensures NoneExtends(needle, i, j)
  {
    j := longest;
    while j > -1 && needle[i] != needle[j]
      invariant j == -1 || Border(needle, i, j)
      invariant NoneExtends(needle, i, j)
      decreases j
    {
      FallBackInTable(needle, i, j, table[..][j]);
      j := table[j];
    }
  }

  /** The entry for i, when j is the longest border (uthash/utstring.h:175-189). */
  method SetEntry(needle: string, i: nat, j: nat, table: array<int>)
    requires 0 < i <= |needle| < table.Length && Longest(needle, i, j) && TableUpTo(needle, table[..], i - 1)
    modifies table
    ensures TableUpTo(needle, table[..], i)
  {
    ghost var before := table[..];
    if i < |needle| {
      if needle[i] == needle[j] {
        SameChar(needle, i, j, before[j]);
        table[i] := table[j];
      } else {
        OtherChar(needle, i, j);
        table[i] := j;
      }
    } else {
      OtherChar(needle, i, j);
      table[i] := j;
    }
    assert forall k | 0 <= k < i :: table[..][k] == before[k];
  }

  /** The search proper: the leftmost occurrence, or -1 if there is none. */
  method FindWithTable(haystack: string, needle: string, table: array<int>) returns (position: int)
    requires |needle| > 0 && table.Length == |needle| + 1 && TableUpTo(needle, table[..], |needle|)
    ensures position == -1 || OccursAt(haystack, needle, position)
    ensures forall s | OccursAt(haystack, needle, s) :: 0 <= position <= s
  {
    position := -1;
    var i, j := 0, 0;
    while j < |haystack| && (|haystack| - j) + i >= |needle|
      invariant 0 <= i < |needle| && Matched(haystack, needle, j, i)
      decreases |haystack| - j
    {
      i := ExtendableMatch(haystack, needle, table, j, i);
      ExtendMatch(haystack, needle, j, i);
      i := i + 1;
      j := j + 1;
      if i >= |needle| {
        position := j - i;
        break;
      }
    }
  }

  /** The inner loop: the longest match before j that haystack[j] extends, or -1. */
  method ExtendableMatch(haystack: string, needle: string, table: array<int>, j: nat, matched: nat) returns (i: int)
    requires matched < |needle| && j < |haystack| && TableUpTo(needle, table[..], |needle|)
    requires Matched(haystack, needle, j, matched)
    ensures i < |needle| && Matched(haystack, needle, j, i) && (i > -1 ==> needle[i] == haystack[j])
  {
    i := matched;
    while i > -1 && needle[i] != haystack[j]
      invariant i < |needle| && Matched(haystack, needle, j, i)
      decreases i
    {
      FallBackInSearch(haystack, needle, j, i, table[..][i]);
      i := table[i];
    }
  }

  // ---- right to left ----

  ghost predicate BorderR(p: string, i: int, j: int) {
    Border(Reverse(p), |p| - 1 - i, |p| - 1 - j)
  }

  ghost predicate LongestR(p: string, i: int, j: int) {
    Longest(Reverse(p), |p| - 1 - i, |p| - 1 - j)
  }

  ghost predicate NoneExtendsR(p: string, i: int, j: int) {
    NoneExtends(Reverse(p), |p| - 1 - i, |p| - 1 - j)
  }

  ghost predicate FallbackR(p: string, i: int, t: int) {
    Fallback(Reverse(p), |p| - 1 - i, |p| - 1 - t)
  }

  /** The right-to-left table down to and including the entry for i, which is at i + 1. */
  ghost predicate TableDownTo(p: string, table: seq<int>, i: int) {
    -1 <= i && |p| < |table| && forall k | i < k <= |p| :: FallbackR(p, k - 1, table[k])
  }

  ghost predicate MatchedR(h: string, p: string, j: int, i: int) {
    Matched(Reverse(h), Reverse(p), |h| - 1 - j, |p| - 1 - i)
  }

  lemma FallBackInTableR(p: string, i: int, j: int, t: int)
    requires BorderR(p, i, j) && 0 <= i && p[i] != p[j] && NoneExtendsR(p, i, j) && FallbackR(p, j, t)
    ensures (t == |p| || BorderR(p, i, t)) && NoneExtendsR(p, i, t) && j < t <= |p|
  {
    FallBackInTable(Reverse(p), |p| - 1 - i, |p| - 1 - j, |p| - 1 - t);
  }

  lemma ExtendBorderR(p: string, i: int, j: int)
    requires 0 <= i < |p| && NoneExtendsR(p, i, j) && (i == |p| - 1 ==> j == |p|)
    requires j == |p| || (BorderR(p, i, j) && p[i] == p[j])
    ensures LongestR(p, i - 1, j - 1)
  {
    ExtendBorder(Reverse(p), |p| - 1 - i, |p| - 1 - j);
  }

  lemma SameCharR(p: string, i: int, j: int, t: int)
    requires 0 <= i < |p| - 1 && LongestR(p, i, j) && j < |p| && FallbackR(p, j, t) && i < j && p[i] == p[j]
    ensures FallbackR(p, i, t)
  {
    MirrorEntry(p, i, j);
    SameChar(Reverse(p), |p| - 1 - i, |p| - 1 - j, |p| - 1 - t);
  }

  lemma OtherCharR(p: string, i: int, j: int)
    requires -1 <= i < |p| - 1 && LongestR(p, i, j) && j < |p| && i < j && (i >= 0 ==> p[i] != p[j])
    ensures FallbackR(p, i, j)
  {
    MirrorEntry(p, i, j);
    OtherChar(Reverse(p), |p| - 1 - i, |p| - 1 - j);
  }

  lemma MirrorEntry(p: string, i: int, j: int)
    requires -1 <= i < j < |p|
    ensures |Reverse(p)| == |p|
    ensures i >= 0 ==> Reverse(p)[|p| - 1 - i] == p[i] && Reverse(p)[|p| - 1 - j] == p[j]
  {
  }

  method BuildTableR(needle: string, table: array<int>)
    requires |needle| > 0 && table.Length == |needle| + 1
    modifies table
    ensures TableDownTo(needle, table[..], -1)
  {
    var i := |needle| - 1;
    var j := i + 1;
    table[i + 1] := j;
    while i >= 0
      invariant -1 <= i < j <= |needle| && LongestR(needle, i, j) && (i == |needle| - 1 <==> j == |needle|)
      invariant TableDownTo(needle, table[..], i)
    {
      j := ExtendableBorderR(needle, table, i, j);
      ExtendBorderR(needle, i, j);
      i := i - 1;
      j := j - 1;
      SetEntryR(needle, i, j, table);
    }
  }

  method ExtendableBorderR(needle: string, table: array<int>, i: nat, longest: int) returns (j: int)
    requires i < longest <= |needle| && TableDownTo(needle, table[..], i) && LongestR(needle, i, longest)
    ensures i < j <= |needle| && (j == |needle| || (BorderR(needle, i, j) && needle[i] == needle[j]))
    ensures NoneExtendsR(needle, i, j) && (longest == |needle| ==> j == |needle|)
  {
    j := longest;
    while j < |needle| && needle[i] != needle[j]
      invariant i < j <= |needle| && (j == |needle| || BorderR(needle, i, j)) && longest <= j
      invariant NoneExtendsR(needle, i, j)
      decreases |needle| - j
    {
      FallBackInTableR(needle, i, j, table[..][j + 1]);
      j := table[j + 1];
    }
  }

  /** The entry for i, when j is where the longest border begins (uthash/utstring.h:215-229). */
  method SetEntryR(needle: string, i: int, j: int, table: array<int>)
    requires -1 <= i < j < |needle| < table.Length && LongestR(needle, i, j) && TableDownTo(needle, table[..], i + 1)
    modifies table
    ensures TableDownTo(needle, table[..], i)
  {
    ghost var before := table[..];
    if i >= 0 {
      if needle[i] == needle[j] {
        SameCharR(needle, i, j, before[j + 1]);
        table[i + 1] := table[j + 1];
      } else {
        OtherCharR(needle, i, j);
        table[i + 1] := j;
      }
    } else {
      OtherCharR(needle, i, j);
      table[i + 1] := j;
    }
    OneEntryMore(needle, before, table[..], i);
  }

  lemma OneEntryMore(p: string, before: seq<int>, after: seq<int>, i: int)
    requires -1 <= i && |after| == |before| && TableDownTo(p, before, i + 1)
    requires i + 1 < |after| && FallbackR(p, i, after[i + 1]) && after == before[i + 1 := after[i + 1]]
    ensures TableDownTo(p, after, i)
  {
  }

  lemma FallBackInSearchR(h: string, p: string, j: int, i: int, t: int)
    requires MatchedR(h, p, j, i) && 0 <= i < |p| && 0 <= j < |h| && p[i] != h[j] && FallbackR(p, i, t)
    ensures MatchedR(h, p, j, t) && i < t <= |p|
  {
    FallBackInSearch(Reverse(h), Reverse(p), |h| - 1 - j, |p| - 1 - i, |p| - 1 - t);
  }

  lemma ExtendMatchR(h: string, p: string, j: int, i: int)
    requires MatchedR(h, p, j, i) && 0 <= i <= |p| && 0 <= j < |h| && (i < |p| ==> p[i] == h[j])
    ensures MatchedR(h, p, j - 1, i - 1)
  {
    ExtendMatch(Reverse(h), Reverse(p), |h| - 1 - j, |p| - 1 - i);
  }

  lemma ReversedOccurrence(h: string, p: string, s: int)
    ensures OccursAt(h, p, s) <==> OccursAt(Reverse(h), Reverse(p), |h| - |p| - s)
  {
    var rh, rp, r := Reverse(h), Reverse(p), |h| - |p| - s;
    if 0 <= s && s + |p| <= |h| {
      OccursPointwise(h, p, s);
      OccursPointwise(rh, rp, r);
      if OccursAt(rh, rp, r) {
        forall k | 0 <= k < |p|
          ensures h[s + k] == p[k]
        {
          assert rh[r + (|p| - 1 - k)] == rp[|p| - 1 - k];
        }
      }
    }
  }

  /** Occurrences lie no further right than what is left to match. */
  lemma MatchBounds(h: string, p: string, j: int, i: int)
    requires MatchedR(h, p, j, i)
    ensures forall s | OccursAt(h, p, s) :: s <= j - i
    ensures i < 0 ==> OccursAt(h, p, j - i)
  {
    forall s | OccursAt(h, p, s)
      ensures s <= j - i
    {
      ReversedOccurrence(h, p, s);
    }
    ReversedOccurrence(h, p, j - i);
  }

  /** The search proper: the rightmost occurrence, or -1 if there is none. */
  method FindWithTableR(haystack: string, needle: string, table: array<int>) returns (position: int)
    requires |needle| > 0 && table.Length == |needle| + 1 && TableDownTo(needle, table[..], -1)
    ensures position == -1 || OccursAt(haystack, needle, position)
    ensures forall s | OccursAt(haystack, needle, s) :: s <= position
  {
    position := -1;
    var j := |haystack| - 1;
    var i := |needle| - 1;
    while j >= 0 && j >= i
      invariant 0 <= i < |needle| && -1 <= j < |haystack| && MatchedR(haystack, needle, j, i)
      decreases j + 1
    {
      i := ExtendableMatchR(haystack, needle, table, j, i);
      ExtendMatchR(haystack, needle, j, i);
      i := i - 1;
      j := j - 1;
      if i < 0 {
        position := j + 1;
        break;
      }
    }
    MatchBounds(haystack, needle, j, i);
  }

  /** The inner loop: the longest match after j that haystack[j] extends, or the needle's length. */
  method ExtendableMatchR(haystack: string, needle: string, table: array<int>, j: nat, matched: nat) returns (i: nat)
    requires matched < |needle| && j < |haystack| && TableDownTo(needle, table[..], -1)
    requires MatchedR(haystack, needle, j, matched)
    ensures i <= |needle| && MatchedR(haystack, needle, j, i) && (i < |needle| ==> needle[i] == haystack[j])
  {
    i := matched;
    while i < |needle| && needle[i] != haystack[j]
      invariant i <= |needle| && MatchedR(haystack, needle, j, i)
      decreases |needle| - i
    {
      FallBackInSearchR(haystack, needle, j, i, table[..][i + 1]);
      i := table[i + 1];
    }
  }

  // ---- the public searches ----

  /** A negative start counts from the end of a string of this length. */
  function From(length: nat, start: int): int {
    if start < 0 then length + start else start
  }

  lemma OccursInRest(s: string, from: nat, needle: string, k: int)
    requires from <= |s| && k >= 0
    ensures OccursAt(s[from..], needle, k) <==> OccursAt(s, needle, from + k)
  {
    if from + k + |needle| <= |s| {
      assert s[from..][k..k + |needle|] == s[from + k..from + k + |needle|];
    }
  }

  /**
    The leftmost occurrence of a non-empty needle at or after the start, -1 if there is none.
    A start before the string is out of bounds unless the needle is too long for it to matter.
   */
  method Find(s: string, start: int, needle: string) returns (position: int)
    requires From(|s|, start) >= 0 || |needle| == 0 || |s| - From(|s|, start) < |needle|
    ensures needle == "" ==> position == -1
    ensures needle != "" ==>
              && (position == -1 || (OccursAt(s, needle, position) && From(|s|, start) <= position))
              && forall k | OccursAt(s, needle, k) && From(|s|, start) <= k :: 0 <= position <= k
  {
    position := -1;
    var from := From(|s|, start);
    var room := |s| - from;
    if room >= |needle| && |needle| > 0 {
      var table := new int[|needle| + 1];
      BuildTable(needle, table);
      position := FindWithTable(s[from..], needle, table);
      forall k | from <= k
        ensures OccursAt(s[from..], needle, k - from) <==> OccursAt(s, needle, k)
      {
        OccursInRest(s, from, needle, k - from);
      }
      if position >= 0 {
        position := position + from;
      }
    }
  }

  lemma OccursInFirst(s: string, room: nat, needle: string, k: int)
    requires room <= |s|
    ensures OccursAt(s[..room], needle, k) <==> OccursAt(s, needle, k) && k + |needle| <= room
  {
    if 0 <= k && k + |needle| <= room {
      assert s[..room][k..k + |needle|] == s[k..k + |needle|];
    }
  }

  /**
    The rightmost occurrence of a non-empty needle that ends at or before the start, -1 if
    there is none. The string is the first `length` characters of its buffer, which has a
    terminator behind them: a start past the string searches what the buffer has there.
    A start past the buffer is out of bounds unless the needle is too long for it to matter.
   */
  method FindR(buffer: string, length: nat, start: int, needle: string) returns (position: int)
    requires length < |buffer|
    requires From(length, start) < |buffer| || |needle| == 0 || From(length, start) + 1 < |needle|
    ensures needle == "" ==> position == -1
    ensures needle != "" ==>
              && (position == -1 || (OccursAt(buffer, needle, position) && position + |needle| - 1 <= From(length, start)))
              && forall k | OccursAt(buffer, needle, k) && k + |needle| - 1 <= From(length, start) :: k <= position
    ensures From(length, start) < length && position != -1 ==> OccursAt(buffer[..length], needle, position)
  {
    position := -1;
    var room := From(length, start) + 1;
    if room >= |needle| && |needle| > 0 {
      var table := new int[|needle| + 1];
      BuildTableR(needle, table);
      position := FindWithTableR(buffer[..room], needle, table);
      forall k
        ensures OccursAt(buffer[..room], needle, k) <==> OccursAt(buffer, needle, k) && k + |needle| <= room
      {
        OccursInFirst(buffer, room, needle, k);
      }
      OccursInFirst(buffer, length, needle, position);
    }
  }
}
