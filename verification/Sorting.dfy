/**
  The stable sort that uthash/utlist.h promises, as a function on sequences, and
  what makes it a sort: it orders, it permutes, and it keeps equals in place.
  The comparison is a C comparison function: only the sign of its result matters.
 */
module Sorting {

  /** What a comparison function must satisfy for sorting by it to make sense. */
  ghost predicate TotalPreorder<T(!new)>(cmp: (T, T) -> int) {
    && (forall a, b :: cmp(a, b) <= 0 || cmp(b, a) <= 0)
    && (forall a, b, c :: cmp(a, b) <= 0 && cmp(b, c) <= 0 ==> cmp(a, c) <= 0)
  }

  ghost predicate SortedBy<T>(cmp: (T, T) -> int, s: seq<T>) {
    forall i, j | 0 <= i < j < |s| :: cmp(s[i], s[j]) <= 0
  }

  function Insert<T>(cmp: (T, T) -> int, x: T, s: seq<T>): seq<T> {
    if |s| == 0 || cmp(x, s[0]) <= 0 then [x] + s else [s[0]] + Insert(cmp, x, s[1..])
  }

  function StableSort<T>(cmp: (T, T) -> int, s: seq<T>): seq<T> {
    if |s| == 0 then [] else Insert(cmp, s[0], StableSort(cmp, s[1..]))
  }

  lemma {:induction false} InsertPermutes<T>(cmp: (T, T) -> int, x: T, s: seq<T>)
    ensures multiset(Insert(cmp, x, s)) == multiset{x} + multiset(s)
  {
    if |s| == 0 || cmp(x, s[0]) <= 0 {
    } else {
      InsertPermutes(cmp, x, s[1..]);
      assert s == [s[0]] + s[1..];
    }
  }

  lemma {:induction false} StableSortPermutes<T>(cmp: (T, T) -> int, s: seq<T>)
    ensures multiset(StableSort(cmp, s)) == multiset(s)
  {
    if |s| > 0 {
      StableSortPermutes(cmp, s[1..]);
      InsertPermutes(cmp, s[0], StableSort(cmp, s[1..]));
      assert s == [s[0]] + s[1..];
    }
  }

  lemma PrependSorts<T(!new)>(cmp: (T, T) -> int, x: T, s: seq<T>)
    requires TotalPreorder(cmp) && SortedBy(cmp, s)
    requires |s| > 0 ==> cmp(x, s[0]) <= 0
    ensures SortedBy(cmp, [x] + s)
  {
    forall j | 0 <= j < |s|
      ensures cmp(x, s[j]) <= 0
    {
      assert j > 0 ==> cmp(s[0], s[j]) <= 0;
    }
  }

  lemma {:induction false} InsertSorts<T(!new)>(cmp: (T, T) -> int, x: T, s: seq<T>)
    requires TotalPreorder(cmp) && SortedBy(cmp, s)
    ensures SortedBy(cmp, Insert(cmp, x, s))
  {
    if |s| == 0 || cmp(x, s[0]) <= 0 {
      PrependSorts(cmp, x, s);
    } else {
      var r := Insert(cmp, x, s[1..]);
      InsertSorts(cmp, x, s[1..]);
      InsertPermutes(cmp, x, s[1..]);
      assert r[0] in multiset(r);
      assert r[0] == x || r[0] in s[1..];
      PrependSorts(cmp, s[0], r);
    }
  }

  lemma {:induction false} StableSortSorts<T(!new)>(cmp: (T, T) -> int, s: seq<T>)
    requires TotalPreorder(cmp)
    ensures SortedBy(cmp, StableSort(cmp, s))
  {
    if |s| > 0 {
      StableSortSorts(cmp, s[1..]);
      InsertSorts(cmp, s[0], StableSort(cmp, s[1..]));
    }
  }

  /** The subsequence of the elements that compare equal to v. */
  ghost function Ties<T>(cmp: (T, T) -> int, v: T, s: seq<T>): seq<T> {
    if |s| == 0 then []
    else (if cmp(s[0], v) <= 0 && cmp(v, s[0]) <= 0 then [s[0]] else []) + Ties(cmp, v, s[1..])
  }

  lemma {:induction false} InsertIsStable<T(!new)>(cmp: (T, T) -> int, v: T, x: T, s: seq<T>)
    requires TotalPreorder(cmp)
    ensures Ties(cmp, v, Insert(cmp, x, s)) == Ties(cmp, v, [x] + s)
  {
    if |s| == 0 || cmp(x, s[0]) <= 0 {
    } else {
      var r := Insert(cmp, x, s[1..]);
      InsertIsStable(cmp, v, x, s[1..]);
      assert ([s[0]] + r)[1..] == r;
      assert ([x] + s)[1..] == s;
      assert ([x] + s[1..])[1..] == s[1..];
    }
  }

  /** Equal elements keep their order. */
  lemma {:induction false} StableSortIsStable<T(!new)>(cmp: (T, T) -> int, v: T, s: seq<T>)
    requires TotalPreorder(cmp)
    ensures Ties(cmp, v, StableSort(cmp, s)) == Ties(cmp, v, s)
  {
    if |s| > 0 {
      StableSortIsStable(cmp, v, s[1..]);
      InsertIsStable(cmp, v, s[0], StableSort(cmp, s[1..]));
      assert ([s[0]] + StableSort(cmp, s[1..]))[1..] == StableSort(cmp, s[1..]);
    }
  }
}
