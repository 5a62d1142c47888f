/**
  The singly linked list macros of uthash/utlist.h, on the heap.
  A list is a head pointer; the ghost field `nodes` is the sequence of nodes it reaches.
 */
module LinkedLists {
  import opened Sorting
  import opened Sequences

  class Node<T> {
    const val: T
    var next: Node?<T>

    constructor (val: T)
      ensures this.val == val && next == null
    {
      this.val := val;
      next := null;
    }
  }

  /** Following `next` visits s in order. */
  ghost predicate Linked<T>(s: seq<Node<T>>)
    reads s
  {
    forall k {:trigger s[k].next} | 0 <= k < |s| - 1 :: s[k].next == s[k + 1]
  }

  /** From h the chain visits exactly s and stops. */
  ghost predicate Chain<T>(h: Node?<T>, s: seq<Node<T>>)
    reads s
  {
    && Linked(s)
    && (if |s| == 0 then h == null else h == s[0] && s[|s| - 1].next == null)
  }

  ghost function Vals<T>(s: seq<Node<T>>): (v: seq<T>)
    ensures |v| == |s| && forall i | 0 <= i < |s| :: v[i] == s[i].val
  {
    seq(|s|, i requires 0 <= i < |s| => s[i].val)
  }

  /** A comparison of values, used on the nodes that hold them. */
  function OnNodes<T>(cmp: (T, T) -> int): (Node<T>, Node<T>) -> int {
    (a: Node<T>, b: Node<T>) => cmp(a.val, b.val)
  }

  // ---- bottom-up merge sort on sequences of nodes ----

  ghost function Min(a: int, b: int): int {
    if a < b then a else b
  }

  ghost function Merge<T>(cmp: (T, T) -> int, a: seq<T>, b: seq<T>): (r: seq<T>)
    ensures |r| == |a| + |b|
    decreases |a| + |b|
  {
    if |a| == 0 then b
    else if |b| == 0 then a
    else if cmp(a[0], b[0]) <= 0 then [a[0]] + Merge(cmp, a[1..], b)
    else [b[0]] + Merge(cmp, a, b[1..])
  }

  lemma Transitive<T(!new)>(cmp: (T, T) -> int, a: T, b: T, c: T)
    requires TotalPreorder(cmp)
    ensures cmp(a, b) <= 0 && cmp(b, c) <= 0 ==> cmp(a, c) <= 0
    ensures cmp(a, b) <= 0 || cmp(b, a) <= 0
    ensures cmp(b, c) <= 0 || cmp(c, b) <= 0
  {
  }

  lemma {:induction false} MergeInsert<T(!new)>(cmp: (T, T) -> int, x: Node<T>, a: seq<Node<T>>, b: seq<Node<T>>)
    requires TotalPreorder(cmp)
    ensures Merge(OnNodes(cmp), Insert(OnNodes(cmp), x, a), b) == Insert(OnNodes(cmp), x, Merge(OnNodes(cmp), a, b))
    decreases |a| + |b|
  {
    var le := OnNodes(cmp);
    if |b| == 0 {
    } else if |a| == 0 || le(x, a[0]) <= 0 {
      assert ([x] + a)[1..] == a;
      if le(x, b[0]) > 0 {
        if |a| > 0 {
          Transitive(cmp, x.val, a[0].val, b[0].val);
        }
        MergeInsert(cmp, x, a, b[1..]);
        assert Insert(le, x, a) == [x] + a;
        if |a| > 0 {
          assert Merge(le, a, b) == [b[0]] + Merge(le, a, b[1..]);
        } else {
          assert Merge(le, a, b) == [b[0]] + b[1..];
        }
      }
    } else {
      var ia := Insert(le, x, a[1..]);
      assert Insert(le, x, a) == [a[0]] + ia;
      assert ([a[0]] + ia)[1..] == ia;
      if le(a[0], b[0]) <= 0 {
        MergeInsert(cmp, x, a[1..], b);
      } else {
        Transitive(cmp, x.val, b[0].val, a[0].val);
        MergeInsert(cmp, x, a, b[1..]);
      }
    }
  }

  /** Merging two sorted neighbours sorts their concatenation, stably. */
  lemma {:induction false} MergeSorts<T(!new)>(cmp: (T, T) -> int, a: seq<Node<T>>, b: seq<Node<T>>)
    requires TotalPreorder(cmp)
    ensures Merge(OnNodes(cmp), StableSort(OnNodes(cmp), a), StableSort(OnNodes(cmp), b))
         == StableSort(OnNodes(cmp), a + b)
  {
    var le := OnNodes(cmp);
    if |a| == 0 {
      assert a + b == b;
    } else {
      assert (a + b)[1..] == a[1..] + b;
      MergeSorts(cmp, a[1..], b);
      MergeInsert(cmp, a[0], StableSort(le, a[1..]), StableSort(le, b));
    }
  }

  /** s cut into blocks of w, each block sorted. */
  ghost function SortBlocks<T>(cmp: (T, T) -> int, s: seq<T>, w: nat): seq<T>
    requires w > 0
    decreases |s|
  {
    if |s| <= w then StableSort(cmp, s)
    else StableSort(cmp, s[..w]) + SortBlocks(cmp, s[w..], w)
  }

  lemma {:induction false} SortBlocksPermutes<T>(cmp: (T, T) -> int, s: seq<T>, w: nat)
    requires w > 0
    ensures multiset(SortBlocks(cmp, s, w)) == multiset(s)
    decreases |s|
  {
    if |s| <= w {
      StableSortPermutes(cmp, s);
    } else {
      var a, b := s[..w], s[w..];
      StableSortPermutes(cmp, a);
      SortBlocksPermutes(cmp, b, w);
      assert s == a + b;
      assert multiset(StableSort(cmp, a) + SortBlocks(cmp, b, w)) == multiset(a) + multiset(b);
    }
  }

  lemma {:induction false} SortBlocksOfOne<T>(cmp: (T, T) -> int, s: seq<T>)
    ensures SortBlocks(cmp, s, 1) == s
    decreases |s|
  {
    if |s| == 1 {
      assert s[1..] == [];
      assert StableSort(cmp, s[1..]) == [];
      assert StableSort(cmp, s) == [s[0]];
    } else if |s| > 1 {
      SortBlocksOfOne(cmp, s[1..]);
      assert s[..1][1..] == [];
      assert StableSort(cmp, s[..1]) == [s[0]];
    }
  }

  /** The first run of at most w elements. */
  ghost function Run<T>(s: seq<T>, w: nat): (r: seq<T>)
    ensures |r| == Min(w, |s|) && r <= s
  {
    s[..Min(w, |s|)]
  }

  /** One pass: the runs of w are merged two by two. */
  ghost function MergePass<T>(cmp: (T, T) -> int, s: seq<T>, w: nat): seq<T>
    requires w > 0
    decreases |s|
  {
    if |s| == 0 then []
    else
      var a := Run(s, w);
      var r := s[|a|..];
      var b := Run(r, w);
      var rest := r[|b|..];
      assert |rest| == |s| - |a| - |b| < |s|;
      Merge(cmp, a, b) + MergePass(cmp, rest, w)
  }

  lemma {:induction false} LengthOfStableSort<T>(cmp: (T, T) -> int, s: seq<T>)
    ensures |StableSort(cmp, s)| == |s|
  {
    StableSortPermutes(cmp, s);
    assert |multiset(StableSort(cmp, s))| == |multiset(s)|;
  }

  lemma MergePassSplits<T>(cmp: (T, T) -> int, a: seq<T>, b: seq<T>, rest: seq<T>, w: nat)
    requires w > 0 && 0 < |a| <= w && |b| <= w
    requires |a| < w ==> |b| == 0
    requires |b| < w ==> |rest| == 0
    ensures MergePass(cmp, a + b + rest, w) == Merge(cmp, a, b) + MergePass(cmp, rest, w)
  {
    var t := a + b + rest;
    assert Run(t, w) == a && Run(t[|a|..], w) == b && t[|a|..][|b|..] == rest;
  }

  /** What one round of the inner loop does to two sorted blocks. */
  lemma PassOnPair<T(!new)>(cmp: (T, T) -> int, x: seq<Node<T>>, y: seq<Node<T>>, v: seq<Node<T>>, w: nat)
    requires w > 0 && TotalPreorder(cmp)
    requires 0 < |x| <= w && |y| <= w
    requires |x| < w ==> |y| == 0
    requires |y| < w ==> |v| == 0
    ensures MergePass(OnNodes(cmp), StableSort(OnNodes(cmp), x) + StableSort(OnNodes(cmp), y) + v, w)
         == StableSort(OnNodes(cmp), x + y) + MergePass(OnNodes(cmp), v, w)
  {
    var le := OnNodes(cmp);
    LengthOfStableSort(le, x);
    LengthOfStableSort(le, y);
    MergeSorts(cmp, x, y);
    MergePassSplits(le, StableSort(le, x), StableSort(le, y), v, w);
  }

  lemma SortBlocksSplits<T>(cmp: (T, T) -> int, s: seq<T>, w: nat)
    requires w > 0
    ensures var x := s[..Min(w, |s|)];
            var r := s[|x|..];
            var y := r[..Min(w, |r|)];
            SortBlocks(cmp, s, w) == StableSort(cmp, x) + StableSort(cmp, y) + SortBlocks(cmp, r[|y|..], w)
  {
    var x := s[..Min(w, |s|)];
    var r := s[|x|..];
    var y := r[..Min(w, |r|)];
    if |s| <= w {
      assert x == s && r == [] && y == [] && r[|y|..] == [];
    } else if |r| <= w {
      assert y == r && r[|y|..] == [];
    } else {
      var a, b, c := StableSort(cmp, x), StableSort(cmp, y), SortBlocks(cmp, r[|y|..], w);
      assert SortBlocks(cmp, r, w) == b + c;
      assert SortBlocks(cmp, s, w) == a + (b + c);
      Reassociate(a, b, c);
    }
  }

  lemma SortBlocksOfDouble<T>(cmp: (T, T) -> int, x: seq<T>, y: seq<T>, v: seq<T>, w: nat)
    requires w > 0
    requires 0 < |x| <= w && |y| <= w
    requires |x| < w ==> |y| == 0
    requires |y| < w ==> |v| == 0
    ensures SortBlocks(cmp, x + y + v, 2 * w) == StableSort(cmp, x + y) + SortBlocks(cmp, v, 2 * w)
  {
    var s := x + y + v;
    if |s| <= 2 * w {
      assert |v| == 0;
      assert s == x + y;
    } else {
      assert s[..2 * w] == x + y && s[2 * w..] == v;
    }
  }

  /** A pass over sorted blocks of w leaves sorted blocks of 2 * w. */
  lemma {:induction false} PassDoublesBlocks<T(!new)>(cmp: (T, T) -> int, s: seq<Node<T>>, w: nat)
    requires w > 0 && TotalPreorder(cmp)
    ensures MergePass(OnNodes(cmp), SortBlocks(OnNodes(cmp), s, w), w) == SortBlocks(OnNodes(cmp), s, 2 * w)
    decreases |s|
  {
    if |s| > 0 {
      var le := OnNodes(cmp);
      var x := s[..Min(w, |s|)];
      var r := s[|x|..];
      var y := r[..Min(w, |r|)];
      var v := r[|y|..];
      assert s == x + y + v;
      SortBlocksSplits(le, s, w);
      PassDoublesBlocks(cmp, v, w);
      PassOnPair(cmp, x, y, SortBlocks(le, v, w), w) by {
        if |y| < w {
          assert v == [];
        }
      }
      SortBlocksOfDouble(le, x, y, v, w);
    }
  }

  /** Sorting nodes by their values is sorting the values. */
  lemma {:induction false} InsertOnNodes<T>(cmp: (T, T) -> int, x: Node<T>, s: seq<Node<T>>)
    ensures Vals(Insert(OnNodes(cmp), x, s)) == Insert(cmp, x.val, Vals(s))
  {
    if |s| == 0 || cmp(x.val, s[0].val) <= 0 {
    } else {
      InsertOnNodes(cmp, x, s[1..]);
      assert Vals(s)[1..] == Vals(s[1..]);
    }
  }

  lemma {:induction false} SortOnNodes<T>(cmp: (T, T) -> int, s: seq<Node<T>>)
    ensures Vals(StableSort(OnNodes(cmp), s)) == StableSort(cmp, Vals(s))
  {
    if |s| > 0 {
      SortOnNodes(cmp, s[1..]);
      InsertOnNodes(cmp, s[0], StableSort(OnNodes(cmp), s[1..]));
      assert Vals(s)[1..] == Vals(s[1..]);
    }
  }

  // ---- the same algorithm on the heap ----

  ghost predicate Apart<T>(a: seq<Node<T>>, b: seq<Node<T>>) {
    forall i, j | 0 <= i < |a| && 0 <= j < |b| :: a[i] != b[j]
  }

  ghost predicate Within<T>(s: seq<Node<T>>, all: set<Node<T>>) {
    forall i | 0 <= i < |s| :: s[i] in all
  }

  /**
    Between two steps of a merge the nodes are in three places: already linked
    behind `list`, left in the first run, or left from `q` on.
   */
  ghost predicate Merging<T>(list: Node?<T>, tail: Node?<T>, p: Node?<T>, q: Node?<T>,
                             out: seq<Node<T>>, ps: seq<Node<T>>, qs: seq<Node<T>>, all: set<Node<T>>)
    reads all
  {
    exists rest :: rest == qs && MergingInto(list, tail, p, q, out, ps, rest, all)
  }

  ghost predicate MergingInto<T>(list: Node?<T>, tail: Node?<T>, p: Node?<T>, q: Node?<T>,
                                 out: seq<Node<T>>, ps: seq<Node<T>>, qs: seq<Node<T>>, all: set<Node<T>>)
    reads all
  {
    && Within(out, all) && Within(ps, all) && Within(qs, all)
    && Distinct(out) && Distinct(ps) && Distinct(qs)
    && Apart(out, ps) && Apart(out, qs) && Apart(ps, qs)
    && Linked(out) && Linked(ps) && Chain(q, qs)
    && (|ps| > 0 ==> p == ps[0])
    && (if |out| == 0 then list == null && tail == null else list == out[0] && tail == out[|out| - 1])
  }

  /** Links node e behind the tail (uthash/utlist.h:147-152). */
  method Attach<T>(list: Node?<T>, tail: Node?<T>, e: Node<T>, ghost out: seq<Node<T>>, ghost all: set<Node<T>>)
    returns (list': Node?<T>, tail': Node<T>)
    requires Within(out, all) && Distinct(out) && Linked(out) && e !in out
    requires if |out| == 0 then list == null && tail == null else list == out[0] && tail == out[|out| - 1]
    modifies if tail == null then {} else {tail}
    ensures Linked(out + [e]) && list' == (out + [e])[0] && tail' == e
    ensures tail != null ==> tail.next == e
  {
    if tail != null {
      tail.next := e;
      list' := list;
    } else {
      list' := e;
    }
    tail' := e;
    ghost var s := out + [e];
    forall k | 0 <= k < |s| - 1
      ensures s[k].next == s[k + 1]
    {
      assert s[k] == out[k];
    }
  }

  /** The merge takes the head of the first run. */
  method TakeFirst<T>(list: Node?<T>, tail: Node?<T>, p: Node<T>, q: Node?<T>,
                      ghost out: seq<Node<T>>, ghost ps: seq<Node<T>>, ghost qs: seq<Node<T>>, ghost all: set<Node<T>>)
    returns (list': Node?<T>, tail': Node?<T>, p': Node?<T>)
    requires Merging(list, tail, p, q, out, ps, qs, all) && |ps| > 0
    modifies all
    ensures Merging(list', tail', p', q, out + [p], ps[1..], qs, all)
  {
    p' := p.next;
    list', tail' := Attach(list, tail, p, out, all);
    assert MergingInto(list', tail', p', q, out + [p], ps[1..], qs, all);
  }

  /** The merge takes the head of the second run. */
  method TakeSecond<T>(list: Node?<T>, tail: Node?<T>, ghost p: Node?<T>, q: Node<T>,
                       ghost out: seq<Node<T>>, ghost ps: seq<Node<T>>, ghost qs: seq<Node<T>>, ghost all: set<Node<T>>)
    returns (list': Node?<T>, tail': Node?<T>, q': Node?<T>)
    requires Merging(list, tail, p, q, out, ps, qs, all)
    modifies all
    ensures Merging(list', tail', p, q', out + [q], ps, qs[1..], all)
  {
    q' := q.next;
    list', tail' := Attach(list, tail, q, out, all);
    assert MergingInto(list', tail', p, q', out + [q], ps, qs[1..], all);
  }

  /** Merges the run of psize nodes at p with the run of at most insize nodes at q. */
  method MergeRuns<T(!new)>(cmp: (T, T) -> int, list0: Node?<T>, tail0: Node?<T>, p0: Node?<T>, psize0: nat,
                            q0: Node?<T>, insize: nat,
                            ghost out0: seq<Node<T>>, ghost ps0: seq<Node<T>>, ghost qs0: seq<Node<T>>,
                            ghost all: set<Node<T>>)
    returns (list: Node?<T>, tail: Node?<T>, q: Node?<T>, ghost out: seq<Node<T>>, ghost qs: seq<Node<T>>)
    requires Merging(list0, tail0, p0, q0, out0, ps0, qs0, all) && |ps0| == psize0
    modifies all
    ensures Merging(list, tail, null, q, out, [], qs, all)
    ensures out == out0 + Merge(OnNodes(cmp), ps0, Run(qs0, insize))
    ensures qs == qs0[Min(insize, |qs0|)..]
  {
    var p, psize, qsize := p0, psize0, insize;
    list, tail, q := list0, tail0, q0;
    ghost var ps := ps0;
    out, qs := out0, qs0;
    ghost var goal := ToMerge(cmp, out0, ps0, qs0, insize);
    while psize > 0 || (qsize > 0 && q != null)
      invariant Merging(list, tail, p, q, out, ps, qs, all) && |ps| == psize
      invariant ToMerge(cmp, out, ps, qs, qsize) == goal
      invariant qs[Min(qsize, |qs|)..] == qs0[Min(insize, |qs0|)..]
      decreases psize + |qs|
    {
      list, tail, p, psize, q, qsize, out, ps, qs := MergeOne(cmp, list, tail, p, psize, q, qsize, out, ps, qs, all);
    }
    assert Run(qs, qsize) == [] && out + [] == out;
    assert MergingInto(list, tail, null, q, out, [], qs, all);
  }

  /** What is still to be merged, after what has been. */
  ghost function ToMerge<T>(cmp: (T, T) -> int, out: seq<Node<T>>, ps: seq<Node<T>>, qs: seq<Node<T>>, qsize: nat): seq<Node<T>> {
    out + Merge(OnNodes(cmp), ps, Run(qs, qsize))
  }

  lemma ToMergeFirst<T>(cmp: (T, T) -> int, out: seq<Node<T>>, ps: seq<Node<T>>, qs: seq<Node<T>>, qsize: nat)
    requires |ps| > 0 && (qsize == 0 || |qs| == 0 || cmp(ps[0].val, qs[0].val) <= 0)
    ensures ToMerge(cmp, out + [ps[0]], ps[1..], qs, qsize) == ToMerge(cmp, out, ps, qs, qsize)
  {
    MergeTakesFirst(OnNodes(cmp), out, ps, Run(qs, qsize));
  }

  lemma ToMergeSecond<T>(cmp: (T, T) -> int, out: seq<Node<T>>, ps: seq<Node<T>>, qs: seq<Node<T>>, qsize: nat)
    requires |qs| > 0 && qsize > 0 && (|ps| == 0 || cmp(ps[0].val, qs[0].val) > 0)
    ensures ToMerge(cmp, out + [qs[0]], ps, qs[1..], qsize - 1) == ToMerge(cmp, out, ps, qs, qsize)
  {
    RunTakesOne(qs, qsize);
    MergeTakesSecond(OnNodes(cmp), out, ps, Run(qs, qsize));
  }

  method MergeFirst<T>(cmp: (T, T) -> int, list: Node?<T>, tail: Node?<T>, p: Node<T>, q: Node?<T>, ghost qsize: nat,
                       ghost out: seq<Node<T>>, ghost ps: seq<Node<T>>, ghost qs: seq<Node<T>>, ghost all: set<Node<T>>)
    returns (list': Node?<T>, tail': Node?<T>, p': Node?<T>)
    requires Merging(list, tail, p, q, out, ps, qs, all) && |ps| > 0
    requires qsize == 0 || q == null || cmp(p.val, q.val) <= 0
    modifies all
    ensures Merging(list', tail', p', q, out + [p], ps[1..], qs, all)
    ensures ToMerge(cmp, out + [p], ps[1..], qs, qsize) == ToMerge(cmp, out, ps, qs, qsize)
  {
    ToMergeFirst(cmp, out, ps, qs, qsize);
    list', tail', p' := TakeFirst(list, tail, p, q, out, ps, qs, all);
  }

  method MergeSecond<T>(cmp: (T, T) -> int, list: Node?<T>, tail: Node?<T>, ghost p: Node?<T>, q: Node<T>, ghost qsize: nat,
                        ghost out: seq<Node<T>>, ghost ps: seq<Node<T>>, ghost qs: seq<Node<T>>, ghost all: set<Node<T>>)
    returns (list': Node?<T>, tail': Node?<T>, q': Node?<T>)
    requires Merging(list, tail, p, q, out, ps, qs, all) && qsize > 0
    requires |ps| == 0 || (p != null && cmp(p.val, q.val) > 0)
    modifies all
    ensures |qs| > 0 && Merging(list', tail', p, q', out + [q], ps, qs[1..], all)
    ensures ToMerge(cmp, out + [q], ps, qs[1..], qsize - 1) == ToMerge(cmp, out, ps, qs, qsize)
    ensures qs[1..][Min(qsize - 1, |qs| - 1)..] == qs[Min(qsize, |qs|)..]
  {
    ToMergeSecond(cmp, out, ps, qs, qsize);
    RunTakesOne(qs, qsize);
    list', tail', q' := TakeSecond(list, tail, p, q, out, ps, qs, all);
  }

  /** The lesser head, or the only one, goes behind the tail (uthash/utlist.h:133-152). */
  method MergeOne<T(!new)>(cmp: (T, T) -> int, list: Node?<T>, tail: Node?<T>, p: Node?<T>, psize: nat, q: Node?<T>, qsize: nat,
                           ghost out: seq<Node<T>>, ghost ps: seq<Node<T>>, ghost qs: seq<Node<T>>, ghost all: set<Node<T>>)
    returns (list': Node?<T>, tail': Node?<T>, p': Node?<T>, psize': nat, q': Node?<T>, qsize': nat,
             ghost out': seq<Node<T>>, ghost ps': seq<Node<T>>, ghost qs': seq<Node<T>>)
    requires Merging(list, tail, p, q, out, ps, qs, all) && |ps| == psize && (psize > 0 || (qsize > 0 && q != null))
    modifies all
    ensures Merging(list', tail', p', q', out', ps', qs', all) && |ps'| == psize' && psize' + |qs'| < psize + |qs|
    ensures ToMerge(cmp, out', ps', qs', qsize') == ToMerge(cmp, out, ps, qs, qsize)
    ensures qs'[Min(qsize', |qs'|)..] == qs[Min(qsize, |qs|)..]
  {
    p', psize', q', qsize', ps', qs' := p, psize, q, qsize, ps, qs;
    if psize > 0 && (qsize == 0 || q == null || cmp(p.val, q.val) <= 0) {
      list', tail', p' := MergeFirst(cmp, list, tail, p, q, qsize, out, ps, qs, all);
      out', ps', psize' := out + [p], ps[1..], psize - 1;
    } else {
      list', tail', q' := MergeSecond(cmp, list, tail, p, q, qsize, out, ps, qs, all);
      out', qs', qsize' := out + [q], qs[1..], qsize - 1;
    }
  }

  lemma MergeTakesFirst<T>(cmp: (T, T) -> int, out: seq<T>, a: seq<T>, b: seq<T>)
    requires |a| > 0 && (|b| == 0 || cmp(a[0], b[0]) <= 0)
    ensures out + Merge(cmp, a, b) == (out + [a[0]]) + Merge(cmp, a[1..], b)
  {
    var rest := Merge(cmp, a[1..], b);
    assert Merge(cmp, a, b) == [a[0]] + rest;
    Reassociate(out, [a[0]], rest);
  }

  lemma MergeTakesSecond<T>(cmp: (T, T) -> int, out: seq<T>, a: seq<T>, b: seq<T>)
    requires |b| > 0 && (|a| == 0 || cmp(a[0], b[0]) > 0)
    ensures out + Merge(cmp, a, b) == (out + [b[0]]) + Merge(cmp, a, b[1..])
  {
    var rest := Merge(cmp, a, b[1..]);
    assert Merge(cmp, a, b) == [b[0]] + rest;
    Reassociate(out, [b[0]], rest);
  }

  lemma RunTakesOne<T>(qs: seq<T>, qsize: nat)
    requires |qs| > 0 && qsize > 0
    ensures Run(qs, qsize) != [] && Run(qs, qsize)[0] == qs[0] && Run(qs, qsize)[1..] == Run(qs[1..], qsize - 1)
    ensures qs[Min(qsize, |qs|)..] == qs[1..][Min(qsize - 1, |qs[1..]|)..]
  {
  }

  /** Steps over the first run: psize nodes, at most insize (uthash/utlist.h:125-131). */
  method CutRun<T>(p: Node<T>, insize: nat, ghost s: seq<Node<T>>)
    returns (q: Node?<T>, psize: nat)
    requires Chain(p, s) && insize > 0
    ensures psize == Min(insize, |s|) && Chain(q, s[psize..])
  {
    q, psize := p, 0;
    for i := 0 to insize
      invariant psize == i < |s| && q == s[i]
    {
      psize := psize + 1;
      q := q.next;
      if q == null {
        break;
      }
    }
  }

  lemma Reassociate<T>(a: seq<T>, b: seq<T>, c: seq<T>)
    ensures a + (b + c) == a + b + c
  {
  }

  /** The rest of the list seen as a first run and what comes after it. */
  lemma CutMerging<T>(list: Node?<T>, tail: Node?<T>, p: Node<T>, q: Node?<T>,
                      out: seq<Node<T>>, rest: seq<Node<T>>, k: nat, all: set<Node<T>>)
    requires Merging(list, tail, null, p, out, [], rest, all) && k <= |rest| && Chain(q, rest[k..])
    ensures Merging(list, tail, p, q, out, rest[..k], rest[k..], all)
  {
    var ps := rest[..k];
    forall i | 0 <= i < |ps| - 1
      ensures ps[i].next == ps[i + 1]
    {
      assert ps[i] == rest[i] && ps[i + 1] == rest[i + 1];
    }
    assert MergingInto(list, tail, p, q, out, ps, rest[k..], all);
  }

  lemma PassTakesTwoRuns<T>(cmp: (T, T) -> int, out: seq<T>, rest: seq<T>, w: nat)
    requires w > 0 && |rest| > 0
    ensures var a := Run(rest, w);
            var r := rest[|a|..];
            var b := Run(r, w);
            && out + MergePass(cmp, rest, w) == (out + Merge(cmp, a, b)) + MergePass(cmp, r[Min(w, |r|)..], w)
            && |a| + |b| == Min(2 * w, |rest|)
  {
    var a := Run(rest, w);
    var r := rest[|a|..];
    var b := Run(r, w);
    var m, more := Merge(cmp, a, b), MergePass(cmp, r[|b|..], w);
    assert MergePass(cmp, rest, w) == m + more;
    Reassociate(out, m, more);
  }

  /** Cuts the next two runs off and merges them (uthash/utlist.h:124-154). */
  method Round<T(!new)>(cmp: (T, T) -> int, list: Node?<T>, tail: Node?<T>, p: Node<T>, insize: nat,
                        ghost out: seq<Node<T>>, ghost rest: seq<Node<T>>, ghost all: set<Node<T>>)
    returns (list': Node?<T>, tail': Node?<T>, p': Node?<T>, ghost out': seq<Node<T>>, ghost rest': seq<Node<T>>)
    requires Merging(list, tail, null, p, out, [], rest, all) && insize > 0
    modifies all
    ensures Merging(list', tail', null, p', out', [], rest', all)
    ensures out' + MergePass(OnNodes(cmp), rest', insize) == out + MergePass(OnNodes(cmp), rest, insize)
    ensures |out'| == |out| + Min(2 * insize, |rest|) && |out'| + |rest'| == |out| + |rest|
  {
    ghost var ps := Run(rest, insize);
    ghost var qs := rest[|ps|..];
    var q, psize := CutRun(p, insize, rest);
    CutMerging(list, tail, p, q, out, rest, psize, all);
    PassTakesTwoRuns(OnNodes(cmp), out, rest, insize);
    list', tail', p', out', rest' := MergeRuns(cmp, list, tail, p, psize, q, insize, out, ps, qs, all);
  }

  /** One turn of the outer loop of LL_SORT2 (uthash/utlist.h:119-158). */
  method Pass<T(!new)>(cmp: (T, T) -> int, head: Node<T>, insize: nat, ghost nodes: seq<Node<T>>, ghost all: set<Node<T>>)
    returns (list: Node?<T>, nmerges: nat, ghost out: seq<Node<T>>)
    requires Chain(head, nodes) && Distinct(nodes) && Within(nodes, all) && insize > 0
    modifies all
    ensures Chain(list, out) && Distinct(out) && Within(out, all)
    ensures out == MergePass(OnNodes(cmp), nodes, insize) && |out| == |nodes|
    ensures nmerges <= 1 <==> |nodes| <= 2 * insize
  {
    var p: Node?<T>, tail: Node?<T> := head, null;
    list, nmerges, out := null, 0, [];
    ghost var rest := nodes;
    ghost var goal := MergePass(OnNodes(cmp), nodes, insize);
    assert out + goal == goal;
    assert MergingInto(list, tail, null, p, out, [], rest, all);
    while p != null
      invariant Merging(list, tail, null, p, out, [], rest, all)
      invariant out + MergePass(OnNodes(cmp), rest, insize) == goal
      invariant |out| + |rest| == |nodes|
      invariant nmerges == 0 ==> |out| == 0
      invariant nmerges == 1 ==> 0 < |out| <= 2 * insize && (|rest| > 0 ==> |out| == 2 * insize)
      invariant nmerges > 1 ==> |nodes| > 2 * insize
      decreases |rest|
    {
      nmerges := nmerges + 1;
      list, tail, p, out, rest := Round(cmp, list, tail, p, insize, out, rest, all);
    }
    assert out + [] == out;
    Terminate(list, tail, out, all);
  }

  /** Ends the relinked list (uthash/utlist.h:156-158). */
  method Terminate<T>(ghost list: Node?<T>, tail: Node?<T>, ghost out: seq<Node<T>>, ghost all: set<Node<T>>)
    requires Merging(list, tail, null, null, out, [], [], all)
    modifies all
    ensures Chain(list, out)
  {
    if tail != null {
      tail.next := null;
    }
  }

  /**
    LL_SORT2 (uthash/utlist.h:108-165): the nodes are relinked, none is lost or
    duplicated, and their order becomes that of the stable sort.
   */
  method SortChain<T(!new)>(cmp: (T, T) -> int, head: Node?<T>, ghost nodes: seq<Node<T>>, ghost all: set<Node<T>>)
    returns (list: Node?<T>, ghost sorted: seq<Node<T>>)
    requires TotalPreorder(cmp)
    requires Chain(head, nodes) && Distinct(nodes) && Within(nodes, all)
    modifies all
    ensures Chain(list, sorted) && Distinct(sorted) && Within(sorted, all)
    ensures sorted == StableSort(OnNodes(cmp), nodes)
  {
    list, sorted := head, nodes;
    if list != null {
      ghost var le := OnNodes(cmp);
      var insize, looping := 1, true;
      SortBlocksOfOne(le, nodes);
      while looping
        invariant insize > 0 && |sorted| == |nodes| > 0
        invariant Chain(list, sorted) && Distinct(sorted) && Within(sorted, all)
        invariant sorted == SortBlocks(le, nodes, insize)
        invariant !looping ==> |nodes| <= insize
        decreases looping, |nodes| - insize
      {
        list, looping, sorted := Turn(cmp, list, insize, nodes, sorted, all);
        insize := insize * 2;
      }
    }
  }

  /** A pass doubles the sorted blocks; it was the last if it made at most one merge. */
  method Turn<T(!new)>(cmp: (T, T) -> int, head: Node<T>, insize: nat, ghost nodes: seq<Node<T>>, ghost sorted: seq<Node<T>>,
                       ghost all: set<Node<T>>)
    returns (list: Node?<T>, looping: bool, ghost out: seq<Node<T>>)
    requires TotalPreorder(cmp) && insize > 0
    requires Chain(head, sorted) && Distinct(sorted) && Within(sorted, all) && sorted == SortBlocks(OnNodes(cmp), nodes, insize)
    modifies all
    ensures Chain(list, out) && Distinct(out) && Within(out, all) && out == SortBlocks(OnNodes(cmp), nodes, 2 * insize)
    ensures |out| == |sorted| && (looping <==> |sorted| > 2 * insize)
  {
    PassDoublesBlocks(cmp, nodes, insize);
    var nmerges;
    list, nmerges, out := Pass(cmp, head, insize, sorted, all);
    looping := nmerges > 1;
  }

  // ---- the list object ----

  /** s without the first occurrence of v. */
  ghost function WithoutFirst<T>(s: seq<T>, v: T): seq<T> {
    if |s| == 0 then [] else if s[0] == v then s[1..] else [s[0]] + WithoutFirst(s[1..], v)
  }

  lemma {:induction false} WithoutRemovesOne<T>(s: seq<T>, v: T)
    ensures multiset(WithoutFirst(s, v)) == multiset(s) - multiset{v}
  {
    if |s| > 0 {
      assert s == [s[0]] + s[1..];
      if s[0] != v {
        WithoutRemovesOne(s[1..], v);
      }
    }
  }

  lemma {:induction false} WithoutAt<T>(s: seq<T>, v: T, i: nat)
    requires i < |s| && s[i] == v && v !in s[..i]
    ensures WithoutFirst(s, v) == s[..i] + s[i + 1..]
  {
    if i > 0 {
      assert s[0] in s[..i];
      assert s[..i] == [s[0]] + s[1..][..i - 1];
      WithoutAt(s[1..], v, i - 1);
    }
  }

  lemma {:induction false} WithoutAbsent<T>(s: seq<T>, v: T)
    requires v !in s
    ensures WithoutFirst(s, v) == s
  {
    if |s| > 0 {
      WithoutAbsent(s[1..], v);
    }
  }

  lemma ValsWithout<T>(s: seq<Node<T>>, i: nat)
    requires i < |s|
    ensures Vals(s[..i] + s[i + 1..]) == Vals(s)[..i] + Vals(s)[i + 1..]
  {
  }

  lemma SortKeepsNodes<T>(cmp: (T, T) -> int, s: seq<Node<T>>)
    ensures multiset(StableSort(OnNodes(cmp), s)) == multiset(s)
    ensures forall n | n in StableSort(OnNodes(cmp), s) :: n in s
  {
    StableSortPermutes(OnNodes(cmp), s);
    forall n | n in StableSort(OnNodes(cmp), s)
      ensures n in s
    {
      assert n in multiset(StableSort(OnNodes(cmp), s));
    }
  }

  class LinkedList<T(==, !new)> {
    var head: Node?<T>
    ghost var nodes: seq<Node<T>>
    ghost var Repr: set<object>

    ghost predicate Valid()
      reads this, Repr
      ensures Valid() ==> this in Repr
    {
      && this in Repr
      && (forall n | n in nodes :: n in Repr)
      && Chain(head, nodes) && Distinct(nodes)
    }

    ghost function Contents(): seq<T>
      reads this
    {
      Vals(nodes)
    }

    constructor ()
      ensures Valid() && fresh(Repr) && Contents() == []
    {
      head, nodes, Repr := null, [], {this};
    }

    /** The head is set to NULL; the nodes are left to themselves. */
    method Clear()
      requires Valid()
      modifies Repr
      ensures Valid() && Repr == old(Repr) && Contents() == []
    {
      head, nodes := null, [];
    }

    /** LL_APPEND2 (uthash/utlist.h:336-347): a new node goes behind the nodes there are. */
    method Append(v: T)
      requires Valid()
      modifies Repr
      ensures Valid() && fresh(Repr - old(Repr))
      ensures Contents() == old(Contents()) + [v]
      ensures |nodes| == |old(nodes)| + 1 && nodes[..|old(nodes)|] == old(nodes) && fresh(nodes[|old(nodes)|])
    {
      var add := new Node(v);
      if head != null {
        var tmp := head;
        ghost var i := 0;
        while tmp.next != null
          invariant 0 <= i < |nodes| && tmp == nodes[i]
          decreases |nodes| - i
        {
          tmp, i := tmp.next, i + 1;
        }
        tmp.next := add;
      } else {
        head := add;
      }
      nodes, Repr := nodes + [add], Repr + {add};
    }

    /**
      LL_DELETE2 (uthash/utlist.h:352-366), on the i-th node or, if i is their number, on a
      node that is not in the list. The macro follows the head, so there must be one.
     */
    method Delete(del: Node<T>, ghost i: nat)
      requires Valid() && nodes != [] && IsAt(del, i)
      modifies Repr
      ensures Valid() && Repr == old(Repr)
      ensures nodes == if i < |old(nodes)| then old(nodes)[..i] + old(nodes)[i + 1..] else old(nodes)
    {
      if head == del {
        head := head.next;
      } else {
        var tmp := FindBefore(del, i);
        if tmp.next != null {
          tmp.next := del.next;
        }
      }
      nodes := if i < |nodes| then nodes[..i] + nodes[i + 1..] else nodes;
    }

    ghost predicate IsAt(n: Node<T>, i: nat)
      reads this
    {
      if i < |nodes| then nodes[i] == n else i == |nodes| && n !in nodes
    }

    /** The node before, or the last one (uthash/utlist.h:358-361). */
    method FindBefore(del: Node<T>, ghost i: nat) returns (tmp: Node<T>)
      requires Valid() && nodes != [] && IsAt(del, i) && head != del
      ensures i > 0 && tmp == nodes[i - 1] && (i == |nodes| <==> tmp.next == null)
    {
      tmp := head;
      ghost var k := 0;
      while tmp.next != null && tmp.next != del
        invariant 0 <= k < i && tmp == nodes[k]
        decreases i - k
      {
        tmp, k := tmp.next, k + 1;
      }
    }

    /** Finds the first node holding v and deletes it (src/dobj/reply_waiter.c:27-34). */
    method RemoveFirst(v: T)
      requires Valid()
      modifies Repr
      ensures Valid() && Repr == old(Repr)
      ensures Contents() == WithoutFirst(old(Contents()), v)
    {
      var n, i := FindFirst(v);
      if n != null {
        WithoutAt(Contents(), v, i);
        ValsWithout(nodes, i);
        Delete(n, i);
      } else {
        WithoutAbsent(Contents(), v);
      }
    }

    /** LL_FOREACH until a node holds v. */
    method FindFirst(v: T) returns (n: Node?<T>, ghost i: nat)
      requires Valid()
      ensures n == null ==> v !in Contents()
      ensures n != null ==> i < |nodes| && nodes[i] == n && Contents()[i] == v && v !in Contents()[..i]
    {
      n, i := head, 0;
      while n != null
        invariant 0 <= i <= |nodes| && (if i < |nodes| then n == nodes[i] else n == null)
        invariant v !in Contents()[..i]
        decreases |nodes| - i
      {
        if n.val == v {
          return;
        }
        n, i := n.next, i + 1;
      }
      assert Contents()[..i] == Contents();
    }

    /** LL_SORT (uthash/utlist.h:105-165). */
    method Sort(cmp: (T, T) -> int)
      requires Valid() && TotalPreorder(cmp)
      modifies Repr
      ensures Valid() && Repr == old(Repr)
      ensures nodes == StableSort(OnNodes(cmp), old(nodes)) && multiset(nodes) == multiset(old(nodes))
      ensures Contents() == StableSort(cmp, old(Contents()))
    {
      ghost var before := nodes;
      SortNodes(cmp);
      SortOnNodes(cmp, before);
    }

    method SortNodes(cmp: (T, T) -> int)
      requires Valid() && TotalPreorder(cmp)
      modifies Repr
      ensures Valid() && Repr == old(Repr)
      ensures nodes == StableSort(OnNodes(cmp), old(nodes)) && multiset(nodes) == multiset(old(nodes))
    {
      SortKeepsNodes(cmp, nodes);
      head, nodes := SortChain(cmp, head, nodes, set n | n in nodes);
    }
  }
}
