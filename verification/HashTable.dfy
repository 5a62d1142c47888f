/** Unsigned arithmetic of uthash: masks, shifts, and counts over buckets. */
module HashArithmetic {
  import opened Bytes

  function Pow2(k: nat): (p: nat)
    ensures p > 0
  {
    if k == 0 then 1 else 2 * Pow2(k - 1)
  }

  lemma Pow2Of5()
    ensures Pow2(5) == 32
  {
    assert Pow2(5) == 2 * Pow2(4) == 4 * Pow2(3) == 8 * Pow2(2) == 16 * Pow2(1) == 32;
  }

  /** a & b, bit by bit. */
  function And(a: nat, b: nat): (r: nat)
    ensures r <= b
  {
    if a == 0 || b == 0 then 0
    else 2 * And(a / 2, b / 2) + (if a % 2 == 1 && b % 2 == 1 then 1 else 0)
  }

  /** HASH_TO_BKT (uthash/uthash.h:207-210). */
  function HashToBucket(hashv: nat, buckets: nat): (b: nat)
    requires buckets > 0
    ensures b < buckets
  {
    And(hashv, buckets - 1)
  }

  lemma AndOdd(a: nat, m: nat)
    ensures And(a, 2 * m + 1) == 2 * And(a / 2, m) + a % 2
  {
  }

  lemma {:induction false} AndMask(a: nat, k: nat)
    ensures And(a, Pow2(k) - 1) == a % Pow2(k)
  {
    if k > 0 {
      var p, h := Pow2(k - 1), a / 2;
      AndMask(h, k - 1);
      Halves(a, p);
      AndOdd(a, p - 1);
      assert 2 * (p - 1) + 1 == Pow2(k) - 1;
    }
  }

  lemma Halves(a: nat, p: nat)
    requires p > 0
    ensures a % (2 * p) == 2 * (a / 2 % p) + a % 2
  {
    var h := a / 2;
    assert h == h / p * p + h % p;
    assert a == 2 * h + a % 2;
    assert a == h / p * (2 * p) + (2 * (h % p) + a % 2);
    Remainder(a, h / p, 2 * (h % p) + a % 2, 2 * p);
  }

  lemma Products(q: nat, n: nat)
    ensures q * (2 * n) == (2 * q) * n && (2 * q + 1) * n == (2 * q) * n + n
  {
  }

  lemma DoubledMod(a: nat, n: nat)
    requires n > 0
    ensures a % (2 * n) == a % n || a % (2 * n) == a % n + n
  {
    var q, r := a / (2 * n), a % (2 * n);
    assert a == q * (2 * n) + r;
    Products(q, n);
    if r < n {
      Remainder(a, 2 * q, r, n);
    } else {
      Remainder(a, 2 * q + 1, r - n, n);
    }
  }

  /** When the buckets double an item stays in its bucket or moves up by the old number of buckets. */
  lemma ExpansionMoves(hashv: nat, k: nat)
    ensures var n := Pow2(k);
            HashToBucket(hashv, 2 * n) == HashToBucket(hashv, n) || HashToBucket(hashv, 2 * n) == HashToBucket(hashv, n) + n
  {
    AndMask(hashv, k);
    AndMask(hashv, k + 1);
    DoubledMod(hashv, Pow2(k));
  }

  /** ideal_chain_maxlen (uthash/uthash.h:688-690), n >> k written as a division. */
  function Ideal(items: nat, buckets: nat, log2: nat): nat
    requires buckets > 0
  {
    items / Pow2(log2 + 1) + (if And(items, buckets * 2 - 1) != 0 then 1 else 0)
  }

  lemma CeilingOf(items: nat, b: nat)
    requires b > 0
    ensures var c := items / b + (if items % b != 0 then 1 else 0);
            c * b >= items && (c > 0 ==> (c - 1) * b < items) && (items > 0 ==> c > 0)
  {
    var q, r := items / b, items % b;
    assert items == q * b + r;
    assert (q + 1) * b == q * b + b;
    assert (q - 1) * b == q * b - b;
  }

  /** It is the ceiling of items over the doubled number of buckets, so not zero. */
  lemma IdealIsCeiling(items: nat, log2: nat)
    ensures var c, b := Ideal(items, Pow2(log2), log2), 2 * Pow2(log2);
            c * b >= items && (c > 0 ==> (c - 1) * b < items) && (items > 0 ==> c > 0)
  {
    var b := 2 * Pow2(log2);
    AndMask(items, log2 + 1);
    CeilingOf(items, b);
  }

  lemma IdealIsPositive(items: nat, log2: nat)
    requires items > 0
    ensures Ideal(items, Pow2(log2), log2) > 0
  {
    IdealIsCeiling(items, log2);
  }

  // ---- items in non-ideal positions ----

  function Over(len: nat, ideal: nat): nat {
    if len > ideal then len - ideal else 0
  }

  function Lengths<T>(chains: seq<seq<T>>): (r: seq<nat>)
    ensures |r| == |chains| && forall b | 0 <= b < |r| :: r[b] == |chains[b]|
  {
    seq(|chains|, b requires 0 <= b < |chains| => |chains[b]|)
  }

  /** The items beyond the ideal length, over all buckets. */
  function Excess(lens: seq<nat>, ideal: nat): nat {
    if |lens| == 0 then 0 else Over(lens[0], ideal) + Excess(lens[1..], ideal)
  }

  lemma {:induction false} ExcessOfLonger(lens: seq<nat>, b: nat, ideal: nat)
    requires b < |lens|
    ensures Excess(lens[b := lens[b] + 1], ideal) == Excess(lens, ideal) + (if lens[b] + 1 > ideal then 1 else 0)
  {
    var longer := lens[b := lens[b] + 1];
    if b == 0 {
      assert longer[1..] == lens[1..];
    } else {
      assert longer[1..] == lens[1..][b - 1 := lens[b] + 1];
      ExcessOfLonger(lens[1..], b - 1, ideal);
    }
  }

  lemma {:induction false} ExcessOfEmpty(lens: seq<nat>, ideal: nat)
    requires forall b | 0 <= b < |lens| :: lens[b] == 0
    ensures Excess(lens, ideal) == 0
  {
    if |lens| > 0 {
      ExcessOfEmpty(lens[1..], ideal);
    }
  }

  /** expand_mult of a bucket after an expansion. */
  function Multiplier(len: nat, ideal: nat): nat {
    if len > ideal > 0 then len / ideal else 0
  }
}

/**
  The chained hash table of uthash/uthash.h: a doubly linked chain in each bucket, and
  all items in a doubly linked list in the order in which they were added.
 */
module HashTables {
  import opened HashArithmetic
  import opened Sequences

  const INITIAL_BUCKETS := 32
  const INITIAL_LOG2 := 5
  const CAPACITY_THRESHOLD := 10

  /** A hash handle, and the item in which it is embedded. */
  class Handle<K> {
    const key: K
    var hashv: nat
    var prev: Handle?<K>
    var next: Handle?<K>
    var hhPrev: Handle?<K>
    var hhNext: Handle?<K>

    constructor (key: K)
      ensures this.key == key
    {
      this.key := key;
    }
  }

  datatype Bucket<K> = Bucket(head: Handle?<K>, count: nat, expandMult: nat)

  /** What the table knows of its shape, apart from the buckets. */
  datatype Stats = Stats(log2: nat, ideal: nat, nonideal: nat, ineffExpands: nat, noexpand: bool)

  ghost function Multipliers<K>(bs: seq<Bucket<K>>): (r: seq<nat>)
    ensures |r| == |bs| && forall b | 0 <= b < |r| :: r[b] == bs[b].expandMult
  {
    seq(|bs|, b requires 0 <= b < |bs| => bs[b].expandMult)
  }

  /** One more item with this hash, and its bucket has reached the length at which a table expands. */
  ghost predicate Fills<K>(bs: seq<Bucket<K>>, hashv: nat)
    requires |bs| > 0
  {
    var bucket := bs[HashToBucket(hashv, |bs|)];
    bucket.count + 1 >= (bucket.expandMult + 1) * 10
  }

  /** The buckets with one more item at the head of bucket b. */
  ghost function Pushed<K>(bs: seq<Bucket<K>>, b: nat, h: Handle<K>): seq<Bucket<K>>
    requires b < |bs|
  {
    bs[b := Bucket(h, bs[b].count + 1, bs[b].expandMult)]
  }

  lemma PushedBucket<K>(bs: seq<Bucket<K>>, bs': seq<Bucket<K>>, b: nat, h: Handle<K>)
    requires b < |bs| && bs' == Pushed(bs, b, h)
    ensures |bs'| == |bs| && bs'[b].count == bs[b].count + 1 && Multipliers(bs') == Multipliers(bs)
  {
  }

  /** What an expansion makes of the shape of a table with so many items. */
  ghost predicate Expanded(before: Stats, after: Stats, items: nat) {
    && after.log2 == before.log2 + 1 && after.ideal == Ideal(items, Pow2(before.log2), before.log2)
    && after.ineffExpands == (if after.nonideal > items / 2 then before.ineffExpands + 1 else 0)
    && after.noexpand == (before.noexpand || after.ineffExpands > 1)
  }

  /** s is the chain at `first`, read by hh_next. */
  ghost predicate NextLinked<K>(first: Handle?<K>, s: seq<Handle<K>>)
    reads s
  {
    && first == (if |s| > 0 then s[0] else null)
    && (forall k {:trigger s[k].hhNext} | 0 <= k < |s| - 1 :: s[k].hhNext == s[k + 1])
    && (|s| > 0 ==> s[|s| - 1].hhNext == null)
  }

  ghost predicate PrevLinked<K>(s: seq<Handle<K>>)
    reads s
  {
    (forall k {:trigger s[k].hhPrev} | 0 < k < |s| :: s[k].hhPrev == s[k - 1]) && (|s| > 0 ==> s[0].hhPrev == null)
  }

  /** s is the list of all items from head to tail. */
  ghost predicate AppLinked<K>(head: Handle?<K>, tail: Handle?<K>, s: seq<Handle<K>>)
    reads s
  {
    && head == (if |s| > 0 then s[0] else null)
    && (|s| > 0 ==> tail == s[|s| - 1])
    && (forall k {:trigger s[k].next} | 0 <= k < |s| - 1 :: s[k].next == s[k + 1])
    && (|s| > 0 ==> s[|s| - 1].next == null)
    && (forall k {:trigger s[k].prev} | 0 < k < |s| :: s[k].prev == s[k - 1])
    && (|s| > 0 ==> s[0].prev == null)
  }

  ghost predicate ChainAt<K>(bs: seq<Bucket<K>>, cs: seq<seq<Handle<K>>>, all: set<Handle<K>>, b: nat)
    reads all
  {
    && b < |bs| && b < |cs|
    && (forall h | h in cs[b] :: h in all && HashToBucket(h.hashv, |bs|) == b)
    && Distinct(cs[b]) && bs[b].count == |cs[b]|
    && NextLinked(bs[b].head, cs[b]) && PrevLinked(cs[b])
  }

  /** Each bucket holds its chain, of items that hash to it. */
  ghost predicate Chains<K>(bs: seq<Bucket<K>>, cs: seq<seq<Handle<K>>>, all: set<Handle<K>>)
    reads all
  {
    |bs| == |cs| > 0 && forall b: nat {:trigger ChainAt(bs, cs, all, b)} | b < |bs| :: ChainAt(bs, cs, all, b)
  }

  /** Is h in its chain? */
  ghost predicate Chained<K>(cs: seq<seq<Handle<K>>>, h: Handle<K>)
    requires |cs| > 0
    reads h
  {
    h in cs[HashToBucket(h.hashv, |cs|)]
  }

  lemma EmptyChains<K>(bs: seq<Bucket<K>>, cs: seq<seq<Handle<K>>>)
    requires |bs| == |cs| > 0 && forall b | 0 <= b < |bs| :: bs[b] == Bucket(null, 0, 0) && cs[b] == []
    ensures Chains(bs, cs, {})
  {
    assert forall b: nat | b < |bs| :: ChainAt(bs, cs, {}, b);
  }

  /** All buckets but b hold their chains. */
  ghost predicate OtherChains<K>(bs: seq<Bucket<K>>, cs: seq<seq<Handle<K>>>, all: set<Handle<K>>, b: nat)
    reads all
  {
    |bs| == |cs| > b && forall c: nat {:trigger ChainAt(bs, cs, all, c)} | c < |bs| && c != b :: ChainAt(bs, cs, all, c)
  }

  /** A bucket gets a new chain; items may leave it. */
  lemma ReplaceChain<K>(bs: seq<Bucket<K>>, cs: seq<seq<Handle<K>>>, all: set<Handle<K>>, b: nat,
                        bucket: Bucket<K>, chain: seq<Handle<K>>, all': set<Handle<K>>)
    requires OtherChains(bs, cs, all, b) && all' <= all
    requires forall h | h in all && h !in all' :: HashToBucket(h.hashv, |bs|) == b
    requires forall h | h in chain :: h in all' && HashToBucket(h.hashv, |bs|) == b
    requires Distinct(chain) && bucket.count == |chain| && NextLinked(bucket.head, chain) && PrevLinked(chain)
    ensures Chains(bs[b := bucket], cs[b := chain], all')
  {
    var bs', cs' := bs[b := bucket], cs[b := chain];
    forall c: nat | c < |bs'|
      ensures ChainAt(bs', cs', all', c)
    {
      assert c != b ==> ChainAt(bs, cs, all, c);
    }
  }

  method LinkFront<K>(first: Handle?<K>, h: Handle<K>, ghost s: seq<Handle<K>>)
    requires NextLinked(first, s) && PrevLinked(s) && h !in s
    modifies h`hhPrev, h`hhNext, (set o | o in s)`hhPrev
    ensures NextLinked(h, [h] + s) && PrevLinked([h] + s)
  {
    h.hhNext := first;
    h.hhPrev := null;
    if first != null {
      first.hhPrev := h;
    }
    ghost var r := [h] + s;
    assert forall k | 0 < k < |r| :: r[k] == s[k - 1];
  }

  /** An item becomes the head of its bucket's chain (uthash/uthash.h:624-628, 704-708). */
  method PushFront<K>(buckets: array<Bucket<K>>, b: nat, h: Handle<K>,
                      ghost cs: seq<seq<Handle<K>>>, ghost all: set<Handle<K>>) returns (ghost cs': seq<seq<Handle<K>>>)
    requires Chains(buckets[..], cs, all) && h in all && b == HashToBucket(h.hashv, buckets.Length) && h !in cs[b]
    modifies buckets, all`hhPrev, all`hhNext
    ensures cs' == cs[b := [h] + cs[b]] && Chains(buckets[..], cs', all)
    ensures forall o | o in all && o != h :: o.hhNext == old(o.hhNext)
    ensures buckets[..] == Pushed(old(buckets[..]), b, h)
  {
    ghost var bs := buckets[..];
    assert ChainAt(bs, cs, all, b);
    LinkFront(buckets[b].head, h, cs[b]);
    forall c: nat | c < |bs| && c != b
      ensures ChainAt(bs, cs, all, c)
    {
      assert old(ChainAt(bs, cs, all, c));
      assert forall k | 0 <= k < |cs[c]| :: cs[c][k] in cs[c] && cs[c][k] !in cs[b] && cs[c][k] != h;
    }
    buckets[b] := Bucket(h, buckets[b].count + 1, buckets[b].expandMult);
    cs' := cs[b := [h] + cs[b]];
    ReplaceChain(bs, cs, all, b, buckets[b], cs'[b], all);
  }

  /** expand_mult is no part of a chain. */
  lemma SameChains<K>(bs: seq<Bucket<K>>, bs': seq<Bucket<K>>, cs: seq<seq<Handle<K>>>, all: set<Handle<K>>)
    requires Chains(bs, cs, all) && |bs'| == |bs|
    requires forall b | 0 <= b < |bs| :: bs'[b].head == bs[b].head && bs'[b].count == bs[b].count
    ensures Chains(bs', cs, all)
  {
    forall b: nat | b < |bs'|
      ensures ChainAt(bs', cs, all, b)
    {
      assert ChainAt(bs, cs, all, b);
    }
  }

  // ---- expansion ----

  /** What an expansion has counted so far. */
  ghost predicate Tallied<K>(bs: seq<Bucket<K>>, cs: seq<seq<Handle<K>>>, ideal: nat, nonideal: nat) {
    && |bs| == |cs| && nonideal == Excess(Lengths(cs), ideal)
    && forall b | 0 <= b < |bs| :: bs[b].expandMult == Multiplier(|cs[b]|, ideal)
  }

  /** One turn of the inner loop of HASH_EXPAND_BUCKETS (uthash/uthash.h:696-708). */
  method MoveItem<K>(buckets: array<Bucket<K>>, h: Handle<K>, ideal: nat, nonideal: nat,
                     ghost cs: seq<seq<Handle<K>>>, ghost all: set<Handle<K>>)
    returns (nonideal': nat, ghost cs': seq<seq<Handle<K>>>)
    requires Chains(buckets[..], cs, all) && h in all && ideal > 0 && Tallied(buckets[..], cs, ideal, nonideal)
    requires !Chained(cs, h)
    modifies buckets, all`hhPrev, all`hhNext
    ensures Chains(buckets[..], cs', all) && Tallied(buckets[..], cs', ideal, nonideal')
    ensures forall o | o in all && o != h :: o.hhNext == old(o.hhNext)
    ensures forall o | o in all :: Chained(cs', o) <==> Chained(cs, o) || o == h
  {
    var b := HashToBucket(h.hashv, buckets.Length);
    ghost var bs := buckets[..];
    cs' := PushFront(buckets, b, h, cs, all);
    nonideal' := TallyItem(buckets, b, ideal, nonideal, bs, cs, cs', all);
  }

  /** A chain that has grown by one item is tallied (uthash/uthash.h:698-702). */
  method TallyItem<K>(buckets: array<Bucket<K>>, b: nat, ideal: nat, nonideal: nat, ghost before: seq<Bucket<K>>,
                      ghost cs: seq<seq<Handle<K>>>, ghost cs': seq<seq<Handle<K>>>, ghost all: set<Handle<K>>)
    returns (nonideal': nat)
    requires ideal > 0 && Tallied(before, cs, ideal, nonideal) && b < |cs| && Chains(buckets[..], cs', all)
    requires |cs'| == |cs| && |cs'[b]| == |cs[b]| + 1 && cs' == cs[b := cs'[b]]
    requires buckets[..] == before[b := buckets[..][b]] && buckets[..][b].expandMult == before[b].expandMult
    modifies buckets
    ensures Chains(buckets[..], cs', all) && Tallied(buckets[..], cs', ideal, nonideal')
  {
    nonideal' := nonideal;
    ghost var bs := buckets[..];
    assert ChainAt(bs, cs', all, b);
    ExcessOfLonger(Lengths(cs), b, ideal);
    assert Lengths(cs') == Lengths(cs)[b := |cs[b]| + 1];
    if buckets[b].count > ideal {
      nonideal' := nonideal + 1;
      buckets[b] := buckets[b].(expandMult := buckets[b].count / ideal);
    }
    SameChains(bs, buckets[..], cs', all);
  }

  lemma PrefixGrows<K>(chain: seq<Handle<K>>, k: nat)
    requires k < |chain| && Distinct(chain)
    ensures chain[k] !in chain[..k] && forall o :: o in chain[..k + 1] <==> o in chain[..k] || o == chain[k]
  {
    assert chain[..k + 1] == chain[..k] + [chain[k]];
  }

  /** The inner loop of HASH_EXPAND_BUCKETS: one old chain (uthash/uthash.h:694-710). */
  method MoveChain<K>(buckets: array<Bucket<K>>, first: Handle?<K>, ideal: nat, nonideal: nat, ghost chain: seq<Handle<K>>,
                      ghost cs: seq<seq<Handle<K>>>, ghost all: set<Handle<K>>)
    returns (nonideal': nat, ghost cs': seq<seq<Handle<K>>>)
    requires Chains(buckets[..], cs, all) && ideal > 0 && Tallied(buckets[..], cs, ideal, nonideal)
    requires NextLinked(first, chain) && Distinct(chain)
    requires forall h | h in chain :: h in all && !Chained(cs, h)
    modifies buckets, all`hhPrev, all`hhNext
    ensures Chains(buckets[..], cs', all) && Tallied(buckets[..], cs', ideal, nonideal')
    ensures forall o | o in all && o !in chain :: o.hhNext == old(o.hhNext)
    ensures forall o | o in all :: Chained(cs', o) <==> Chained(cs, o) || o in chain
  {
    var h := first;
    nonideal', cs' := nonideal, cs;
    ghost var k := 0;
    while h != null
      invariant 0 <= k <= |chain| && (if k < |chain| then h == chain[k] else h == null)
      invariant Chains(buckets[..], cs', all) && Tallied(buckets[..], cs', ideal, nonideal')
      invariant forall o | o in all && o !in chain[..k] :: o.hhNext == old(o.hhNext)
      invariant forall o | o in all :: Chained(cs', o) <==> Chained(cs, o) || o in chain[..k]
      decreases |chain| - k
    {
      var next := h.hhNext;
      assert next == if k + 1 < |chain| then chain[k + 1] else null;
      PrefixGrows(chain, k);
      nonideal', cs' := MoveItem(buckets, h, ideal, nonideal', cs', all);
      h, k := next, k + 1;
    }
    assert chain[..k] == chain;
  }

  /** The chain of an old bucket that has not been walked yet; hh_prev may be stale. */
  ghost predicate OldChainAt<K>(bs: seq<Bucket<K>>, cs: seq<seq<Handle<K>>>, all: set<Handle<K>>, b: nat)
    reads all
  {
    && b < |bs| && b < |cs|
    && (forall h | h in cs[b] :: h in all && HashToBucket(h.hashv, |bs|) == b)
    && Distinct(cs[b]) && NextLinked(bs[b].head, cs[b])
  }

  /** The old chains from bucket i on are untouched, and the items before it have moved. */
  ghost predicate Halfway<K>(bs: seq<Bucket<K>>, cs: seq<seq<Handle<K>>>, i: nat, cs': seq<seq<Handle<K>>>, all: set<Handle<K>>)
    reads all
  {
    && |bs| == |cs| > 0 && |cs'| > 0
    && (forall b: nat {:trigger OldChainAt(bs, cs, all, b)} | i <= b < |cs| :: OldChainAt(bs, cs, all, b))
    && (forall h | h in all :: Chained(cs', h) <==> HashToBucket(h.hashv, |cs|) < i)
    && (forall h | h in all :: Chained(cs, h))
  }

  /** The loops of HASH_EXPAND_BUCKETS: every item goes to its bucket among twice as many (uthash/uthash.h:692-711). */
  method Redistribute<K>(buckets: array<Bucket<K>>, ideal: nat, ghost cs: seq<seq<Handle<K>>>, ghost all: set<Handle<K>>)
    returns (bigger: array<Bucket<K>>, nonideal: nat, ghost cs': seq<seq<Handle<K>>>)
    requires Chains(buckets[..], cs, all) && ideal > 0
    requires forall h | h in all :: Chained(cs, h)
    modifies all`hhPrev, all`hhNext
    ensures fresh(bigger) && bigger.Length == 2 * buckets.Length
    ensures Chains(bigger[..], cs', all) && (forall h | h in all :: Chained(cs', h))
    ensures Tallied(bigger[..], cs', ideal, nonideal)
  {
    bigger := new Bucket[2 * buckets.Length](_ => Bucket(null, 0, 0));
    nonideal, cs' := 0, seq(2 * buckets.Length, _ => []);
    ExcessOfEmpty(Lengths(cs'), ideal);
    ghost var bs := buckets[..];
    assert forall b: nat | b < |cs'| :: ChainAt(bigger[..], cs', all, b);
    StartHalfway(bs, cs, cs', all);
    for i := 0 to buckets.Length
      invariant buckets[..] == bs && bigger.Length == 2 * buckets.Length
      invariant Chains(bigger[..], cs', all) && Tallied(bigger[..], cs', ideal, nonideal)
      invariant Halfway(bs, cs, i, cs', all)
    {
      nonideal, cs' := RedistributeChain(buckets, bigger, i, ideal, nonideal, cs, cs', all);
    }
  }

  lemma StartHalfway<K>(bs: seq<Bucket<K>>, cs: seq<seq<Handle<K>>>, cs': seq<seq<Handle<K>>>, all: set<Handle<K>>)
    requires Chains(bs, cs, all) && |cs'| > 0 && forall b | 0 <= b < |cs'| :: cs'[b] == []
    requires forall h | h in all :: Chained(cs, h)
    ensures Halfway(bs, cs, 0, cs', all)
  {
    forall b: nat | b < |cs|
      ensures OldChainAt(bs, cs, all, b)
    {
      assert ChainAt(bs, cs, all, b);
    }
  }

  /** One turn of the outer loop. */
  method RedistributeChain<K>(buckets: array<Bucket<K>>, bigger: array<Bucket<K>>, i: nat, ideal: nat, nonideal: nat,
                              ghost cs: seq<seq<Handle<K>>>, ghost cs0: seq<seq<Handle<K>>>, ghost all: set<Handle<K>>)
    returns (nonideal': nat, ghost cs': seq<seq<Handle<K>>>)
    requires buckets != bigger && i < buckets.Length && ideal > 0
    requires Chains(bigger[..], cs0, all) && Tallied(bigger[..], cs0, ideal, nonideal)
    requires Halfway(buckets[..], cs, i, cs0, all)
    modifies bigger, all`hhPrev, all`hhNext
    ensures Chains(bigger[..], cs', all) && Tallied(bigger[..], cs', ideal, nonideal')
    ensures Halfway(buckets[..], cs, i + 1, cs', all)
  {
    ghost var bs := buckets[..];
    assert OldChainAt(bs, cs, all, i);
    assert forall h | h in all :: Chained(cs, h);
    nonideal', cs' := WalkChain(bigger, buckets[i].head, ideal, nonideal, bs, cs, i, cs0, all);
    OneMoreWalked(bs, cs, i, cs', all);
  }

  lemma OneMoreWalked<K>(bs: seq<Bucket<K>>, cs: seq<seq<Handle<K>>>, i: nat, cs': seq<seq<Handle<K>>>, all: set<Handle<K>>)
    requires |bs| == |cs| > i && |cs'| > 0
    requires forall b: nat {:trigger OldChainAt(bs, cs, all, b)} | i < b < |cs| :: OldChainAt(bs, cs, all, b)
    requires forall h | h in all :: Chained(cs', h) <==> HashToBucket(h.hashv, |cs|) < i || h in cs[i]
    requires forall h | h in all :: Chained(cs, h)
    requires forall h | h in cs[i] :: HashToBucket(h.hashv, |cs|) == i
    ensures Halfway(bs, cs, i + 1, cs', all)
  {
  }

  /** The rest of the old chains is not touched. */
  method WalkChain<K>(bigger: array<Bucket<K>>, first: Handle?<K>, ideal: nat, nonideal: nat, ghost bs: seq<Bucket<K>>,
                      ghost cs: seq<seq<Handle<K>>>, ghost i: nat, ghost cs0: seq<seq<Handle<K>>>, ghost all: set<Handle<K>>)
    returns (nonideal': nat, ghost cs': seq<seq<Handle<K>>>)
    requires Chains(bigger[..], cs0, all) && Tallied(bigger[..], cs0, ideal, nonideal) && ideal > 0
    requires OldChainAt(bs, cs, all, i) && first == bs[i].head && forall h | h in cs[i] :: !Chained(cs0, h)
    requires forall b: nat {:trigger OldChainAt(bs, cs, all, b)} | i <= b < |cs| :: OldChainAt(bs, cs, all, b)
    modifies bigger, all`hhPrev, all`hhNext
    ensures Chains(bigger[..], cs', all) && Tallied(bigger[..], cs', ideal, nonideal')
    ensures forall b: nat {:trigger OldChainAt(bs, cs, all, b)} | i < b < |cs| :: OldChainAt(bs, cs, all, b)
    ensures forall o | o in all :: Chained(cs', o) <==> Chained(cs0, o) || o in cs[i]
  {
    nonideal', cs' := MoveChain(bigger, first, ideal, nonideal, cs[i], cs0, all);
    forall b: nat | i < b < |cs|
      ensures OldChainAt(bs, cs, all, b)
    {
      assert old(OldChainAt(bs, cs, all, b));
      assert forall k | 0 <= k < |cs[b]| :: cs[b][k] in cs[b];
    }
  }

  // ---- unlinking ----

  function Without<T>(s: seq<T>, i: nat): (r: seq<T>)
    requires i < |s|
    ensures |r| == |s| - 1 && forall k | 0 <= k < |r| :: r[k] == if k < i then s[k] else s[k + 1]
  {
    s[..i] + s[i + 1..]
  }

  lemma WithoutMembers<T>(s: seq<T>, i: nat)
    requires i < |s| && Distinct(s)
    ensures Distinct(Without(s, i)) && forall x :: x in Without(s, i) <==> x in s && x != s[i]
  {
    var r := Without(s, i);
    forall x
      ensures x in r <==> x in s && x != s[i]
    {
      if x in s && x != s[i] {
        var k :| 0 <= k < |s| && s[k] == x;
        assert r[if k < i then k else k - 1] == x;
      }
    }
  }

  /** HASH_DEL_IN_BKT on the chain alone (uthash/uthash.h:638-646). */
  method UnlinkFromChain<K>(first: Handle?<K>, del: Handle<K>, ghost s: seq<Handle<K>>, ghost i: nat) returns (first': Handle?<K>)
    requires NextLinked(first, s) && PrevLinked(s) && Distinct(s) && i < |s| && s[i] == del
    modifies (set h | h in s)`hhPrev, (set h | h in s)`hhNext
    ensures NextLinked(first', Without(s, i)) && PrevLinked(Without(s, i))
  {
    first' := first;
    if first == del {
      first' := del.hhNext;
    }
    assert i > 0 ==> del.hhPrev == s[i - 1];
    assert i + 1 < |s| ==> del.hhNext == s[i + 1];
    if del.hhPrev != null {
      del.hhPrev.hhNext := del.hhNext;
    }
    if del.hhNext != null {
      del.hhNext.hhPrev := del.hhPrev;
    }
  }

  /** The chain of bucket b is cut and closed again; the others are not touched. */
  method CutFromChain<K>(first: Handle?<K>, del: Handle<K>, ghost bs: seq<Bucket<K>>, ghost b: nat, ghost i: nat,
                         ghost cs: seq<seq<Handle<K>>>, ghost all: set<Handle<K>>) returns (first': Handle?<K>)
    requires Chains(bs, cs, all) && b < |bs| && first == bs[b].head && i < |cs[b]| && cs[b][i] == del
    modifies all`hhPrev, all`hhNext
    ensures OtherChains(bs, cs, all, b) && NextLinked(first', Without(cs[b], i)) && PrevLinked(Without(cs[b], i))
  {
    assert ChainAt(bs, cs, all, b);
    first' := UnlinkFromChain(first, del, cs[b], i);
    forall c: nat | c < |bs| && c != b
      ensures ChainAt(bs, cs, all, c)
    {
      assert old(ChainAt(bs, cs, all, c));
      assert forall k | 0 <= k < |cs[c]| :: cs[c][k] in cs[c] && cs[c][k] !in cs[b];
    }
  }

  method UnlinkFromBucket<K>(buckets: array<Bucket<K>>, b: nat, del: Handle<K>,
                             ghost cs: seq<seq<Handle<K>>>, ghost all: set<Handle<K>>) returns (ghost cs': seq<seq<Handle<K>>>)
    requires Chains(buckets[..], cs, all) && b == HashToBucket(del.hashv, buckets.Length) && del in cs[b]
    modifies buckets, all`hhPrev, all`hhNext
    ensures Chains(buckets[..], cs', all - {del}) && forall h | h in all && h != del :: Chained(cs', h) <==> Chained(cs, h)
    ensures Multipliers(buckets[..]) == old(Multipliers(buckets[..]))
  {
    ghost var bs := buckets[..];
    assert ChainAt(bs, cs, all, b);
    ghost var i :| 0 <= i < |cs[b]| && cs[b][i] == del;
    WithoutMembers(cs[b], i);
    var first := CutFromChain(buckets[b].head, del, bs, b, i, cs, all);
    buckets[b] := Bucket(first, buckets[b].count - 1, buckets[b].expandMult);
    cs' := cs[b := Without(cs[b], i)];
    ReplaceChain(bs, cs, all, b, buckets[b], cs'[b], all - {del});
  }

  /** An item leaves the list of all items (uthash/uthash.h:236-251). */
  method UnlinkFromList<K>(head: Handle<K>, tail: Handle<K>, del: Handle<K>, ghost s: seq<Handle<K>>, ghost i: nat)
    returns (head': Handle?<K>, tail': Handle?<K>)
    requires AppLinked(head, tail, s) && Distinct(s) && i < |s| && s[i] == del && |s| > 1
    modifies (set h | h in s)`prev, (set h | h in s)`next
    ensures AppLinked(head', tail', Without(s, i))
  {
    head', tail' := head, tail;
    assert i > 0 ==> del.prev == s[i - 1];
    assert i + 1 < |s| ==> del.next == s[i + 1];
    if del == tail {
      tail' := del.prev;
    }
    if del.prev != null {
      del.prev.next := del.next;
    } else {
      head' := del.next;
    }
    if del.next != null {
      del.next.prev := del.prev;
    }
  }

  /** An item goes to the end of the list of all items (uthash/uthash.h:185-196). */
  method AppendToList<K>(head: Handle?<K>, tail: Handle?<K>, add: Handle<K>, ghost s: seq<Handle<K>>)
    returns (head': Handle<K>, tail': Handle<K>)
    requires AppLinked(head, tail, s) && add !in s
    modifies add`next, add`prev, (set h | h in s)`next
    ensures AppLinked(head', tail', s + [add])
  {
    add.next := null;
    tail' := add;
    if head == null {
      head' := add;
      add.prev := null;
    } else {
      tail.next := add;
      add.prev := tail;
      head' := head;
    }
    ghost var r := s + [add];
    assert forall k | 0 <= k < |s| :: r[k] == s[k];
  }

  ghost function Items<K>(s: seq<Handle<K>>): (r: set<Handle<K>>) {
    set h | h in s
  }

  // ---- the list of all items does not touch the chains ----

  method UnlinkBeside<K>(head: Handle<K>, tail: Handle<K>, del: Handle<K>, ghost s: seq<Handle<K>>, ghost i: nat,
                         ghost bs: seq<Bucket<K>>, ghost cs: seq<seq<Handle<K>>>)
    returns (head': Handle?<K>, tail': Handle?<K>)
    requires AppLinked(head, tail, s) && Distinct(s) && i < |s| && s[i] == del && |s| > 1 && Chains(bs, cs, Items(s))
    modifies (set h | h in s)`prev, (set h | h in s)`next
    ensures AppLinked(head', tail', Without(s, i)) && Chains(bs, cs, Items(s))
  {
    head', tail' := UnlinkFromList(head, tail, del, s, i);
    forall b: nat | b < |bs|
      ensures ChainAt(bs, cs, Items(s), b)
    {
      assert old(ChainAt(bs, cs, Items(s), b));
    }
  }

  method AppendBeside<K>(head: Handle?<K>, tail: Handle?<K>, add: Handle<K>, ghost s: seq<Handle<K>>,
                         ghost bs: seq<Bucket<K>>, ghost cs: seq<seq<Handle<K>>>)
    returns (head': Handle<K>, tail': Handle<K>)
    requires AppLinked(head, tail, s) && add !in s && Chains(bs, cs, Items(s))
    modifies add`next, add`prev, (set h | h in s)`next
    ensures AppLinked(head', tail', s + [add]) && Chains(bs, cs, Items(s))
  {
    head', tail' := AppendToList(head, tail, add, s);
    forall b: nat | b < |bs|
      ensures ChainAt(bs, cs, Items(s), b)
    {
      assert old(ChainAt(bs, cs, Items(s), b));
    }
  }

  // ---- the table ----

  ghost predicate DistinctKeys<K>(s: seq<Handle<K>>) {
    forall k, l | 0 <= k < l < |s| :: s[k].key != s[l].key
  }

  class HashTable<K(==)> {
    const hash: K -> nat
    var head: Handle?<K>
    var tail: Handle?<K>
    var buckets: array<Bucket<K>>
    var log2: nat
    var numItems: nat
    var ideal: nat
    var nonideal: nat
    var ineffExpands: nat
    var noexpand: bool

    ghost var order: seq<Handle<K>>
    ghost var chains: seq<seq<Handle<K>>>

    constructor (hash: K -> nat)
      ensures Valid() && order == [] && this.hash == hash
    {
      this.hash := hash;
      head, tail, buckets, log2, numItems := null, null, new Bucket[0], 0, 0;
      ideal, nonideal, ineffExpands, noexpand := 0, 0, 0, false;
      order, chains := [], [];
    }

    /** All items are in the list, with distinct keys, and each in the chain of its hash. */
    ghost predicate Valid()
      reads this, buckets, order
    {
      && DistinctKeys(order) && AppLinked(head, tail, order)
      && (order != [] ==> Hashed(order))
    }

    ghost function Shape(): Stats
      reads this
    {
      Stats(log2, ideal, nonideal, ineffExpands, noexpand)
    }

    /** Each item is in the chain of its hash, and the chains hold nothing else. */
    ghost predicate Hashed(items: seq<Handle<K>>)
      reads this, buckets, items
    {
      exists all :: all == Items(items) && HashedIn(items, all)
    }

    ghost predicate HashedIn(items: seq<Handle<K>>, all: set<Handle<K>>)
      requires all == Items(items)
      reads this, buckets, items
    {
      && buckets.Length == Pow2(log2) && numItems == |items|
      && Chains(buckets[..], chains, all)
      && (forall h | h in items :: h.hashv == hash(h.key) && Chained(chains, h))
    }

    /** HASH_FIND (uthash/uthash.h:103-114, 608-619): the item with the key, or NULL if there is none. */
    method Find(key: K) returns (out: Handle?<K>)
      requires Valid()
      ensures out != null ==> out in order && out.key == key
      ensures out == null ==> forall h | h in order :: h.key != key
    {
      out := null;
      if head != null {
        var b := HashToBucket(hash(key), buckets.Length);
        assert ChainAt(buckets[..], chains, Items(order), b);
        ghost var chain := chains[b];
        ghost var k := 0;
        out := buckets[b].head;
        while out != null
          invariant 0 <= k <= |chain| && (if k < |chain| then out == chain[k] else out == null)
          invariant forall l | 0 <= l < k :: chain[l].key != key
          decreases |chain| - k
        {
          if out.key == key {
            break;
          }
          out, k := out.hhNext, k + 1;
        }
        assert out != null ==> out in chain;
      }
    }

    /** HASH_MAKE_TABLE (uthash/uthash.h:150-167), on no items. */
    method MakeTable()
      modifies this`buckets, this`log2, this`numItems, this`ideal, this`nonideal, this`ineffExpands, this`noexpand, this`chains
      ensures fresh(buckets) && Hashed([]) && Shape() == Stats(5, 0, 0, 0, false)
      ensures buckets.Length == 32 && forall b | 0 <= b < 32 :: buckets[b] == Bucket(null, 0, 0)
    {
      buckets := NoBuckets();
      log2, numItems := INITIAL_LOG2, 0;
      ideal, nonideal, ineffExpands, noexpand := 0, 0, 0, false;
      chains := seq(INITIAL_BUCKETS, _ => []);
      Pow2Of5();
      EmptyChains(buckets[..], chains);
      NothingHashed();
    }

    static method NoBuckets() returns (bs: array<Bucket<K>>)
      ensures fresh(bs) && bs.Length == 32 && forall b | 0 <= b < 32 :: bs[b] == Bucket(null, 0, 0)
    {
      bs := new Bucket[INITIAL_BUCKETS](_ => Bucket(null, 0, 0));
    }

    lemma NothingHashed()
      requires buckets.Length == Pow2(log2) && numItems == 0 && Chains(buckets[..], chains, {})
      ensures Hashed([])
    {
      assert Items<K>([]) == {};
      assert HashedIn([], {});
    }

    method EnsureTable()
      requires Valid()
      modifies this`buckets, this`log2, this`numItems, this`ideal, this`nonideal, this`ineffExpands, this`noexpand, this`chains
      ensures Hashed(order) && AppLinked(head, tail, order)
      ensures order != [] ==> buckets == old(buckets) && buckets[..] == old(buckets[..]) && Shape() == old(Shape())
      ensures order == [] ==> fresh(buckets) && buckets.Length == 32 && Shape() == Stats(5, 0, 0, 0, false)
      ensures order == [] ==> forall b | 0 <= b < 32 :: buckets[b] == Bucket(null, 0, 0)
    {
      if head == null {
        MakeTable();
      }
    }

    /** HASH_EXPAND_BUCKETS (uthash/uthash.h:677-723). */
    method ExpandBuckets(ghost items: seq<Handle<K>>)
      requires Hashed(items) && |items| > 0
      modifies this`buckets, this`log2, this`ideal, this`nonideal, this`ineffExpands, this`noexpand, this`chains
      modifies Items(items)`hhPrev, Items(items)`hhNext
      ensures Hashed(items) && fresh(buckets) && Expanded(old(Shape()), Shape(), |items|)
      ensures Tallied(buckets[..], chains, ideal, nonideal)
    {
      IdealIsPositive(numItems, log2);
      ideal := Ideal(numItems, buckets.Length, log2);
      assert HashedIn(items, Items(items));
      DoubleBuckets(items);
      ineffExpands := if nonideal > numItems / 2 then ineffExpands + 1 else 0;
      if ineffExpands > 1 {
        noexpand := true;
      }
      assert HashedIn(items, Items(items));
    }

    /** The items go to twice as many buckets (uthash/uthash.h:683-716). */
    method DoubleBuckets(ghost items: seq<Handle<K>>)
      requires Hashed(items) && ideal > 0
      modifies this`buckets, this`log2, this`nonideal, this`chains, Items(items)`hhPrev, Items(items)`hhNext
      ensures Hashed(items) && fresh(buckets) && log2 == old(log2) + 1 && Tallied(buckets[..], chains, ideal, nonideal)
    {
      var bigger, over;
      ghost var cs;
      bigger, over, cs := Redistribute(buckets, ideal, chains, Items(items));
      buckets, nonideal, chains, log2 := bigger, over, cs, log2 + 1;
      assert HashedIn(items, Items(items));
    }

    /** An item at the head of its bucket's chain (uthash/uthash.h:197-201, 624-628). */
    method PutInBucket(add: Handle<K>, ghost items: seq<Handle<K>>) returns (full: bool)
      requires Hashed(items) && add !in items
      modifies this`numItems, this`chains, buckets, add`hashv, Items(items + [add])`hhPrev, Items(items + [add])`hhNext
      ensures Hashed(items + [add]) && full == Fills(old(buckets[..]), hash(add.key))
      ensures Multipliers(buckets[..]) == old(Multipliers(buckets[..]))
    {
      ghost var bs := buckets[..];
      var b := PushInBucket(add, items);
      PushedBucket(bs, buckets[..], b, add);
      full := IsFull(b);
    }

    method PushInBucket(add: Handle<K>, ghost items: seq<Handle<K>>) returns (b: nat)
      requires Hashed(items) && add !in items
      modifies this`numItems, this`chains, buckets, add`hashv, Items(items + [add])`hhPrev, Items(items + [add])`hhNext
      ensures Hashed(items + [add]) && buckets.Length > 0 && b == HashToBucket(hash(add.key), buckets.Length)
      ensures buckets[..] == Pushed(old(buckets[..]), b, add)
    {
      ghost var all := Items(items + [add]);
      numItems := numItems + 1;
      add.hashv := hash(add.key);
      b := HashToBucket(add.hashv, buckets.Length);
      GrowChains(buckets[..], chains, Items(items), all);
      assert ChainAt(buckets[..], chains, Items(items), b);
      LinkIn(add, b, items, all);
      assert HashedIn(items + [add], all);
    }

    method LinkIn(add: Handle<K>, b: nat, ghost items: seq<Handle<K>>, ghost all: set<Handle<K>>)
      requires Chains(buckets[..], chains, all) && add in all && (forall h | h in items :: h in all && Chained(chains, h))
      requires b == HashToBucket(add.hashv, buckets.Length) && add !in chains[b]
      modifies this`chains, buckets, all`hhPrev, all`hhNext
      ensures Chains(buckets[..], chains, all) && Chained(chains, add) && forall h | h in items :: Chained(chains, h)
      ensures buckets[..] == Pushed(old(buckets[..]), b, add)
    {
      chains := PushFront(buckets, b, add, chains, all);
      assert forall h | h in items :: old(Chained(chains, h));
    }

    /** Has the bucket reached the length at which the table expands? (uthash/uthash.h:629) */
    method IsFull(b: nat) returns (full: bool)
      requires b < buckets.Length
      ensures full <==> buckets[b].count >= (buckets[b].expandMult + 1) * 10
    {
      full := buckets[b].count >= (buckets[b].expandMult + 1) * CAPACITY_THRESHOLD;
    }

    /**
      The table after one more item, with this hash. It expands exactly when the item's bucket
      has come to (expand_mult + 1) * 10 items and noexpand is not set; otherwise its shape and
      its array of buckets stay.
     */
    ghost predicate Grown(before: Stats, array0: array<Bucket<K>>, bs: seq<Bucket<K>>, hashv: nat, items: nat)
      requires |bs| > 0
      reads this, buckets
    {
      if Fills(bs, hashv) && !before.noexpand
      then
        && buckets != array0 && buckets.Length == 2 * |bs| && Expanded(before, Shape(), items)
        && Tallied(buckets[..], chains, ideal, nonideal)
      else buckets == array0 && Shape() == before && Multipliers(buckets[..]) == Multipliers(bs)
    }

    /** HASH_ADD_TO_BKT with the expansion it may call for (uthash/uthash.h:622-633). */
    method AddToBucket(add: Handle<K>, ghost items: seq<Handle<K>>)
      requires Hashed(items) && add !in items
      modifies this`buckets, this`log2, this`numItems, this`ideal, this`nonideal, this`ineffExpands, this`noexpand, this`chains
      modifies buckets, add`hashv, Items(items + [add])`hhPrev, Items(items + [add])`hhNext
      ensures Hashed(items + [add]) && Grown(old(Shape()), old(buckets), old(buckets[..]), hash(add.key), |items| + 1)
      ensures buckets == old(buckets) || fresh(buckets)
    {
      var full := PutInBucket(add, items);
      if full && !noexpand {
        ExpandBuckets(items + [add]);
      }
    }

    /** The chains do not touch the list of all items. */
    method AddListed(add: Handle<K>, ghost items: seq<Handle<K>>)
      requires Hashed(items) && add !in items && AppLinked(head, tail, items + [add])
      modifies this`buckets, this`log2, this`numItems, this`ideal, this`nonideal, this`ineffExpands, this`noexpand, this`chains
      modifies buckets, add`hashv, Items(items + [add])`hhPrev, Items(items + [add])`hhNext
      ensures Hashed(items + [add]) && Grown(old(Shape()), old(buckets), old(buckets[..]), hash(add.key), |items| + 1)
      ensures AppLinked(head, tail, items + [add]) && (buckets == old(buckets) || fresh(buckets))
    {
      AddToBucket(add, items);
    }

    method DropListed(del: Handle<K>, ghost items: seq<Handle<K>>, ghost i: nat)
      requires Hashed(items) && Distinct(items) && i < |items| && items[i] == del && AppLinked(head, tail, Without(items, i))
      modifies this`numItems, this`chains, buckets, (set h | h in items)`hhPrev, (set h | h in items)`hhNext
      ensures Hashed(Without(items, i)) && AppLinked(head, tail, Without(items, i))
      ensures Multipliers(buckets[..]) == old(Multipliers(buckets[..]))
    {
      DropFromBucket(del, items, i);
    }

    /** The list of all items takes one more; the chains do not see it. */
    method AppendItem(add: Handle<K>, ghost items: seq<Handle<K>>)
      requires Hashed(items) && AppLinked(head, tail, items) && add !in items
      modifies this`head, this`tail, add`next, add`prev, (set h | h in items)`next
      ensures Hashed(items) && AppLinked(head, tail, items + [add]) && head != null
    {
      head, tail := AppendBeside(head, tail, add, items, buckets[..], chains);
      assert forall h | h in items :: old(Chained(chains, h));
      assert HashedIn(items, Items(items));
    }

    method UnlinkItem(del: Handle<K>, ghost items: seq<Handle<K>>, ghost i: nat)
      requires Hashed(items) && AppLinked(head, tail, items) && Distinct(items) && i < |items| && items[i] == del && |items| > 1
      modifies this`head, this`tail, (set h | h in items)`prev, (set h | h in items)`next
      ensures Hashed(items) && AppLinked(head, tail, Without(items, i))
    {
      head, tail := UnlinkBeside(head, tail, del, items, i, buckets[..], chains);
      assert forall h | h in items :: old(Chained(chains, h));
      assert HashedIn(items, Items(items));
    }

    /** The rest of HASH_DELETE (uthash/uthash.h:252-254). */
    method DropFromBucket(del: Handle<K>, ghost items: seq<Handle<K>>, ghost i: nat)
      requires Hashed(items) && Distinct(items) && i < |items| && items[i] == del
      modifies this`numItems, this`chains, buckets, (set h | h in items)`hhPrev, (set h | h in items)`hhNext
      ensures Hashed(Without(items, i)) && Multipliers(buckets[..]) == old(Multipliers(buckets[..]))
    {
      WithoutMembers(items, i);
      assert Chained(chains, del);
      var b := HashToBucket(del.hashv, buckets.Length);
      chains := UnlinkFromBucket(buckets, b, del, chains, Items(items));
      numItems := numItems - 1;
      assert Items(Without(items, i)) == Items(items) - {del};
      assert forall h | h in items :: old(Chained(chains, h));
      assert HashedIn(Without(items, i), Items(Without(items, i)));
    }

    /** An item that is not the only one leaves the list and its chain (uthash/uthash.h:234-254). */
    method Unlink(del: Handle<K>, ghost items: seq<Handle<K>>, ghost i: nat)
      requires Hashed(items) && AppLinked(head, tail, items) && Distinct(items) && i < |items| && items[i] == del && |items| > 1
      modifies this`head, this`tail, this`numItems, this`chains, buckets, items
      ensures Hashed(Without(items, i)) && AppLinked(head, tail, Without(items, i))
      ensures Multipliers(buckets[..]) == old(Multipliers(buckets[..]))
    {
      UnlinkItem(del, items, i);
      DropListed(del, items, i);
    }

    method Insert(add: Handle<K>, ghost items: seq<Handle<K>>)
      requires Hashed(items) && AppLinked(head, tail, items) && add !in items
      modifies this, buckets, items, add
      ensures Hashed(items + [add]) && AppLinked(head, tail, items + [add]) && head != null
      ensures Grown(old(Shape()), old(buckets), old(buckets[..]), hash(add.key), |items| + 1)
      ensures buckets == old(buckets) || fresh(buckets)
    {
      AppendItem(add, items);
      AddListed(add, items);
    }

    /**
      HASH_ADD_KEYPTR (uthash/uthash.h:182-205). The caller sees to it that the key is new.
     */
    method Add(add: Handle<K>)
      requires Valid() && add !in order && forall h | h in order :: h.key != add.key
      modifies this, buckets, order, add
      ensures Valid() && order == old(order) + [add] && (buckets == old(buckets) || fresh(buckets))
      ensures old(order) != [] ==>
                Grown(old(Shape()), old(buckets), old(buckets[..]), hash(add.key), |order|)
      ensures old(order) == [] ==>
                fresh(buckets) && buckets.Length == 32 && Shape() == Stats(5, 0, 0, 0, false)
                && forall b | 0 <= b < 32 :: buckets[b].expandMult == 0
    {
      ghost var items := order;
      EnsureTable();
      Insert(add, items);
      NewKey(items, add);
      SetOrder(items + [add]);
    }

    /** The items of the table are these. */
    ghost method SetOrder(items: seq<Handle<K>>)
      requires DistinctKeys(items) && AppLinked(head, tail, items) && Hashed(items)
      modifies this`order
      ensures Valid() && order == items
    {
      order := items;
      assert HashedIn(order, Items(order));
    }

    /** HASH_DELETE (uthash/uthash.h:224-257), on an item of the table. */
    method Delete(del: Handle<K>, ghost i: nat)
      requires Valid() && i < |order| && order[i] == del
      modifies this, buckets, order
      ensures Valid() && order == Without(old(order), i) && buckets == old(buckets)
      ensures order != [] ==> Shape() == old(Shape()) && Multipliers(buckets[..]) == old(Multipliers(buckets[..]))
    {
      KeepsKeys(order, i);
      Alone(head, tail, order, i);
      if del.prev == null && del.next == null {
        head, order := null, [];
      } else {
        Unlink(del, order, i);
        SetOrder(Without(order, i));
      }
    }
  }

  /** An item with no neighbours is the only one. */
  lemma Alone<K>(head: Handle?<K>, tail: Handle?<K>, s: seq<Handle<K>>, i: nat)
    requires AppLinked(head, tail, s) && i < |s|
    ensures s[i].prev == null && s[i].next == null <==> |s| == 1
    ensures head != null
  {
    assert i > 0 ==> s[i].prev == s[i - 1];
    assert i + 1 < |s| ==> s[i].next == s[i + 1];
  }

  lemma NewKey<K>(s: seq<Handle<K>>, h: Handle<K>)
    requires DistinctKeys(s) && forall o | o in s :: o.key != h.key
    ensures DistinctKeys(s + [h])
  {
  }

  lemma KeepsKeys<K>(s: seq<Handle<K>>, i: nat)
    requires DistinctKeys(s) && i < |s|
    ensures Distinct(s) && DistinctKeys(Without(s, i))
  {
  }

  lemma GrowChains<K>(bs: seq<Bucket<K>>, cs: seq<seq<Handle<K>>>, all: set<Handle<K>>, all': set<Handle<K>>)
    requires Chains(bs, cs, all) && all <= all'
    ensures Chains(bs, cs, all')
  {
    forall b: nat | b < |bs|
      ensures ChainAt(bs, cs, all', b)
    {
      assert ChainAt(bs, cs, all, b);
    }
  }
}
