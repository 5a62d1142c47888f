/**
  The stores of a program between two publications of a region: what they leave in it, and
  what its diff then names (src/memory/memory.c:89-112, src/memory/memory_dobj.c:162-225).
 */
module Sessions {
  import opened Bytes
  import opened Addresses
  import opened DiffCodec
  import opened Regions
  import opened Publishing

  datatype Write = Write(page: nat, offset: nat, v: Byte)

  /** The value of the last of the writes that went to x, or v if none did. */
  ghost function LastWrite(ws: seq<Write>, x: Addr, v: Byte): Byte {
    if |ws| == 0 then v
    else
      var w := ws[|ws| - 1];
      if Addr(w.page, w.offset) == x then w.v else LastWrite(ws[..|ws| - 1], x, v)
  }

  ghost function PagesOf(ws: seq<Write>): set<nat> {
    set w | w in ws :: w.page
  }

  /** Each of these pages has one entry, and there are no others. */
  ghost predicate NamesExactly(entries: seq<PageDiff>, pages: set<nat>, size: nat) {
    && |entries| == |pages|
    && forall p: nat :: p in pages <==> exists k :: 0 <= k < |entries| && entries[k].offset == p * size
  }

  lemma {:induction false} OneEntryEach(twins: seq<Twin>, pages: set<nat>)
    requires forall k, l | 0 <= k < l < |twins| :: twins[k].page != twins[l].page
    requires forall p: nat :: p in pages <==> exists k :: 0 <= k < |twins| && twins[k].page == p
    ensures |twins| == |pages|
  {
    if |twins| > 0 {
      var rest := pages - {twins[0].page};
      forall p: nat
        ensures p in rest <==> exists k :: 0 <= k < |twins[1..]| && twins[1..][k].page == p
      {
        if p in rest {
          var k :| 0 <= k < |twins| && twins[k].page == p;
          assert twins[1..][k - 1].page == p;
        }
      }
      assert twins[0].page in pages;
      OneEntryEach(twins[1..], rest);
    }
  }

  lemma SameOffset(p: nat, q: nat, size: nat)
    requires size > 0 && p * size == q * size
    ensures p == q
  {
    PageOfOffset(p, size);
    PageOfOffset(q, size);
  }

  lemma TwinsAreWritable(r: Region)
    requires r.Valid()
    ensures forall p: nat :: p in r.writable <==> exists k :: 0 <= k < |r.twins| && r.twins[k].page == p
  {
    forall p: nat
      ensures p in r.writable <==> exists k :: 0 <= k < |r.twins| && r.twins[k].page == p
    {
      FindTwinFinds(r.twins, p);
    }
  }

  lemma EntryOfTwin(entries: seq<PageDiff>, twins: seq<Twin>, size: nat, p: nat)
    requires size > 0 && |entries| == |twins| && forall k | 0 <= k < |twins| :: entries[k].offset == twins[k].page * size
    ensures (exists k :: 0 <= k < |twins| && twins[k].page == p)
       <==> (exists k :: 0 <= k < |entries| && entries[k].offset == p * size)
  {
    if k :| 0 <= k < |entries| && entries[k].offset == p * size {
      SameOffset(twins[k].page, p, size);
    }
    if k :| 0 <= k < |twins| && twins[k].page == p {
      assert entries[k].offset == p * size;
    }
  }

  /** The diff of a region names the pages that may be written, whatever has been done to it. */
  lemma NamesWritable(r: Region)
    requires r.Valid()
    ensures NamesExactly(DiffPages(r.mem[..], r.twins, r.size), r.writable, r.size)
  {
    var entries := DiffPages(r.mem[..], r.twins, r.size);
    TwinsAreWritable(r);
    OneEntryEach(r.twins, r.writable);
    forall p: nat
      ensures p in r.writable <==> exists k :: 0 <= k < |entries| && entries[k].offset == p * r.size
    {
      EntryOfTwin(entries, r.twins, r.size, p);
    }
  }

  ghost predicate Inside(r: Region, ws: seq<Write>) {
    forall k | 0 <= k < |ws| :: ws[k].page < r.mem.Length && ws[k].offset < r.size
  }

  /** Every byte is as the last write to it left it. */
  ghost predicate Holds(now: map<Addr, Byte>, before: map<Addr, Byte>, ws: seq<Write>) {
    now.Keys == before.Keys && forall x | x in now :: now[x] == LastWrite(ws, x, before[x])
  }

  lemma HoldsOneMore(now: map<Addr, Byte>, before: map<Addr, Byte>, ws: seq<Write>, w: Write)
    requires Holds(now, before, ws) && Addr(w.page, w.offset) in now
    ensures Holds(now[Addr(w.page, w.offset) := w.v], before, ws + [w])
  {
    assert (ws + [w])[..|ws|] == ws;
  }

  /** What was in a region, was published of it and could be written. */
  datatype Before = Before(flat: map<Addr, Byte>, pub: Memory, writable: set<nat>)

  ghost function AsIs(r: Region): Before
    reads r, r.mem
  {
    Before(Flat(r.mem[..]), r.Pub(), r.writable)
  }

  /** That region after these stores. */
  ghost predicate After(r: Region, before: Before, ws: seq<Write>)
    reads r, r.mem
  {
    r.Valid() && Follows(before, AsIs(r), ws)
  }

  ghost predicate Follows(before: Before, now: Before, ws: seq<Write>) {
    && now.pub == before.pub && now.writable == before.writable + PagesOf(ws)
    && Holds(now.flat, before.flat, ws)
  }

  /** One store more. */
  lemma FollowsOneMore(before: Before, now: Before, next: Before, ws: seq<Write>, w: Write)
    requires Follows(before, now, ws) && Addr(w.page, w.offset) in now.flat
    requires next == Before(now.flat[Addr(w.page, w.offset) := w.v], now.pub, now.writable + {w.page})
    ensures Follows(before, next, ws + [w])
  {
    HoldsOneMore(now.flat, before.flat, ws, w);
    assert PagesOf(ws + [w]) == PagesOf(ws) + {w.page};
  }

  lemma InFlat(r: Region, page: nat, offset: nat)
    requires r.Valid() && page < r.mem.Length && offset < r.size
    ensures Addr(page, offset) in Flat(r.mem[..])
  {
    FlatByte(r.mem[..], r.mem.Length, r.size, Addr(page, offset));
  }

  method WriteNext(r: Region, w: Write, ghost before: Before, ghost ws: seq<Write>)
    requires After(r, before, ws) && w.page < r.mem.Length && w.offset < r.size
    modifies r`twins, r`writable, r.mem
    ensures After(r, before, ws + [w])
  {
    ghost var now := AsIs(r);
    InFlat(r, w.page, w.offset);
    r.Store(w.page, w.offset, w.v);
    FollowsOneMore(before, now, AsIs(r), ws, w);
  }

  method WriteAll(r: Region, ws: seq<Write>)
    requires r.Valid() && Inside(r, ws)
    modifies r`twins, r`writable, r.mem
    ensures After(r, old(AsIs(r)), ws)
  {
    for k := 0 to |ws|
      invariant After(r, old(AsIs(r)), ws[..k])
    {
      assert ws[..k + 1] == ws[..k] + [ws[k]];
      WriteNext(r, ws[k], old(AsIs(r)), ws[..k]);
    }
    assert ws[..|ws|] == ws;
  }

  /**
    A region with nothing pending takes a sequence of stores and is published: every byte is
    as the last store left it, and the diff has one entry for each page stored to, and no other.
   */
  method Session(r: Region, ws: seq<Write>) returns (diff: seq<Byte>, pages: nat, ghost d: RegionDiff)
    requires r.Valid() && r.twins == [] && Inside(r, ws)
    modifies r`twins, r`writable, r`stamp, r.mem
    ensures Settled(r) && Holds(Flat(r.mem[..]), old(Flat(r.mem[..])), ws)
    ensures diff == Encode(d) && pages == |d.pages| && NamesExactly(d.pages, PagesOf(ws), r.size)
  {
    NothingWritable(r);
    WriteAll(r, ws);
    d := NextDiff(r);
    NamesWritable(r);
    diff, pages := TakeDiff(r);
  }

  lemma NothingWritable(r: Region)
    requires r.Valid() && r.twins == []
    ensures r.writable == {}
  {
    assert forall p :: p !in r.writable;
  }
}
