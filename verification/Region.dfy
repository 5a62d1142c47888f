/** The bytes of a region by their place, and how two states of them differ. */
module Addresses {
  import opened Bytes

  datatype Addr = Addr(page: nat, offset: nat)

  /** The bytes in which b differs from a. */
  ghost function Delta(a: map<Addr, Byte>, b: map<Addr, Byte>): map<Addr, Byte> {
    map x | x in b && x in a && a[x] != b[x] :: b[x]
  }
}

/**
  A shared region: an array of pages, the twins of the pages written since the
  last diff, and the pages that may be written (src/memory/memory.c,
  src/memory/memory_dobj.c). `region_lock` makes each method one step.
 */
module Regions {
  import opened Addresses
  import opened Options
  import opened Bytes
  import opened ByteStrings
  import opened Messages
  import opened Diffs
  import opened DiffCodec

  type Memory = seq<Page>

  datatype Twin = Twin(page: nat, data: Page)

  /** The first twin of a page, as LL_SEARCH_SCALAR finds it. */
  function FindTwin(twins: seq<Twin>, page: nat): Option<nat> {
    if |twins| == 0 then None
    else if twins[0].page == page then Some(0)
    else match FindTwin(twins[1..], page)
         case None => None
         case Some(k) => Some(k + 1)
  }

  lemma {:induction false} FindTwinFinds(twins: seq<Twin>, page: nat)
    ensures match FindTwin(twins, page)
            case None => forall k | 0 <= k < |twins| :: twins[k].page != page
            case Some(k) => k < |twins| && twins[k].page == page
  {
    if |twins| > 0 && twins[0].page != page {
      FindTwinFinds(twins[1..], page);
    }
  }

  /** A page as the other nodes know it: its twin if it has one, else the page itself. */
  ghost function PublishedPage(mem: Memory, twins: seq<Twin>, p: nat): Page
    requires p < |mem|
  {
    FindTwinFinds(twins, p);
    match FindTwin(twins, p)
    case None => mem[p]
    case Some(k) => twins[k].data
  }

  ghost function Published(mem: Memory, twins: seq<Twin>): (r: Memory)
    ensures |r| == |mem| && forall p | 0 <= p < |r| :: r[p] == PublishedPage(mem, twins, p)
  {
    seq(|mem|, p requires 0 <= p < |mem| => PublishedPage(mem, twins, p))
  }

  /** Pages of one size; every twin is of a page of the region and no page has two. */
  ghost predicate WellFormed(mem: Memory, twins: seq<Twin>, size: nat) {
    && 0 < size < 65536 && |mem| * size < 0x1_0000_0000
    && (forall p | 0 <= p < |mem| :: |mem[p]| == size)
    && (forall k | 0 <= k < |twins| :: twins[k].page < |mem| && |twins[k].data| == size)
    && (forall k, l | 0 <= k < l < |twins| :: twins[k].page != twins[l].page)
  }

  // ---- the diff of a region ----

  ghost function DiffPage(mem: Memory, t: Twin, size: nat): PageDiff
    requires t.page < |mem| && |t.data| == |mem[t.page]|
  {
    PageDiff(t.page * size, Runs(t.data, mem[t.page]))
  }

  ghost function DiffPages(mem: Memory, twins: seq<Twin>, size: nat): (r: seq<PageDiff>)
    requires WellFormed(mem, twins, size)
    ensures |r| == |twins|
    ensures forall k | 0 <= k < |twins| :: r[k] == DiffPage(mem, twins[k], size)
  {
    seq(|twins|, k requires 0 <= k < |twins| => DiffPage(mem, twins[k], size))
  }

  /** A received page section names a page of the region and stays inside it. */
  ghost predicate Acceptable(p: PageDiff, pages: nat, size: nat)
    requires size > 0
  {
    p.offset % size == 0 && p.offset / size < pages && AllFit(p.sections, size)
  }

  ghost function WritePage(mem: Memory, p: PageDiff, size: nat): (r: Memory)
    requires size > 0 && Acceptable(p, |mem|, size) && |mem[p.offset / size]| == size
    ensures |r| == |mem|
  {
    mem[p.offset / size := WriteSections(mem[p.offset / size], p.sections)]
  }

  ghost predicate Receivable(mem: Memory, pages: seq<PageDiff>, size: nat) {
    && size > 0 && (forall p | 0 <= p < |mem| :: |mem[p]| == size)
    && (forall k | 0 <= k < |pages| :: Acceptable(pages[k], |mem|, size))
  }

  ghost function WritePages(mem: Memory, pages: seq<PageDiff>, size: nat): (r: Memory)
    requires Receivable(mem, pages, size)
    ensures |r| == |mem| && forall p | 0 <= p < |r| :: |r[p]| == size
    decreases |pages|
  {
    if |pages| == 0 then mem
    else WritePages(WritePage(mem, pages[0], size), pages[1..], size)
  }

  // ---- the same at the level of bytes ----

  ghost function Flat(mem: Memory): map<Addr, Byte> {
    map p: nat, o: nat | p < |mem| && o < |mem[p]| :: Addr(p, o) := mem[p][o]
  }

  lemma PageOfOffset(p: nat, size: nat)
    requires size > 0
    ensures (p * size) % size == 0 && p * size / size == p
  {
    Remainder(p * size, p, 0, size);
  }

  lemma PagesBelow(p: nat, n: nat, size: nat)
    requires p < n
    ensures p * size + size <= n * size
  {
    Multiple(n - p, size);
    assert n * size == p * size + (n - p) * size;
  }

  /** Every count and offset of a region's diff fits its field, because size < 65536. */
  lemma DiffPagesFit(mem: Memory, twins: seq<Twin>, size: nat)
    requires WellFormed(mem, twins, size)
    ensures forall p | p in DiffPages(mem, twins, size) :: PageFits(p) && Acceptable(p, |mem|, size)
  {
    forall k | 0 <= k < |twins|
      ensures PageFits(DiffPage(mem, twins[k], size)) && Acceptable(DiffPage(mem, twins[k], size), |mem|, size)
    {
      var t := twins[k];
      PagesBelow(t.page, |mem|, size);
      PageOfOffset(t.page, size);
      var secs := Runs(t.data, mem[t.page]);
      RunsShape(t.data, mem[t.page], size);
      forall s | s in secs
        ensures SectionFits(s)
      {
        var j :| 0 <= j < |secs| && secs[j] == s;
        assert Fits(secs[j], size) && |secs[j].data| > 0;
      }
    }
  }

  lemma PublishedSize(mem: Memory, twins: seq<Twin>, size: nat, p: nat)
    requires WellFormed(mem, twins, size) && p < |mem|
    ensures |PublishedPage(mem, twins, p)| == |mem[p]| == size
  {
    FindTwinFinds(twins, p);
  }

  /** The first page diff changes its own page and makes the others' work no different. */
  lemma WriteFirst(base: Memory, mem: Memory, twins: seq<Twin>, size: nat)
    requires WellFormed(mem, twins, size) && |base| == |mem| && |twins| > 0
    requires forall q | 0 <= q < |base| :: |base[q]| == size
    ensures var pages := DiffPages(mem, twins, size);
            && pages[1..] == DiffPages(mem, twins[1..], size)
            && Acceptable(pages[0], |base|, size)
            && WritePage(base, pages[0], size)
            == base[twins[0].page := Overlay(base[twins[0].page], Changes(twins[0].data, mem[twins[0].page]))]
  {
    var t := twins[0];
    PageOfOffset(t.page, size);
    WriteIsOverlay(base[t.page], t.data, mem[t.page]);
  }

  lemma NoChanges(page: Page)
    ensures Changes(page, page) == map[]
  {
  }

  lemma NothingOverlaid(base: Page, page: Page)
    ensures Overlay(base, Changes(page, page)) == base
  {
    NoChanges(page);
  }

  /** The published page when there is one twin more. */
  lemma FirstTwin(mem: Memory, twins: seq<Twin>, size: nat, p: nat)
    requires WellFormed(mem, twins, size) && |twins| > 0 && p < |mem|
    ensures PublishedPage(mem, twins, p)
         == if twins[0].page == p then twins[0].data else PublishedPage(mem, twins[1..], p)
    ensures twins[0].page == p ==> PublishedPage(mem, twins[1..], p) == mem[p]
  {
    FindTwinFinds(twins[1..], p);
  }

  /** Page by page: a diff overlays any base with what the pages have and their twins have not. */
  lemma {:induction false} WritePagesAt(base: Memory, mem: Memory, twins: seq<Twin>, size: nat, p: nat)
    requires WellFormed(mem, twins, size) && |base| == |mem| && p < |mem|
    requires forall q | 0 <= q < |base| :: |base[q]| == size
    ensures Receivable(base, DiffPages(mem, twins, size), size)
    ensures |PublishedPage(mem, twins, p)| == |mem[p]|
    ensures WritePages(base, DiffPages(mem, twins, size), size)[p]
         == Overlay(base[p], Changes(PublishedPage(mem, twins, p), mem[p]))
    decreases |twins|
  {
    var pages := DiffPages(mem, twins, size);
    PublishedSize(mem, twins, size, p);
    ReceivableDiff(base, mem, twins, size);
    if |twins| == 0 {
      NothingOverlaid(base[p], mem[p]);
    } else {
      WriteFirst(base, mem, twins, size);
      var base' := WritePage(base, pages[0], size);
      WritePagesAt(base', mem, twins[1..], size, p);
      FirstTwin(mem, twins, size, p);
      if twins[0].page == p {
        NothingOverlaid(base'[p], mem[p]);
      }
    }
  }

  lemma ReceivableDiff(base: Memory, mem: Memory, twins: seq<Twin>, size: nat)
    requires WellFormed(mem, twins, size) && |base| == |mem|
    requires forall q | 0 <= q < |base| :: |base[q]| == size
    ensures Receivable(base, DiffPages(mem, twins, size), size)
  {
    DiffPagesFit(mem, twins, size);
    var pages := DiffPages(mem, twins, size);
    assert forall k | 0 <= k < |pages| :: pages[k] in pages;
  }

  /** All pages of a memory have the same size. */
  ghost predicate Sized(mem: Memory, n: nat, size: nat) {
    |mem| == n && forall p | 0 <= p < n :: |mem[p]| == size
  }

  /** r takes a byte of mem where pub has another, and keeps base's elsewhere. */
  ghost predicate TakesChanges(r: Memory, base: Memory, pub: Memory, mem: Memory, n: nat, size: nat) {
    && Sized(r, n, size) && Sized(base, n, size) && Sized(pub, n, size) && Sized(mem, n, size)
    && forall p, o | 0 <= p < n && 0 <= o < size ::
         r[p][o] == if pub[p][o] != mem[p][o] then mem[p][o] else base[p][o]
  }

  lemma FlatByte(m: Memory, n: nat, size: nat, x: Addr)
    requires Sized(m, n, size)
    ensures x in Flat(m) <==> x.page < n && x.offset < size
    ensures x in Flat(m) ==> Flat(m)[x] == m[x.page][x.offset]
  {
    assert x == Addr(x.page, x.offset);
  }

  /** A store to a page is a store to one byte of the region. */
  lemma StoreIsFlat(m: Memory, n: nat, size: nat, x: Addr, v: Byte)
    requires Sized(m, n, size) && x.page < n && x.offset < size
    ensures var page: Page := m[x.page][x.offset := v]; Flat(m[x.page := page]) == Flat(m)[x := v]
  {
    var page: Page := m[x.page][x.offset := v];
    var r := m[x.page := page];
    forall y: Addr
      ensures y in Flat(r) <==> y in Flat(m)[x := v]
      ensures y in Flat(r) ==> Flat(r)[y] == Flat(m)[x := v][y]
    {
      FlatByte(m, n, size, y);
      FlatByte(r, n, size, y);
    }
  }

  lemma FlatTakesDelta(r: Memory, base: Memory, pub: Memory, mem: Memory, n: nat, size: nat)
    requires TakesChanges(r, base, pub, mem, n, size)
    ensures Flat(r) == Flat(base) + Delta(Flat(pub), Flat(mem))
  {
    var left, right := Flat(r), Flat(base) + Delta(Flat(pub), Flat(mem));
    forall x: Addr
      ensures x in left <==> x in right
      ensures x in left ==> left[x] == right[x]
    {
      FlatByte(r, n, size, x);
      FlatByte(base, n, size, x);
      FlatByte(pub, n, size, x);
      FlatByte(mem, n, size, x);
    }
  }

  lemma DiffTakesChanges(base: Memory, mem: Memory, twins: seq<Twin>, size: nat)
    requires WellFormed(mem, twins, size) && Sized(base, |mem|, size)
    ensures Receivable(base, DiffPages(mem, twins, size), size)
    ensures TakesChanges(WritePages(base, DiffPages(mem, twins, size), size), base, Published(mem, twins), mem, |mem|, size)
  {
    ReceivableDiff(base, mem, twins, size);
    var r, pub := WritePages(base, DiffPages(mem, twins, size), size), Published(mem, twins);
    forall p | 0 <= p < |mem|
      ensures |pub[p]| == size && r[p] == Overlay(base[p], Changes(pub[p], mem[p]))
    {
      WritePagesAt(base, mem, twins, size, p);
      PublishedSize(mem, twins, size, p);
    }
  }

  /**
    Handling the diff of a region, on any copy of it, is overlaying the bytes that
    differ between what was published and what is there now.
   */
  lemma DiffIsDelta(base: Memory, mem: Memory, twins: seq<Twin>, size: nat)
    requires WellFormed(mem, twins, size) && Sized(base, |mem|, size)
    ensures Receivable(base, DiffPages(mem, twins, size), size)
    ensures Flat(WritePages(base, DiffPages(mem, twins, size), size))
         == Flat(base) + Delta(Flat(Published(mem, twins)), Flat(mem))
  {
    DiffTakesChanges(base, mem, twins, size);
    FlatTakesDelta(WritePages(base, DiffPages(mem, twins, size), size), base, Published(mem, twins), mem, |mem|, size);
  }

  /** A copy that has what was published becomes the sender's region. */
  lemma RegionRoundTrip(mem: Memory, twins: seq<Twin>, size: nat)
    requires WellFormed(mem, twins, size)
    ensures var pub := Published(mem, twins);
            && Receivable(pub, DiffPages(mem, twins, size), size)
            && WritePages(pub, DiffPages(mem, twins, size), size) == mem
  {
    var pub := Published(mem, twins);
    forall p | 0 <= p < |mem|
      ensures |pub[p]| == size
    {
      PublishedSize(mem, twins, size, p);
    }
    ReceivableDiff(pub, mem, twins, size);
    var r := WritePages(pub, DiffPages(mem, twins, size), size);
    forall p | 0 <= p < |mem|
      ensures r[p] == mem[p]
    {
      WritePagesAt(pub, mem, twins, size, p);
      assert r[p] == Overlay(pub[p], Changes(pub[p], mem[p])) == mem[p];
    }
  }

  lemma {:induction false} AtMostOneTwinEach(twins: seq<Twin>, pages: set<nat>)
    requires forall k | 0 <= k < |twins| :: twins[k].page in pages
    requires forall k, l | 0 <= k < l < |twins| :: twins[k].page != twins[l].page
    ensures |twins| <= |pages|
  {
    if |twins| > 0 {
      AtMostOneTwinEach(twins[1..], pages - {twins[0].page});
    }
  }

  ghost function FirstNats(n: nat): (s: set<nat>)
    ensures |s| == n && forall k :: k in s <==> 0 <= k < n
  {
    if n == 0 then {} else FirstNats(n - 1) + {n - 1}
  }

  /**
    The message that diff_region builds parses back to the diff it was built from,
    and handling it on a copy that has what was published gives the sender's region.
   */
  lemma DiffArrives(mem: Memory, twins: seq<Twin>, size: nat, stamp: nat, rest: seq<Byte>)
    requires WellFormed(mem, twins, size) && stamp < 0x1_0000_0000
    ensures var d := RegionDiff(stamp, DiffPages(mem, twins, size));
            var pub := Published(mem, twins);
            && Parse(Encode(d) + rest) == Some((d, rest))
            && (forall k | 0 <= k < |d.pages| :: Acceptable(d.pages[k], |mem|, size))
            && Receivable(pub, d.pages, size) && WritePages(pub, d.pages, size) == mem
  {
    var pages := DiffPages(mem, twins, size);
    DiffPagesFit(mem, twins, size);
    AtMostOneTwinEach(twins, FirstNats(|mem|));
    if |mem| > 0 {
      PagesBelow(|mem| - 1, |mem|, size);
      Multiple(size, |mem|);
    }
    assert forall k | 0 <= k < |pages| :: pages[k] in pages;
    ParseEncode(RegionDiff(stamp, pages), rest);
    RegionRoundTrip(mem, twins, size);
  }

  // ---- writing a diff into a message ----

  /** The count of the last section is corrected and the byte appended: the section has grown. */
  lemma EncodeGrow(secs: seq<Section>, b: Byte, c: seq<Byte>, at: nat, patched: seq<Byte>)
    requires |secs| > 0 && c == EncodeSections(secs)
    requires at == |c| - |secs[|secs| - 1].data| - 2
    requires patched == c[..at] + U16(|secs[|secs| - 1].data| + 1) + c[at + 2..]
    ensures patched + [b] == EncodeSections(Grow(secs, b))
  {
    var k := |secs| - 1;
    var last := secs[k];
    var front, offset, was, now := EncodeSections(secs[..k]), U16(last.offset), U16(|last.data|), U16(|last.data| + 1);
    assert c == front + (offset + was + last.data);
    PatchMiddle(front, offset, was, last.data, now, b);
    assert at == |front + offset|;
    assert Grow(secs, b)[..k] == secs[..k];
    assert EncodeSections(Grow(secs, b)) == front + (offset + now + (last.data + [b]));
  }

  lemma PatchMiddle(front: seq<Byte>, offset: seq<Byte>, was: seq<Byte>, data: seq<Byte>, now: seq<Byte>, b: Byte)
    requires |was| == 2
    ensures var c, at := front + (offset + was + data), |front + offset|;
            c[..at] + now + c[at + 2..] + [b] == front + (offset + now + (data + [b]))
  {
    var c, at := front + (offset + was + data), |front + offset|;
    assert c[..at] == front + offset && c[at + 2..] == data;
  }

  lemma EncodeOpen(secs: seq<Section>, n: nat, b: Byte)
    ensures EncodeSections(secs + [Section(n, [b])]) == EncodeSections(secs) + U16(n) + U16(1) + [b]
  {
    assert (secs + [Section(n, [b])])[..|secs|] == secs;
  }

  /** A differing byte next to a differing byte (src/memory/memory_dobj.c:192-193, 205-206). */
  method GrowSection(msg: Message, countAt: nat, contiguous: nat, b: Byte, ghost start: seq<Byte>, ghost secs: seq<Section>)
    requires msg.Valid() && msg.Contents() == start + EncodeSections(secs)
    requires |secs| > 0 && contiguous == |secs[|secs| - 1].data| + 1
    requires |start| <= countAt == |msg.Contents()| - contiguous - 1
    modifies msg, msg.buffer
    ensures msg.Valid() && (msg.buffer == old(msg.buffer) || fresh(msg.buffer))
    ensures msg.Contents() == start + EncodeSections(Grow(secs, b))
  {
    ghost var c, at := EncodeSections(secs), countAt - |start|;
    EncodeGrow(secs, b, c, at, c[..at] + U16(contiguous) + c[at + 2..]);
    PatchAndWrite(msg, countAt, U16(contiguous), b, start, c);
  }

  method PatchBehind(msg: Message, at: nat, bytes: seq<Byte>, ghost start: seq<Byte>, ghost c: seq<Byte>)
    requires msg.Valid() && msg.Contents() == start + c && |start| <= at && at + |bytes| <= |start + c|
    modifies msg.buffer
    ensures msg.Valid()
    ensures var k := at - |start|; msg.Contents() == start + (c[..k] + bytes + c[k + |bytes|..])
  {
    PatchAfter(start, c, at - |start|, bytes);
    msg.Patch(at, bytes);
  }

  method PatchAndWrite(msg: Message, at: nat, bytes: seq<Byte>, b: Byte, ghost start: seq<Byte>, ghost c: seq<Byte>)
    requires msg.Valid() && msg.Contents() == start + c && |start| <= at && at + |bytes| <= |start + c|
    modifies msg, msg.buffer
    ensures msg.Valid() && (msg.buffer == old(msg.buffer) || fresh(msg.buffer))
    ensures var k := at - |start|; msg.Contents() == start + (c[..k] + bytes + c[k + |bytes|..] + [b])
  {
    ghost var k := at - |start|;
    Assoc(start, c[..k] + bytes + c[k + |bytes|..], [b]);
    PatchBehind(msg, at, bytes, start, c);
    msg.Write([b]);
  }

  /** A differing byte that opens a section (src/memory/memory_dobj.c:195-206). */
  method OpenSection(msg: Message, i: nat, b: Byte, ghost start: seq<Byte>, ghost secs: seq<Section>) returns (countAt: nat)
    requires msg.Valid() && msg.Contents() == start + EncodeSections(secs)
    modifies msg, msg.buffer
    ensures msg.Valid() && (msg.buffer == old(msg.buffer) || fresh(msg.buffer))
    ensures msg.Contents() == start + EncodeSections(secs + [Section(i, [b])])
    ensures |start| <= countAt == |msg.Contents()| - 3
  {
    ghost var front, grown := start + EncodeSections(secs) + U16(i), EncodeSections(secs) + U16(i) + U16(1);
    EncodeOpen(secs, i, b);
    PatchLast(front, U16(0), U16(1));
    Assoc(start, grown, [b]);
    assert front + U16(1) == start + grown;
    msg.Write(U16(i));
    countAt := msg.dataSize;
    msg.Write(U16(0));
    msg.Patch(countAt, U16(1));
    msg.Write([b]);
  }

  /** What the message and the three counters hold after i bytes. */
  ghost predicate RunsWritten(c: seq<Byte>, start: seq<Byte>, twin: Page, page: Page, i: nat,
                              countAt: nat, contiguous: nat, sections: nat) {
    && |twin| == |page| && i <= |page|
    && var secs := RunsUpTo(twin, page, i);
       && c == start + EncodeSections(secs) && sections == |secs|
       && (if i > 0 && page[i - 1] != twin[i - 1]
           then contiguous == |secs[sections - 1].data| > 0 && |start| <= countAt == |c| - contiguous - 2
           else contiguous == 0)
  }

  /** One turn of the loop over the bytes. */
  method WriteByte(msg: Message, twin: Page, page: Page, i: nat, countAt: nat, contiguous: nat, sections: nat,
                   ghost start: seq<Byte>)
    returns (countAt': nat, contiguous': nat, sections': nat)
    requires msg.Valid() && i < |page| && RunsWritten(msg.Contents(), start, twin, page, i, countAt, contiguous, sections)
    modifies msg, msg.buffer
    ensures msg.Valid() && (msg.buffer == old(msg.buffer) || fresh(msg.buffer))
    ensures RunsWritten(msg.Contents(), start, twin, page, i + 1, countAt', contiguous', sections')
  {
    countAt', contiguous', sections' := countAt, contiguous, sections;
    ghost var secs := RunsUpTo(twin, page, i);
    if page[i] != twin[i] {
      if contiguous != 0 {
        contiguous' := contiguous + 1;
        GrowSection(msg, countAt, contiguous', page[i], start, secs);
      } else {
        countAt' := OpenSection(msg, i, page[i], start, secs);
        contiguous' := 1;
        sections' := sections + 1;
      }
    } else {
      contiguous' := 0;
    }
  }

  /**
    The loop over the bytes of a page (src/memory/memory_dobj.c:186-210): counts are
    written as zero and corrected in place as their sections grow.
   */
  method WriteRuns(msg: Message, twin: Page, page: Page) returns (sections: nat)
    requires msg.Valid() && |twin| == |page| < 65536
    modifies msg, msg.buffer
    ensures msg.Valid() && (msg.buffer == old(msg.buffer) || fresh(msg.buffer))
    ensures msg.Contents() == old(msg.Contents()) + EncodeSections(Runs(twin, page))
    ensures sections == |Runs(twin, page)|
  {
    var countAt, contiguous := 0, 0;
    sections := 0;
    ghost var start := msg.Contents();
    assert start + [] == start;
    for i := 0 to |page|
      invariant msg.Valid() && (msg.buffer == old(msg.buffer) || fresh(msg.buffer))
      invariant RunsWritten(msg.Contents(), start, twin, page, i, countAt, contiguous, sections)
    {
      countAt, contiguous, sections := WriteByte(msg, twin, page, i, countAt, contiguous, sections, start);
    }
  }

  /** A hole left between two parts is filled in. */
  method FillHole(msg: Message, at: nat, bytes: seq<Byte>, ghost before: seq<Byte>, ghost hole: seq<Byte>, ghost after: seq<Byte>)
    requires msg.Valid() && msg.Contents() == before + hole + after && at == |before| && |bytes| == |hole|
    modifies msg.buffer
    ensures msg.Valid() && msg.Contents() == before + (bytes + after)
  {
    ghost var c := msg.Contents();
    assert c[..at] == before && c[at + |bytes|..] == after;
    msg.Patch(at, bytes);
  }

  /** One turn of the loop over the twins (src/memory/memory_dobj.c:175-215). */
  method WritePageDiff(msg: Message, t: Twin, page: Page, size: nat)
    requires msg.Valid() && |t.data| == |page| < 65536
    modifies msg, msg.buffer
    ensures msg.Valid() && (msg.buffer == old(msg.buffer) || fresh(msg.buffer))
    ensures msg.Contents() == old(msg.Contents()) + EncodePage(PageDiff(t.page * size, Runs(t.data, page)))
  {
    ghost var start := msg.Contents();
    msg.Write(U32(t.page * size));
    var sectionsAt := msg.dataSize;
    msg.Write(U16(0));
    var sections := WriteRuns(msg, t.data, page);
    ghost var head, count, body := U32(t.page * size), U16(sections), EncodeSections(Runs(t.data, page));
    FillHole(msg, sectionsAt, U16(sections), start + head, U16(0), body);
    Assoc(start, head, count + body);
    Assoc(head, count, body);
  }

  lemma EncodeOneMore(start: seq<Byte>, pages: seq<PageDiff>, k: nat)
    requires k < |pages|
    ensures start + EncodePages(pages[..k]) + EncodePage(pages[k]) == start + EncodePages(pages[..k + 1])
  {
    assert pages[..k + 1][..k] == pages[..k];
    assert start + EncodePages(pages[..k]) + EncodePage(pages[k]) == start + (EncodePages(pages[..k]) + EncodePage(pages[k]));
  }

  /** The twins in the order of the list, each turned into a page of the diff. */
  method WriteTwins(msg: Message, mem: array<Page>, twins: seq<Twin>, size: nat)
    requires msg.Valid() && WellFormed(mem[..], twins, size)
    modifies msg, msg.buffer
    ensures msg.Valid() && (msg.buffer == old(msg.buffer) || fresh(msg.buffer))
    ensures msg.Contents() == old(msg.Contents()) + EncodePages(DiffPages(mem[..], twins, size))
    ensures mem[..] == old(mem[..])
  {
    ghost var start, pages := msg.Contents(), DiffPages(mem[..], twins, size);
    assert start + [] == start;
    for k := 0 to |twins|
      invariant msg.Valid() && (msg.buffer == old(msg.buffer) || fresh(msg.buffer))
      invariant mem[..] == old(mem[..])
      invariant msg.Contents() == start + EncodePages(pages[..k])
    {
      WritePageDiff(msg, twins[k], mem[twins[k].page], size);
      EncodeOneMore(start, pages, k);
    }
    assert pages[..|twins|] == pages;
  }

  /** The message part of diff_region (src/memory/memory_dobj.c:166-220). */
  method WriteDiff(msg: Message, mem: array<Page>, twins: seq<Twin>, size: nat, stamp: nat)
    requires msg.Valid() && WellFormed(mem[..], twins, size)
    modifies msg, msg.buffer
    ensures msg.Valid() && (msg.buffer == old(msg.buffer) || fresh(msg.buffer))
    ensures msg.Contents() == old(msg.Contents()) + Encode(RegionDiff(stamp, DiffPages(mem[..], twins, size)))
    ensures mem[..] == old(mem[..])
  {
    ghost var start := msg.Contents();
    msg.Write(U32(stamp));
    var pagesAt := msg.dataSize;
    msg.Write(U32(0));
    WriteTwins(msg, mem, twins, size);
    FinishDiff(msg, pagesAt, start, RegionDiff(stamp, DiffPages(mem[..], twins, size)), |twins|);
  }

  /** The count of pages replaces the zero written for it (src/memory/memory_dobj.c:220). */
  method FinishDiff(msg: Message, pagesAt: nat, ghost start: seq<Byte>, ghost d: RegionDiff, count: nat)
    requires msg.Valid() && count == |d.pages| && pagesAt == |start| + 4
    requires msg.Contents() == start + U32(d.stamp) + U32(0) + EncodePages(d.pages)
    modifies msg.buffer
    ensures msg.Valid() && msg.Contents() == start + Encode(d)
  {
    ghost var head, body := U32(d.stamp), EncodePages(d.pages);
    FillHole(msg, pagesAt, U32(count), start + head, U32(0), body);
    Assoc(start, head, U32(count) + body);
    Assoc(head, U32(count), body);
  }

  // ---- reading a diff from a message ----

  /** The header and the bytes of a section (src/memory/memory_dobj.c:80-86, 103-109). */
  method ReadSection(msg: Message) returns (s: Section)
    requires msg.Valid() && ParseSection(msg.Contents()).Some?
    modifies msg
    ensures msg.Valid() && msg.buffer == old(msg.buffer)
    ensures ParseSection(old(msg.Contents())) == Some((s, msg.Contents()))
  {
    var offset := ReadU16(msg);
    var length := ReadU16(msg);
    ghost var c := msg.Contents();
    var r := msg.Read(length);
    assert c[..length] == r.value && c[length..] == msg.Contents();
    s := Section(offset, r.value);
  }

  /** What is left to parse after some of n sections have been read. */
  ghost predicate SectionsLeft(n: nat, c: seq<Byte>, secs: seq<Section>, rest: seq<Byte>) {
    |secs| == n && ParseSections(n, c) == Some((secs, rest))
  }

  lemma SectionsLeftStep(n: nat, c: seq<Byte>, secs: seq<Section>, rest: seq<Byte>)
    requires SectionsLeft(n, c, secs, rest) && n > 0
    ensures ParseSection(c).Some?
    ensures ParseSection(c).value.0 == secs[0] && SectionsLeft(n - 1, ParseSection(c).value.1, secs[1..], rest)
  {
  }

  lemma {:induction false} ParsedCount(n: nat, c: seq<Byte>)
    ensures ParseSections(n, c).Some? ==> |ParseSections(n, c).value.0| == n
  {
    if n > 0 && ParseSection(c).Some? {
      ParsedCount(n - 1, ParseSection(c).value.1);
    }
  }

  ghost predicate PagesLeft(n: nat, c: seq<Byte>, pages: seq<PageDiff>, rest: seq<Byte>) {
    |pages| == n && ParsePages(n, c) == Some((pages, rest))
  }

  lemma PagesLeftStep(n: nat, c: seq<Byte>, pages: seq<PageDiff>, rest: seq<Byte>)
    requires PagesLeft(n, c, pages, rest) && n > 0
    ensures ParsePage(c).Some?
    ensures ParsePage(c).value.0 == pages[0] && PagesLeft(n - 1, ParsePage(c).value.1, pages[1..], rest)
  {
  }

  lemma {:induction false} ParsedPageCount(n: nat, c: seq<Byte>)
    ensures ParsePages(n, c).Some? ==> |ParsePages(n, c).value.0| == n
  {
    if n > 0 && ParsePage(c).Some? {
      ParsedPageCount(n - 1, ParsePage(c).value.1);
    }
  }

  method ReadPageHeader(msg: Message, ghost p: PageDiff, ghost rest: seq<Byte>) returns (offset: nat, n: nat)
    requires msg.Valid() && ParsePage(msg.Contents()) == Some((p, rest))
    modifies msg
    ensures msg.Valid() && msg.buffer == old(msg.buffer)
    ensures offset == p.offset && SectionsLeft(n, msg.Contents(), p.sections, rest)
  {
    offset := ReadU32(msg);
    n := ReadU16(msg);
    ParsedCount(n, msg.Contents());
  }

  /** The sections are written to a copy of the page (src/memory/memory_dobj.c:77-87). */
  method ReadOver(msg: Message, n: nat, page: Page, ghost secs: seq<Section>, ghost rest: seq<Byte>) returns (shadow: Page)
    requires msg.Valid() && SectionsLeft(n, msg.Contents(), secs, rest) && AllFit(secs, |page|)
    modifies msg
    ensures msg.Valid() && msg.buffer == old(msg.buffer) && msg.Contents() == rest
    ensures shadow == WriteSections(page, secs)
  {
    shadow := page;
    ghost var left := secs;
    for j := 0 to n
      invariant msg.Valid() && msg.buffer == old(msg.buffer) && SectionsLeft(n - j, msg.Contents(), left, rest)
      invariant |shadow| == |page| && AllFit(left, |page|) && WriteSections(shadow, left) == WriteSections(page, secs)
    {
      WriteNext(shadow, left);
      var s := ReadNext(msg, n - j, left, rest);
      shadow := shadow[..s.offset] + s.data + shadow[s.offset + |s.data|..];
      left := left[1..];
    }
  }

  method ReadNext(msg: Message, ghost n: nat, ghost secs: seq<Section>, ghost rest: seq<Byte>) returns (s: Section)
    requires msg.Valid() && SectionsLeft(n, msg.Contents(), secs, rest) && n > 0
    modifies msg
    ensures msg.Valid() && msg.buffer == old(msg.buffer)
    ensures s == secs[0] && SectionsLeft(n - 1, msg.Contents(), secs[1..], rest)
  {
    SectionsLeftStep(n, msg.Contents(), secs, rest);
    s := ReadSection(msg);
  }

  lemma WriteNext(page: Page, secs: seq<Section>)
    requires AllFit(secs, |page|) && |secs| > 0
    ensures Fits(secs[0], |page|) && AllFit(secs[1..], |page|)
    ensures WriteSections(page, secs) == WriteSections(WriteSection(page, secs[0]), secs[1..])
  {
  }

  /** What the twin has taken is copied to the page: both have taken the section. */
  lemma BothTake(twin: Page, page: Page, s: Section)
    requires |twin| == |page| && Fits(s, |page|)
    ensures var end, t := s.offset + |s.data|, WriteSection(twin, s);
            page[..s.offset] + t[s.offset..end] + page[end..] == WriteSection(page, s)
  {
    assert WriteSection(twin, s)[s.offset..s.offset + |s.data|] == s.data;
  }

  method ReadSectionOverBoth(msg: Message, ghost n: nat, twin: Page, page: Page, ghost secs: seq<Section>, ghost rest: seq<Byte>)
    returns (twin': Page, page': Page)
    requires msg.Valid() && SectionsLeft(n, msg.Contents(), secs, rest) && n > 0
    requires |twin| == |page| && Fits(secs[0], |page|)
    modifies msg
    ensures msg.Valid() && msg.buffer == old(msg.buffer) && SectionsLeft(n - 1, msg.Contents(), secs[1..], rest)
    ensures twin' == WriteSection(twin, secs[0]) && page' == WriteSection(page, secs[0])
  {
    var s := ReadNext(msg, n, secs, rest);
    var end := s.offset + |s.data|;
    BothTake(twin, page, s);
    twin' := twin[..s.offset] + s.data + twin[end..];
    page' := page[..s.offset] + twin'[s.offset..end] + page[end..];
  }

  /** The sections are written to the twin and copied from it to the page (src/memory/memory_dobj.c:102-113). */
  method ReadOverBoth(msg: Message, n: nat, twin: Page, page: Page, ghost secs: seq<Section>, ghost rest: seq<Byte>)
    returns (twin': Page, page': Page)
    requires msg.Valid() && SectionsLeft(n, msg.Contents(), secs, rest) && AllFit(secs, |page|) && |twin| == |page|
    modifies msg
    ensures msg.Valid() && msg.buffer == old(msg.buffer) && msg.Contents() == rest
    ensures twin' == WriteSections(twin, secs) && page' == WriteSections(page, secs)
  {
    twin', page' := twin, page;
    ghost var left := secs;
    for j := 0 to n
      invariant msg.Valid() && msg.buffer == old(msg.buffer) && SectionsLeft(n - j, msg.Contents(), left, rest)
      invariant |twin'| == |page'| == |page| && AllFit(left, |page|)
      invariant WriteSections(twin', left) == WriteSections(twin, secs)
      invariant WriteSections(page', left) == WriteSections(page, secs)
    {
      WriteNext(twin', left);
      WriteNext(page', left);
      twin', page' := ReadSectionOverBoth(msg, n - j, twin', page', left, rest);
      left := left[1..];
    }
  }

  /** Changing the contents of a twin leaves every twin where it is found. */
  lemma {:induction false} SameTwins(twins: seq<Twin>, k: nat, data: Page)
    requires k < |twins|
    ensures forall p :: FindTwin(twins[k := Twin(twins[k].page, data)], p) == FindTwin(twins, p)
  {
    forall p
      ensures FindTwin(twins[k := Twin(twins[k].page, data)], p) == FindTwin(twins, p)
    {
      if k > 0 {
        SameTwins(twins[1..], k - 1, data);
        assert twins[k := Twin(twins[k].page, data)][1..] == twins[1..][k - 1 := Twin(twins[k].page, data)];
      } else {
        assert twins[0 := Twin(twins[0].page, data)][1..] == twins[1..];
      }
    }
  }

  lemma PublishedAfterChange(mem: Memory, twins: seq<Twin>, size: nat, k: nat, t: Page, m: Page)
    requires WellFormed(mem, twins, size) && k < |twins| && |t| == |m| == size
    ensures var page := twins[k].page;
            Published(mem[page := m], twins[k := Twin(page, t)]) == Published(mem, twins)[page := t]
  {
    var page := twins[k].page;
    var twins' := twins[k := Twin(page, t)];
    SameTwins(twins, k, t);
    var left, right := Published(mem[page := m], twins'), Published(mem, twins)[page := t];
    forall p | 0 <= p < |mem|
      ensures left[p] == right[p]
    {
      FindTwinFinds(twins, p);
      if p == page {
        assert FindTwin(twins, p) == Some(k);
      }
    }
    assert left == right;
  }

  /** after is before with the sections of one page of a diff written to it. */
  ghost predicate PageWritten(before: Memory, after: Memory, p: PageDiff, size: nat) {
    size > 0 && Sized(before, |before|, size) && Acceptable(p, |before|, size) && after == WritePage(before, p, size)
  }

  ghost predicate SectionsWritten(before: Memory, after: Memory, page: nat, secs: seq<Section>) {
    if secs == [] then after == before
    else page < |before| && AllFit(secs, |before[page]|) && after == before[page := WriteSections(before[page], secs)]
  }

  lemma WrittenAt(before: Memory, after: Memory, p: PageDiff, size: nat)
    requires size > 0 && Sized(before, |before|, size) && Acceptable(p, |before|, size)
    requires SectionsWritten(before, after, p.offset / size, p.sections)
    ensures PageWritten(before, after, p, size)
  {
  }

  // ---- the region object ----

  class Region {
    const size: nat              // edsm_memory_pagesize
    const mem: array<Page>
    var twins: seq<Twin>
    var writable: set<nat>       // the pages that mprotect has made PROT_READ | PROT_WRITE
    var stamp: nat               // lamport_timestamp

    /** A page is writable exactly when it has a twin, and no page has two. */
    ghost predicate Valid()
      reads this, mem
    {
      && WellFormed(mem[..], twins, size)
      && (forall p :: p in writable <==> FindTwin(twins, p).Some?)
    }

    ghost function Pub(): Memory
      reads this, mem
    {
      Published(mem[..], twins)
    }

    /** edsm_memory_region_get: zeroed and write-protected (src/memory/memory.c:59-86). */
    constructor (pages: nat, size: nat)
      requires 0 < size < 65536 && pages * size < 0x1_0000_0000
      ensures Valid() && fresh(mem) && this.size == size && mem.Length == pages && twins == []
      ensures Pub() == mem[..] && forall p | 0 <= p < pages :: mem[p] == seq(size, _ => 0)
    {
      var zero: Page := seq(size, _ => 0);
      mem := new Page[pages](_ => zero);
      this.size, twins, writable, stamp := size, [], {}, 0;
    }

    /** tx_begin: the page is twinned unless it is, and made writable (src/memory/memory.c:89-112). */
    method TxBegin(page: nat)
      requires Valid() && page < mem.Length
      modifies this`twins, this`writable
      ensures Valid() && Pub() == old(Pub()) && writable == old(writable) + {page}
      ensures twins == if page in old(writable) then old(twins) else [Twin(page, mem[page])] + old(twins)
    {
      FindTwinFinds(twins, page);
      if FindTwin(twins, page).None? {
        twins := [Twin(page, mem[page])] + twins;
        assert forall p :: p != page ==> FindTwin(twins, p).Some? == old(FindTwin(twins, p)).Some?;
      }
      writable := writable + {page};
    }

    /**
      A store by the program. It faults into tx_begin unless the page is writable;
      what has been published does not change.
     */
    method Store(page: nat, offset: nat, v: Byte)
      requires Valid() && page < mem.Length && offset < size
      modifies this`twins, this`writable, mem
      ensures Valid() && Pub() == old(Pub())
      ensures mem[..] == old(mem[..])[page := old(mem[page])[offset := v]] && writable == old(writable) + {page}
      ensures twins == if page in old(writable) then old(twins) else [Twin(page, old(mem[page]))] + old(twins)
      ensures Flat(mem[..]) == old(Flat(mem[..]))[Addr(page, offset) := v]
    {
      StoreIsFlat(mem[..], mem.Length, size, Addr(page, offset), v);
      if page !in writable {
        TxBegin(page);
      }
      SetByte(page, offset, v);
    }

    /** What the processor does once the page is writable. */
    method SetByte(page: nat, offset: nat, v: Byte)
      requires Valid() && page < mem.Length && offset < size && page in writable
      modifies mem
      ensures Valid() && Pub() == old(Pub())
      ensures mem[..] == old(mem[..])[page := old(mem[page])[offset := v]]
    {
      FindTwinFinds(twins, page);
      mem[page] := mem[page][offset := v];
    }

    /**
      diff_region: the message gets the diff, the twins go and the pages are
      protected, so that what is there is what has been published.
     */
    method DiffRegion(msg: Message) returns (numPages: nat)
      requires Valid() && msg.Valid()
      modifies this`twins, this`writable, this`stamp, msg, msg.buffer
      ensures Valid() && mem[..] == old(mem[..]) && twins == [] && writable == {} && Pub() == mem[..]
      ensures stamp == old(stamp) + 1 && numPages == |old(twins)|
      ensures msg.Valid() && (msg.buffer == old(msg.buffer) || fresh(msg.buffer))
      ensures msg.Contents() == old(msg.Contents()) + Encode(RegionDiff(stamp, DiffPages(mem[..], old(twins), size)))
    {
      stamp := stamp + 1;
      WriteDiff(msg, mem, twins, size, stamp);
      numPages := |twins|;
      Protect();
    }

    /** The twins are freed and their pages protected (src/memory/memory_dobj.c:182-212). */
    method Protect()
      requires Valid()
      modifies this`twins, this`writable
      ensures Valid() && twins == [] && writable == {} && Pub() == mem[..]
    {
      twins, writable := [], {};
    }

    /** A page without a twin is replaced by a shadow copy (src/memory/memory_dobj.c:64-97). */
    method SwapShadow(page: nat, shadow: Page)
      requires Valid() && page < mem.Length && |shadow| == size && FindTwin(twins, page).None?
      modifies mem
      ensures Valid() && mem[..] == old(mem[..])[page := shadow]
      ensures Pub() == old(Pub())[page := shadow]
    {
      mem[page] := shadow;
    }

    /** A page with a twin is changed together with it (src/memory/memory_dobj.c:98-113). */
    method ChangeBoth(page: nat, k: nat, t: Page, m: Page)
      requires Valid() && page < mem.Length && |t| == |m| == size && FindTwin(twins, page) == Some(k) && k < |twins|
      modifies this`twins, mem
      ensures Valid() && mem[..] == old(mem[..])[page := m]
      ensures Pub() == old(Pub())[page := t]
    {
      FindTwinFinds(twins, page);
      SameTwins(twins, k, t);
      PublishedAfterChange(mem[..], twins, size, k, t, m);
      twins := twins[k := Twin(page, t)];
      mem[page] := m;
    }

    /** The sections of one page of a received diff (src/memory/memory_dobj.c:54-115). */
    method HandleSections(msg: Message, n: nat, page: nat, ghost secs: seq<Section>, ghost rest: seq<Byte>)
      requires Valid() && msg.Valid() && page < mem.Length
      requires SectionsLeft(n, msg.Contents(), secs, rest) && AllFit(secs, size)
      modifies this`twins, mem, msg
      ensures Valid() && msg.Valid() && msg.buffer == old(msg.buffer) && msg.Contents() == rest
      ensures |old(mem[page])| == size && mem[..] == old(mem[..])[page := WriteSections(old(mem[page]), secs)]
      ensures |old(Pub()[page])| == size && Pub() == old(Pub())[page := WriteSections(old(Pub()[page]), secs)]
    {
      PublishedSize(mem[..], twins, size, page);
      FindTwinFinds(twins, page);
      match FindTwin(twins, page) {
        case None =>
          var shadow := ReadOver(msg, n, mem[page], secs, rest);
          SwapShadow(page, shadow);
        case Some(k) =>
          var t, m := ReadOverBoth(msg, n, twins[k].data, mem[page], secs, rest);
          ChangeBoth(page, k, t, m);
      }
    }

    /** The same for a page that may have no sections (src/memory/memory_dobj.c:54). */
    method HandleAnySections(msg: Message, n: nat, page: nat, ghost secs: seq<Section>, ghost rest: seq<Byte>)
      requires Valid() && msg.Valid() && page < mem.Length
      requires SectionsLeft(n, msg.Contents(), secs, rest) && AllFit(secs, size)
      modifies this`twins, mem, msg
      ensures Valid() && msg.Valid() && msg.buffer == old(msg.buffer) && msg.Contents() == rest
      ensures SectionsWritten(old(mem[..]), mem[..], page, secs) && SectionsWritten(old(Pub()), Pub(), page, secs)
    {
      if n > 0 {
        HandleSections(msg, n, page, secs, rest);
      }
    }

    /** One page of a received diff, which may have no sections (src/memory/memory_dobj.c:46-118). */
    method HandlePage(msg: Message, ghost p: PageDiff, ghost rest: seq<Byte>)
      requires Valid() && msg.Valid()
      requires ParsePage(msg.Contents()) == Some((p, rest)) && Acceptable(p, mem.Length, size)
      modifies this`twins, mem, msg
      ensures Valid() && msg.Valid() && msg.buffer == old(msg.buffer) && msg.Contents() == rest
      ensures PageWritten(old(mem[..]), mem[..], p, size) && PageWritten(old(Pub()), Pub(), p, size)
    {
      PubSized();
      var offset, n := ReadPageHeader(msg, p, rest);
      HandlePageBody(msg, n, offset, p, rest);
    }

    method HandlePageBody(msg: Message, n: nat, offset: nat, ghost p: PageDiff, ghost rest: seq<Byte>)
      requires Valid() && msg.Valid() && Sized(mem[..], mem.Length, size) && Sized(Pub(), mem.Length, size)
      requires SectionsLeft(n, msg.Contents(), p.sections, rest) && offset == p.offset && Acceptable(p, mem.Length, size)
      modifies this`twins, mem, msg
      ensures Valid() && msg.Valid() && msg.buffer == old(msg.buffer) && msg.Contents() == rest
      ensures PageWritten(old(mem[..]), mem[..], p, size) && PageWritten(old(Pub()), Pub(), p, size)
    {
      ghost var memory, published := mem[..], Pub();
      HandleAnySections(msg, n, offset / size, p.sections, rest);
      WrittenAt(memory, mem[..], p, size);
      WrittenAt(published, Pub(), p, size);
    }

    lemma PubSized()
      requires Valid()
      ensures Sized(mem[..], mem.Length, size) && Sized(Pub(), mem.Length, size)
    {
      forall p | 0 <= p < mem.Length
        ensures |Pub()[p]| == size
      {
        PublishedSize(mem[..], twins, size, p);
      }
    }

    /** The loop over the pages (src/memory/memory_dobj.c:45-119). */
    method HandlePages(msg: Message, n: nat, ghost pages: seq<PageDiff>, ghost rest: seq<Byte>)
      requires Valid() && msg.Valid()
      requires PagesLeft(n, msg.Contents(), pages, rest)
      requires forall k | 0 <= k < |pages| :: Acceptable(pages[k], mem.Length, size)
      modifies this`twins, mem, msg
      ensures Valid() && msg.Valid() && msg.buffer == old(msg.buffer) && msg.Contents() == rest
      ensures Receivable(old(mem[..]), pages, size) && mem[..] == WritePages(old(mem[..]), pages, size)
      ensures Receivable(old(Pub()), pages, size) && Pub() == WritePages(old(Pub()), pages, size)
    {
      PubSized();
      ghost var left := pages;
      for i := 0 to n
        invariant Valid() && msg.Valid() && msg.buffer == old(msg.buffer)
        invariant PagesLeft(n - i, msg.Contents(), left, rest)
        invariant Receivable(mem[..], left, size) && Receivable(Pub(), left, size)
        invariant WritePages(mem[..], left, size) == WritePages(old(mem[..]), pages, size)
        invariant WritePages(Pub(), left, size) == WritePages(old(Pub()), pages, size)
      {
        HandleNextPage(msg, n - i, left, rest);
        left := left[1..];
      }
    }

    method HandleNextPage(msg: Message, ghost n: nat, ghost pages: seq<PageDiff>, ghost rest: seq<Byte>)
      requires Valid() && msg.Valid() && PagesLeft(n, msg.Contents(), pages, rest) && n > 0
      requires Receivable(mem[..], pages, size) && Receivable(Pub(), pages, size)
      modifies this`twins, mem, msg
      ensures Valid() && msg.Valid() && msg.buffer == old(msg.buffer) && PagesLeft(n - 1, msg.Contents(), pages[1..], rest)
      ensures Receivable(mem[..], pages[1..], size) && Receivable(Pub(), pages[1..], size)
      ensures WritePages(mem[..], pages[1..], size) == WritePages(old(mem[..]), pages, size)
      ensures WritePages(Pub(), pages[1..], size) == WritePages(old(Pub()), pages, size)
    {
      PagesLeftStep(n, msg.Contents(), pages, rest);
      HandlePage(msg, pages[0], ParsePage(msg.Contents()).value.1);
    }

    /** edsm_memory_handle_message, on any message that parses and names pages of the region. */
    method HandleMessage(msg: Message, ghost d: RegionDiff, ghost rest: seq<Byte>)
      requires Valid() && msg.Valid()
      requires Parse(msg.Contents()) == Some((d, rest))
      requires forall k | 0 <= k < |d.pages| :: Acceptable(d.pages[k], mem.Length, size)
      modifies this`twins, this`stamp, mem, msg
      ensures Valid() && msg.Valid() && msg.Contents() == rest
      ensures stamp == if d.stamp > old(stamp) then d.stamp else old(stamp)
      ensures Receivable(old(mem[..]), d.pages, size) && mem[..] == WritePages(old(mem[..]), d.pages, size)
      ensures Receivable(old(Pub()), d.pages, size) && Pub() == WritePages(old(Pub()), d.pages, size)
    {
      var received := ReadU32(msg);
      if received > stamp {
        stamp := received;
      }
      var n := ReadU32(msg);
      ParsedPageCount(n, msg.Contents());
      HandlePages(msg, n, d.pages, rest);
    }
  }
}
