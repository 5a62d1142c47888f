/**
  The three-way merge of src/memory/memory_dobj.c:98-113: a received diff is written to
  a page and to its twin alike. What that does to the local changes that are still to be
  published, for any diff that fits, and when two diffs can change places.
 */
module Merging {
  import opened Diffs
  import opened DiffCodec
  import opened Regions

  /** The offsets that a list of sections writes. */
  ghost function Covered(secs: seq<Section>): set<nat> {
    if |secs| == 0 then {} else (set a: nat | a < secs[0].offset + |secs[0].data| && Covers(secs[0], a)) + Covered(secs[1..])
  }

  /** A covered byte comes from the sections whatever was there; another stays. */
  lemma {:induction false} SectionBytes(p: Page, q: Page, secs: seq<Section>, a: nat)
    requires |p| == |q| && AllFit(secs, |p|) && a < |p|
    ensures a !in Covered(secs) ==> WriteSections(p, secs)[a] == p[a]
    ensures a in Covered(secs) ==> WriteSections(p, secs)[a] == WriteSections(q, secs)[a]
    decreases |secs|
  {
    if |secs| > 0 {
      var p', q' := WriteSection(p, secs[0]), WriteSection(q, secs[0]);
      SectionBytes(p', q', secs[1..], a);
      SectionBytes(q', p', secs[1..], a);
      if a !in Covered(secs[1..]) {
        assert Covers(secs[0], a) ==> p'[a] == q'[a] == secs[0].data[a - secs[0].offset];
      }
    }
  }

  /** The runs of a page cover exactly the bytes that differ. */
  lemma RunsCover(twin: Page, page: Page, a: nat)
    requires |twin| == |page| && a < |page|
    ensures a in Covered(Runs(twin, page)) <==> page[a] != twin[a]
  {
    var secs := Runs(twin, page);
    RoundTrip(twin, page);
    SectionBytes(twin, twin, secs, a);
    if a in Covered(secs) {
      var s := CoveringSection(secs, a);
      RunsHoldChanges(twin, page, |page|);
      assert Holds(s, twin, page);
    }
  }

  lemma {:induction false} CoveringSection(secs: seq<Section>, a: nat) returns (s: Section)
    requires a in Covered(secs)
    ensures s in secs && Covers(s, a)
  {
    if Covers(secs[0], a) {
      s := secs[0];
    } else {
      s := CoveringSection(secs[1..], a);
    }
  }

  /** The offsets in page p that a diff writes. */
  ghost function CoveredAt(pages: seq<PageDiff>, p: nat, size: nat): set<nat>
    requires size > 0
  {
    if |pages| == 0 then {}
    else (if pages[0].offset / size == p then Covered(pages[0].sections) else {}) + CoveredAt(pages[1..], p, size)
  }

  lemma {:induction false} PageBytes(m: Memory, n: Memory, pages: seq<PageDiff>, size: nat, p: nat, a: nat)
    requires Receivable(m, pages, size) && Receivable(n, pages, size) && |m| == |n| && p < |m| && a < size
    ensures a !in CoveredAt(pages, p, size) ==> WritePages(m, pages, size)[p][a] == m[p][a]
    ensures a in CoveredAt(pages, p, size) ==> WritePages(m, pages, size)[p][a] == WritePages(n, pages, size)[p][a]
    decreases |pages|
  {
    if |pages| > 0 {
      var m', n' := WritePage(m, pages[0], size), WritePage(n, pages[0], size);
      PageBytes(m', n', pages[1..], size, p, a);
      PageBytes(n', m', pages[1..], size, p, a);
      if pages[0].offset / size == p {
        SectionBytes(m[p], n[p], pages[0].sections, a);
        SectionBytes(n[p], m[p], pages[0].sections, a);
      }
    }
  }

  /**
    Any diff written to the pages and to what has been published of them leaves the
    pending changes, save for the bytes it covers: no other local change is lost, and no
    received byte is sent again.
   */
  lemma MergeKeepsPending(mem: Memory, pub: Memory, pages: seq<PageDiff>, size: nat, p: nat)
    requires Receivable(mem, pages, size) && Receivable(pub, pages, size) && |mem| == |pub| && p < |mem|
    ensures Changes(WritePages(pub, pages, size)[p], WritePages(mem, pages, size)[p])
         == Changes(pub[p], mem[p]) - CoveredAt(pages, p, size)
  {
    var mem', pub' := WritePages(mem, pages, size), WritePages(pub, pages, size);
    forall a | 0 <= a < size
      ensures if a in CoveredAt(pages, p, size) then mem'[p][a] == pub'[p][a]
              else mem'[p][a] == mem[p][a] && pub'[p][a] == pub[p][a]
    {
      PageBytes(mem, pub, pages, size, p, a);
      PageBytes(pub, mem, pages, size, p, a);
    }
    ChangesBesides(pub[p], mem[p], pub'[p], mem'[p], CoveredAt(pages, p, size));
  }

  lemma ChangesBesides(twin: Page, page: Page, twin': Page, page': Page, covered: set<nat>)
    requires |twin| == |page| == |twin'| == |page'|
    requires forall a | 0 <= a < |page| ::
               if a in covered then page'[a] == twin'[a] else page'[a] == page[a] && twin'[a] == twin[a]
    ensures Changes(twin', page') == Changes(twin, page) - covered
  {
  }

  /** Diffs that cover no byte in common can be received in either order. */
  lemma DisjointDiffsCommute(mem: Memory, d: seq<PageDiff>, e: seq<PageDiff>, size: nat)
    requires Receivable(mem, d, size) && Receivable(mem, e, size)
    requires forall p | 0 <= p < |mem| :: CoveredAt(d, p, size) !! CoveredAt(e, p, size)
    ensures WritePages(WritePages(mem, d, size), e, size) == WritePages(WritePages(mem, e, size), d, size)
  {
    var md, me := WritePages(mem, d, size), WritePages(mem, e, size);
    var left, right := WritePages(md, e, size), WritePages(me, d, size);
    forall p | 0 <= p < |mem|
      ensures left[p] == right[p]
    {
      forall a | 0 <= a < size
        ensures left[p][a] == right[p][a]
      {
        PageBytes(mem, me, d, size, p, a);
        PageBytes(me, mem, d, size, p, a);
        PageBytes(mem, md, e, size, p, a);
        PageBytes(md, mem, e, size, p, a);
      }
    }
  }
}
