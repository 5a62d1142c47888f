/**
  The layout of a diff on the wire, byte by byte, where one byte of one page has changed
  (src/memory/memory_dobj.c:150-161).
 */
module DiffLayout {
  import opened Bytes
  import opened Diffs
  import opened DiffCodec

  lemma {:induction false} OneRunUpTo(twin: Page, page: Page, i: nat, n: nat)
    requires |twin| == |page| && i < |page| && n <= |page|
    requires page[i] != twin[i] && forall k | 0 <= k < |page| && k != i :: page[k] == twin[k]
    ensures RunsUpTo(twin, page, n) == if n <= i then [] else [Section(i, [page[i]])]
  {
    if n > 0 {
      OneRunUpTo(twin, page, i, n - 1);
    }
  }

  /** Stamp, number of pages, offset of the page, number of sections, offset in the page, length, byte. */
  lemma OneByteDiff(stamp: nat, offset: nat, twin: Page, page: Page, i: nat)
    requires stamp < 0x1_0000_0000 && offset < 0x1_0000_0000 && |twin| == |page| < 65536 && i < |page|
    requires page[i] != twin[i] && forall k | 0 <= k < |page| && k != i :: page[k] == twin[k]
    ensures Encode(RegionDiff(stamp, [PageDiff(offset, Runs(twin, page))]))
         == [stamp % 256, stamp / 256 % 256, stamp / 65536 % 256, stamp / 16777216]
            + [1, 0, 0, 0]
            + [offset % 256, offset / 256 % 256, offset / 65536 % 256, offset / 16777216]
            + [1, 0]
            + [i % 256, i / 256]
            + [1, 0]
            + [page[i]]
  {
    OneRunUpTo(twin, page, i, |page|);
    LittleEndian(stamp);
    LittleEndian(offset);
    LittleEndian(i);
    OnePage(stamp, offset, Section(i, [page[i]]));
    Flattened(U32(stamp), [1, 0, 0, 0], U32(offset), [1, 0], U16(i), [1, 0], [page[i]]);
  }

  lemma OnePage(stamp: nat, offset: nat, s: Section)
    requires |s.data| == 1
    ensures Encode(RegionDiff(stamp, [PageDiff(offset, [s])]))
         == U32(stamp) + [1, 0, 0, 0] + (U32(offset) + [1, 0] + (U16(s.offset) + [1, 0] + s.data))
  {
    var p := PageDiff(offset, [s]);
    OnlyPage(p);
    OnlySection(s);
    LittleEndian(1);
  }

  lemma OnlyPage(p: PageDiff)
    ensures EncodePages([p]) == EncodePage(p)
  {
    assert [p][..0] == [];
    assert EncodePages([]) == [];
  }

  lemma OnlySection(s: Section)
    ensures EncodeSections([s]) == EncodeSection(s)
  {
    assert [s][..0] == [];
    assert EncodeSections([]) == [];
  }

  lemma Flattened(a: seq<Byte>, b: seq<Byte>, c: seq<Byte>, d: seq<Byte>, e: seq<Byte>, f: seq<Byte>, g: seq<Byte>)
    ensures a + b + (c + d + (e + f + g)) == a + b + c + d + e + f + g
  {
  }
}
