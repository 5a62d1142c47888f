/** The message format of a region diff (src/memory/memory_dobj.c:150-161). */
module DiffCodec {
  import opened Options
  import opened Bytes
  import opened ByteStrings
  import opened Diffs

  datatype PageDiff = PageDiff(offset: nat, sections: seq<Section>)

  datatype RegionDiff = RegionDiff(stamp: nat, pages: seq<PageDiff>)

  function EncodeSection(s: Section): seq<Byte> {
    U16(s.offset) + U16(|s.data|) + s.data
  }

  function EncodeSections(secs: seq<Section>): seq<Byte> {
    if |secs| == 0 then [] else EncodeSections(secs[..|secs| - 1]) + EncodeSection(secs[|secs| - 1])
  }

  function EncodePage(p: PageDiff): seq<Byte> {
    U32(p.offset) + U16(|p.sections|) + EncodeSections(p.sections)
  }

  function EncodePages(pages: seq<PageDiff>): seq<Byte> {
    if |pages| == 0 then [] else EncodePages(pages[..|pages| - 1]) + EncodePage(pages[|pages| - 1])
  }

  function Encode(d: RegionDiff): seq<Byte> {
    U32(d.stamp) + U32(|d.pages|) + EncodePages(d.pages)
  }

  // ---- every count and offset fits its field ----

  predicate SectionFits(s: Section) {
    s.offset < 65536 && |s.data| < 65536
  }

  ghost predicate PageFits(p: PageDiff) {
    && p.offset < 0x1_0000_0000 && |p.sections| < 65536
    && forall s | s in p.sections :: SectionFits(s)
  }

  ghost predicate DiffFits(d: RegionDiff) {
    && d.stamp < 0x1_0000_0000 && |d.pages| < 0x1_0000_0000
    && forall p | p in d.pages :: PageFits(p)
  }

  // ---- reading it back ----

  function ParseSection(s: seq<Byte>): Parsed<Section> {
    match TakeU16(s)
    case None => None
    case Some((offset, s1)) =>
      match TakeU16(s1)
      case None => None
      case Some((length, s2)) =>
        match Take(length, s2)
        case None => None
        case Some((data, s3)) => Some((Section(offset, data), s3))
  }

  function ParseSections(n: nat, s: seq<Byte>): Parsed<seq<Section>> {
    if n == 0 then Some(([], s))
    else
      match ParseSection(s)
      case None => None
      case Some((first, s1)) =>
        match ParseSections(n - 1, s1)
        case None => None
        case Some((others, s2)) => Some(([first] + others, s2))
  }

  function ParsePage(s: seq<Byte>): Parsed<PageDiff> {
    match TakeU32(s)
    case None => None
    case Some((offset, s1)) =>
      match TakeU16(s1)
      case None => None
      case Some((count, s2)) =>
        match ParseSections(count, s2)
        case None => None
        case Some((secs, s3)) => Some((PageDiff(offset, secs), s3))
  }

  function ParsePages(n: nat, s: seq<Byte>): Parsed<seq<PageDiff>> {
    if n == 0 then Some(([], s))
    else
      match ParsePage(s)
      case None => None
      case Some((first, s1)) =>
        match ParsePages(n - 1, s1)
        case None => None
        case Some((others, s2)) => Some(([first] + others, s2))
  }

  function Parse(s: seq<Byte>): Parsed<RegionDiff> {
    match TakeU32(s)
    case None => None
    case Some((stamp, s1)) =>
      match TakeU32(s1)
      case None => None
      case Some((count, s2)) =>
        match ParsePages(count, s2)
        case None => None
        case Some((pages, s3)) => Some((RegionDiff(stamp, pages), s3))
  }

  lemma ParsesSection(s: Section, rest: seq<Byte>)
    requires SectionFits(s)
    ensures ParseSection(EncodeSection(s) + rest) == Some((s, rest))
  {
    var s1 := U16(|s.data|) + (s.data + rest);
    assert EncodeSection(s) + rest == U16(s.offset) + s1;
    TakesU16(s.offset, s1);
    TakesU16(|s.data|, s.data + rest);
    assert (s.data + rest)[..|s.data|] == s.data && (s.data + rest)[|s.data|..] == rest;
  }

  lemma {:induction false} EncodeSectionsFirst(secs: seq<Section>)
    requires |secs| > 0
    ensures EncodeSections(secs) == EncodeSection(secs[0]) + EncodeSections(secs[1..])
  {
    if |secs| == 1 {
      assert secs[..0] == [] && secs[1..] == [];
    } else {
      var k := |secs| - 1;
      var first, middle, last := EncodeSection(secs[0]), EncodeSections(secs[1..][..k - 1]), EncodeSection(secs[k]);
      EncodeSectionsFirst(secs[..k]);
      assert secs[..k][1..] == secs[1..][..k - 1];
      assert secs[1..][k - 1] == secs[k];
      assert first + middle + last == first + (middle + last);
    }
  }

  lemma {:induction false} ParsesSections(secs: seq<Section>, rest: seq<Byte>)
    requires forall s | s in secs :: SectionFits(s)
    ensures ParseSections(|secs|, EncodeSections(secs) + rest) == Some((secs, rest))
    decreases |secs|
  {
    if |secs| == 0 {
      assert [] + rest == rest;
    } else {
      EncodeSectionsFirst(secs);
      var more := EncodeSections(secs[1..]) + rest;
      assert EncodeSections(secs) + rest == EncodeSection(secs[0]) + more;
      ParsesSection(secs[0], more);
      ParsesSections(secs[1..], rest);
      assert [secs[0]] + secs[1..] == secs;
    }
  }

  lemma ParsesPage(p: PageDiff, rest: seq<Byte>)
    requires PageFits(p)
    ensures ParsePage(EncodePage(p) + rest) == Some((p, rest))
  {
    var body := EncodeSections(p.sections) + rest;
    assert EncodePage(p) + rest == U32(p.offset) + (U16(|p.sections|) + body);
    TakesU32(p.offset, U16(|p.sections|) + body);
    TakesU16(|p.sections|, body);
    ParsesSections(p.sections, rest);
  }

  lemma {:induction false} EncodePagesFirst(pages: seq<PageDiff>)
    requires |pages| > 0
    ensures EncodePages(pages) == EncodePage(pages[0]) + EncodePages(pages[1..])
  {
    if |pages| == 1 {
      assert pages[..0] == [] && pages[1..] == [];
    } else {
      var k := |pages| - 1;
      EncodePagesFirst(pages[..k]);
      assert pages[..k][1..] == pages[1..][..k - 1];
      assert pages[1..][k - 1] == pages[k];
    }
  }

  lemma ParsePagesUnfolds(n: nat, s: seq<Byte>, first: PageDiff, s1: seq<Byte>, others: seq<PageDiff>, s2: seq<Byte>)
    requires n > 0 && ParsePage(s) == Some((first, s1)) && ParsePages(n - 1, s1) == Some((others, s2))
    ensures ParsePages(n, s) == Some(([first] + others, s2))
  {
  }

  lemma {:induction false} ParsesPages(pages: seq<PageDiff>, rest: seq<Byte>)
    requires forall p | p in pages :: PageFits(p)
    ensures ParsePages(|pages|, EncodePages(pages) + rest) == Some((pages, rest))
    decreases |pages|
  {
    if |pages| == 0 {
      assert [] + rest == rest;
    } else {
      EncodePagesFirst(pages);
      var more := EncodePages(pages[1..]) + rest;
      assert EncodePages(pages) + rest == EncodePage(pages[0]) + more;
      ParsesPage(pages[0], more);
      ParsesPages(pages[1..], rest);
      ParsePagesUnfolds(|pages|, EncodePages(pages) + rest, pages[0], more, pages[1..], rest);
      assert [pages[0]] + pages[1..] == pages;
    }
  }

  /** A diff whose counts fit their fields is read back as it was, and nothing after it is touched. */
  lemma ParseEncode(d: RegionDiff, rest: seq<Byte>)
    requires DiffFits(d)
    ensures Parse(Encode(d) + rest) == Some((d, rest))
  {
    var body := EncodePages(d.pages) + rest;
    assert Encode(d) + rest == U32(d.stamp) + (U32(|d.pages|) + body);
    TakesU32(d.stamp, U32(|d.pages|) + body);
    TakesU32(|d.pages|, body);
    ParsesPages(d.pages, rest);
  }
}
