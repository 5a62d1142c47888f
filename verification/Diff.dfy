/**
  What diff_region and edsm_memory_handle_message compute on one page, as values:
  the runs of bytes in which a page differs from its twin (src/memory/memory_dobj.c:186-210)
  and the writing of such runs over a page (src/memory/memory_dobj.c:79-113).
 */
module Diffs {
  import opened Bytes

  datatype Section = Section(offset: nat, data: seq<Byte>)

  type Page = seq<Byte>

  /** The last section gets one more byte. */
  function Grow(secs: seq<Section>, b: Byte): seq<Section>
    requires |secs| > 0
  {
    var last := secs[|secs| - 1];
    secs[..|secs| - 1] + [Section(last.offset, last.data + [b])]
  }

  /**
    The sections of the first n bytes. A differing byte continues the last section
    when the byte before it differs too, and opens a new one otherwise.
   */
  function RunsUpTo(twin: Page, page: Page, n: nat): (secs: seq<Section>)
    requires |twin| == |page| && n <= |page|
    ensures n > 0 && page[n - 1] != twin[n - 1] ==> |secs| > 0
  {
    if n == 0 then []
    else
      var before := RunsUpTo(twin, page, n - 1);
      if page[n - 1] == twin[n - 1] then before
      else if n - 1 > 0 && page[n - 2] != twin[n - 2] then Grow(before, page[n - 1])
      else before + [Section(n - 1, [page[n - 1]])]
  }

  function Runs(twin: Page, page: Page): seq<Section>
    requires |twin| == |page|
  {
    RunsUpTo(twin, page, |page|)
  }

  ghost predicate Fits(s: Section, n: nat) {
    s.offset + |s.data| <= n
  }

  ghost predicate AllFit(secs: seq<Section>, n: nat) {
    forall k | 0 <= k < |secs| :: Fits(secs[k], n)
  }

  /** Bytes are written in the order of the sections. */
  ghost function WriteSection(page: Page, s: Section): (r: Page)
    requires Fits(s, |page|)
    ensures |r| == |page|
  {
    page[..s.offset] + s.data + page[s.offset + |s.data|..]
  }

  ghost function WriteSections(page: Page, secs: seq<Section>): (r: Page)
    requires AllFit(secs, |page|)
    ensures |r| == |page|
    decreases |secs|
  {
    if |secs| == 0 then page
    else WriteSections(WriteSection(page, secs[0]), secs[1..])
  }

  // ---- what the sections look like ----

  /** Non-empty, in order, and apart by at least one byte that does not differ. */
  ghost predicate Separated(secs: seq<Section>) {
    && (forall k | 0 <= k < |secs| :: |secs[k].data| > 0)
    && (forall k | 0 <= k < |secs| - 1 :: secs[k].offset + |secs[k].data| < secs[k + 1].offset)
  }

  /** Byte a lies in section s. */
  ghost predicate Covers(s: Section, a: nat) {
    s.offset <= a < s.offset + |s.data|
  }

  /** The shape of the sections of the first n bytes, the last of which differs or not. */
  ghost predicate Shape(secs: seq<Section>, n: nat, differs: bool) {
    && Separated(secs) && AllFit(secs, n)
    && 2 * |secs| <= n + 1
    && (if differs then |secs| > 0 && secs[|secs| - 1].offset + |secs[|secs| - 1].data| == n
        else 2 * |secs| <= n && (n > 0 ==> AllFit(secs, n - 1)))
  }

  lemma GrowShape(secs: seq<Section>, n: nat, b: Byte)
    requires Shape(secs, n, true)
    ensures Shape(Grow(secs, b), n + 1, true)
  {
  }

  lemma OpenShape(secs: seq<Section>, n: nat, b: Byte)
    requires Shape(secs, n, false)
    ensures Shape(secs + [Section(n, [b])], n + 1, true)
  {
    if |secs| > 0 {
      assert Fits(secs[|secs| - 1], n - 1);
    }
  }

  lemma {:induction false} RunsShape(twin: Page, page: Page, n: nat)
    requires |twin| == |page| && n <= |page|
    ensures Shape(RunsUpTo(twin, page, n), n, n > 0 && page[n - 1] != twin[n - 1])
  {
    if n > 0 {
      RunsShape(twin, page, n - 1);
      var before := RunsUpTo(twin, page, n - 1);
      if page[n - 1] == twin[n - 1] {
      } else if n - 1 > 0 && page[n - 2] != twin[n - 2] {
        GrowShape(before, n - 1, page[n - 1]);
      } else {
        OpenShape(before, n - 1, page[n - 1]);
      }
    }
  }

  /** A section holds exactly the page's bytes at its place, and they all differ from the twin's. */
  ghost predicate Holds(s: Section, twin: Page, page: Page) {
    && Fits(s, |page|) && |twin| == |page| && s.data == page[s.offset..s.offset + |s.data|]
    && forall a: nat | Covers(s, a) :: page[a] != twin[a]
  }

  lemma GrowHolds(secs: seq<Section>, twin: Page, page: Page, n: nat)
    requires Shape(secs, n, true) && n < |page| && |twin| == |page| && page[n] != twin[n]
    requires forall s | s in secs :: Holds(s, twin, page)
    ensures forall s | s in Grow(secs, page[n]) :: Holds(s, twin, page)
  {
    var last := secs[|secs| - 1];
    var more := Section(last.offset, last.data + [page[n]]);
    assert last in secs && Holds(more, twin, page);
    assert Grow(secs, page[n]) == secs[..|secs| - 1] + [more];
  }

  lemma {:induction false} RunsHoldChanges(twin: Page, page: Page, n: nat)
    requires |twin| == |page| && n <= |page|
    ensures forall s | s in RunsUpTo(twin, page, n) :: Holds(s, twin, page)
  {
    if n > 0 {
      RunsHoldChanges(twin, page, n - 1);
      RunsShape(twin, page, n - 1);
      if page[n - 1] == twin[n - 1] {
      } else if n - 1 > 0 && page[n - 2] != twin[n - 2] {
        GrowHolds(RunsUpTo(twin, page, n - 1), twin, page, n - 1);
      } else {
        assert Holds(Section(n - 1, [page[n - 1]]), twin, page);
      }
    }
  }

  /** A section cannot be extended: the bytes on either side do not differ. */
  ghost predicate Maximal(s: Section, twin: Page, page: Page, n: nat) {
    && Fits(s, n) && n <= |page| == |twin|
    && (s.offset > 0 ==> page[s.offset - 1] == twin[s.offset - 1])
    && (s.offset + |s.data| < n ==> page[s.offset + |s.data|] == twin[s.offset + |s.data|])
  }

  lemma GrowMaximal(secs: seq<Section>, twin: Page, page: Page, n: nat)
    requires Shape(secs, n, true) && n < |page| == |twin| && page[n] != twin[n]
    requires forall s | s in secs :: Maximal(s, twin, page, n)
    ensures forall s | s in Grow(secs, page[n]) :: Maximal(s, twin, page, n + 1)
  {
    var last := secs[|secs| - 1];
    var more := Section(last.offset, last.data + [page[n]]);
    assert Maximal(last, twin, page, n) && Maximal(more, twin, page, n + 1);
    var front := secs[..|secs| - 1];
    forall s | s in front
      ensures Maximal(s, twin, page, n + 1)
    {
      var k :| 0 <= k < |secs| - 1 && secs[k] == s;
      assert Maximal(secs[k], twin, page, n);
      EndsBeforeLast(secs, k);
    }
    assert Grow(secs, page[n]) == secs[..|secs| - 1] + [more];
  }

  lemma OpenMaximal(secs: seq<Section>, twin: Page, page: Page, n: nat)
    requires Shape(secs, n, false) && n < |page| == |twin| && (n > 0 ==> page[n - 1] == twin[n - 1])
    requires forall s | s in secs :: Maximal(s, twin, page, n)
    ensures forall s | s in secs + [Section(n, [page[n]])] :: Maximal(s, twin, page, n + 1)
  {
    forall s | s in secs
      ensures Maximal(s, twin, page, n + 1)
    {
      var k :| 0 <= k < |secs| && secs[k] == s;
      assert Maximal(secs[k], twin, page, n) && Fits(secs[k], n - 1);
    }
  }

  lemma SkipMaximal(secs: seq<Section>, twin: Page, page: Page, n: nat)
    requires n < |page| == |twin| && page[n] == twin[n]
    requires forall s | s in secs :: Maximal(s, twin, page, n)
    ensures forall s | s in secs :: Maximal(s, twin, page, n + 1)
  {
  }

  lemma {:induction false} RunsMaximal(twin: Page, page: Page, n: nat)
    requires |twin| == |page| && n <= |page|
    ensures forall s | s in RunsUpTo(twin, page, n) :: Maximal(s, twin, page, n)
  {
    if n > 0 {
      RunsMaximal(twin, page, n - 1);
      RunsShape(twin, page, n - 1);
      var before := RunsUpTo(twin, page, n - 1);
      if page[n - 1] == twin[n - 1] {
        SkipMaximal(before, twin, page, n - 1);
      } else if n - 1 > 0 && page[n - 2] != twin[n - 2] {
        GrowMaximal(before, twin, page, n - 1);
      } else {
        OpenMaximal(before, twin, page, n - 1);
      }
    }
  }

  lemma {:induction false} EndsBeforeLast(secs: seq<Section>, k: nat)
    requires Separated(secs) && k < |secs| - 1
    ensures secs[k].offset + |secs[k].data| < secs[|secs| - 1].offset
    decreases |secs| - k
  {
    if k < |secs| - 2 {
      EndsBeforeLast(secs, k + 1);
    }
  }

  // ---- the overlay of changed bytes, the meaning of a diff ----

  ghost function Changes(twin: Page, page: Page): map<nat, Byte>
    requires |twin| == |page|
  {
    map a: nat | a < |page| && page[a] != twin[a] :: page[a]
  }

  ghost function Overlay(base: Page, d: map<nat, Byte>): (r: Page)
    ensures |r| == |base|
    ensures forall a | 0 <= a < |base| :: r[a] == if a in d then d[a] else base[a]
  {
    seq(|base|, a requires 0 <= a < |base| => if a in d then d[a] else base[a])
  }

  lemma {:induction false} WriteAppend(base: Page, secs: seq<Section>, s: Section)
    requires AllFit(secs + [s], |base|)
    ensures AllFit(secs, |base|) && Fits(s, |base|)
    ensures WriteSections(base, secs + [s]) == WriteSection(WriteSections(base, secs), s)
    decreases |secs|
  {
    assert (secs + [s])[|secs|] == s;
    assert AllFit(secs, |base|) by {
      forall k | 0 <= k < |secs|
        ensures Fits(secs[k], |base|)
      {
        assert (secs + [s])[k] == secs[k];
      }
    }
    if |secs| > 0 {
      assert (secs + [s])[1..] == secs[1..] + [s];
      WriteAppend(WriteSection(base, secs[0]), secs[1..], s);
    }
  }

  lemma WriteLonger(x: Page, off: nat, data: seq<Byte>, b: Byte)
    requires off + |data| < |x|
    ensures WriteSection(x, Section(off, data + [b])) == WriteSection(x, Section(off, data))[off + |data| := b]
  {
  }

  lemma GrowWrites(base: Page, secs: seq<Section>, n: nat, b: Byte)
    requires |secs| > 0 && AllFit(secs, |base|) && n < |base|
    requires secs[|secs| - 1].offset + |secs[|secs| - 1].data| == n
    ensures AllFit(Grow(secs, b), |base|)
    ensures WriteSections(base, Grow(secs, b)) == WriteSections(base, secs)[n := b]
  {
    var k := |secs| - 1;
    var last, more := secs[k], Section(secs[k].offset, secs[k].data + [b]);
    assert secs == secs[..k] + [last] && Grow(secs, b) == secs[..k] + [more];
    WriteAppend(base, secs[..k], last);
    WriteAppend(base, secs[..k], more);
    WriteLonger(WriteSections(base, secs[..k]), last.offset, last.data, b);
  }

  lemma WriteOne(x: Page, n: nat, b: Byte)
    requires n < |x|
    ensures WriteSection(x, Section(n, [b])) == x[n := b]
  {
  }

  lemma FitAppend(secs: seq<Section>, s: Section, n: nat)
    requires AllFit(secs, n) && Fits(s, n)
    ensures AllFit(secs + [s], n)
  {
  }

  lemma OpenWrites(base: Page, secs: seq<Section>, n: nat, b: Byte)
    requires AllFit(secs, |base|) && n < |base|
    ensures AllFit(secs + [Section(n, [b])], |base|)
    ensures WriteSections(base, secs + [Section(n, [b])]) == WriteSections(base, secs)[n := b]
  {
    FitAppend(secs, Section(n, [b]), |base|);
    WriteAppend(base, secs, Section(n, [b]));
    WriteOne(WriteSections(base, secs), n, b);
  }

  /** r is base with the first n bytes of page put where they differ from the twin's. */
  ghost predicate Written(r: Page, base: Page, twin: Page, page: Page, n: nat) {
    && |r| == |base| == |twin| == |page|
    && forall a | 0 <= a < |base| :: r[a] == if a < n && page[a] != twin[a] then page[a] else base[a]
  }

  lemma RunsFit(twin: Page, page: Page, n: nat)
    requires |twin| == |page| && n <= |page|
    ensures AllFit(RunsUpTo(twin, page, n), |page|)
    ensures n > 0 && page[n - 1] != twin[n - 1] ==>
              var secs := RunsUpTo(twin, page, n); secs[|secs| - 1].offset + |secs[|secs| - 1].data| == n
  {
    RunsShape(twin, page, n);
    var secs := RunsUpTo(twin, page, n);
    forall k | 0 <= k < |secs|
      ensures Fits(secs[k], |page|)
    {
      assert Fits(secs[k], n);
    }
  }

  /** The sections of the first n bytes put the changes there and nothing else. */
  lemma {:induction false} RunsWrite(base: Page, twin: Page, page: Page, n: nat)
    requires |base| == |twin| == |page| && n <= |page|
    ensures AllFit(RunsUpTo(twin, page, n), |base|)
    ensures Written(WriteSections(base, RunsUpTo(twin, page, n)), base, twin, page, n)
  {
    RunsFit(twin, page, n);
    if n > 0 {
      RunsWrite(base, twin, page, n - 1);
      RunsFit(twin, page, n - 1);
      var before := RunsUpTo(twin, page, n - 1);
      if page[n - 1] == twin[n - 1] {
      } else if n - 1 > 0 && page[n - 2] != twin[n - 2] {
        GrowWrites(base, before, n - 1, page[n - 1]);
      } else {
        OpenWrites(base, before, n - 1, page[n - 1]);
      }
    }
  }

  /** Writing the runs over any page overlays it with the changed bytes. */
  lemma WriteIsOverlay(base: Page, twin: Page, page: Page)
    requires |base| == |twin| == |page|
    ensures AllFit(Runs(twin, page), |base|)
    ensures WriteSections(base, Runs(twin, page)) == Overlay(base, Changes(twin, page))
  {
    RunsWrite(base, twin, page, |page|);
  }

  /** A copy that equals the twin becomes the page. */
  lemma RoundTrip(twin: Page, page: Page)
    requires |twin| == |page|
    ensures AllFit(Runs(twin, page), |twin|) && WriteSections(twin, Runs(twin, page)) == page
  {
    WriteIsOverlay(twin, twin, page);
  }
}
