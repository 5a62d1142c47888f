/** edsm_memory_tx_end over all regions (src/memory/memory_dobj.c:124-148). */
module Publishing {
  import opened Options
  import opened Bytes
  import opened Messages
  import opened DiffCodec
  import opened Regions
  import opened Addresses
  import SharedMemory

  /** The next diff of a region, pages or none. */
  ghost function NextDiff(r: Region): RegionDiff
    reads r, r.mem
    requires r.Valid()
  {
    RegionDiff(r.stamp + 1, DiffPages(r.mem[..], r.twins, r.size))
  }

  /** What a region has for its peers: its diff, if it has twins. */
  ghost function Pending(r: Region): Option<seq<Byte>>
    reads r, r.mem
    requires r.Valid()
  {
    if r.twins == [] then None else Some(Encode(NextDiff(r)))
  }

  /** The node of SharedMemory that has this region. */
  ghost predicate Shows(n: SharedMemory.Node, r: Region)
    reads r, r.mem
  {
    r.Valid() && n.mem == Flat(r.mem[..]) && n.pub == Flat(r.Pub()) && n.twinned == (r.twins != [])
  }

  /** These bytes are a message that writes exactly d to any copy of a region of this shape. */
  ghost predicate Carries(bytes: seq<Byte>, d: map<Addr, Byte>, pages: nat, size: nat)
    requires size > 0
  {
    exists diff: RegionDiff :: Encode(diff) == bytes && Writes(diff.pages, d, pages, size)
  }

  ghost predicate Writes(entries: seq<PageDiff>, d: map<Addr, Byte>, pages: nat, size: nat)
    requires size > 0
  {
    forall base | |base| == pages && Sized(base, pages, size) ::
      Receivable(base, entries, size) && Flat(WritePages(base, entries, size)) == Flat(base) + d
  }

  /** What a region has for its peers is what the machine publishes. */
  lemma PendingIsPublished(n: SharedMemory.Node, r: Region)
    requires Shows(n, r)
    ensures Pending(r).Some? <==> |SharedMemory.Publish(n).1| == 1
    ensures Pending(r).None? <==> SharedMemory.Publish(n).1 == []
    ensures Pending(r).Some? ==>
              && SharedMemory.Publish(n).1[0].Diff?
              && Carries(Pending(r).value, SharedMemory.Publish(n).1[0].d, r.mem.Length, r.size)
  {
    if r.twins != [] {
      var diff := NextDiff(r);
      forall base | |base| == r.mem.Length && Sized(base, r.mem.Length, r.size)
        ensures Receivable(base, diff.pages, r.size)
        ensures Flat(WritePages(base, diff.pages, r.size)) == Flat(base) + SharedMemory.Publish(n).1[0].d
      {
        DiffIsDelta(base, r.mem[..], r.twins, r.size);
      }
    }
  }

  /** Everything that was stored has been published. */
  ghost predicate Settled(r: Region)
    reads r, r.mem
  {
    r.Valid() && r.twins == [] && r.Pub() == r.mem[..]
  }

  /** The bytes of a diff, and the number of its pages (src/memory/memory_dobj.c:131-132). */
  method TakeDiff(r: Region) returns (diff: seq<Byte>, pages: nat)
    requires r.Valid()
    modifies r`twins, r`writable, r`stamp
    ensures Settled(r) && r.mem[..] == old(r.mem[..])
    ensures diff == Encode(old(NextDiff(r))) && pages == |old(r.twins)|
  {
    ghost var d := Encode(NextDiff(r));
    var msg := new Message(0, 300);
    pages := r.DiffRegion(msg);
    assert [] + d == d;
    diff := msg.buffer[msg.headSize..msg.headSize + msg.dataSize];
  }

  /** One turn of the loop: the diff goes out if it has pages (src/memory/memory_dobj.c:131-137). */
  method TxEndOne(r: Region) returns (sent: Option<seq<Byte>>)
    requires r.Valid()
    modifies r`twins, r`writable, r`stamp
    ensures Settled(r) && r.mem[..] == old(r.mem[..]) && sent == old(Pending(r))
  {
    var diff, pages := TakeDiff(r);
    sent := if pages > 0 then Some(diff) else None;
  }

  ghost predicate Separate(regions: seq<Region>) {
    forall k, l | 0 <= k < l < |regions| :: regions[k] != regions[l]
  }

  ghost function Memories(regions: seq<Region>): set<object> {
    set k | 0 <= k < |regions| :: regions[k].mem
  }

  /** The regions are no part of another object. */
  ghost predicate Apart(regions: seq<Region>, repr: set<object>) {
    forall k | 0 <= k < |regions| :: regions[k] !in repr && regions[k].mem !in repr
  }

  /** r has this for its peers. */
  ghost predicate Has(r: Region, diff: Option<seq<Byte>>)
    reads r, r.mem
  {
    r.Valid() && Pending(r) == diff
  }

  /** From the k-th region on, each has this for its peers. */
  ghost predicate Have(regions: seq<Region>, pending: seq<Option<seq<Byte>>>, k: nat)
    reads regions, Memories(regions)
  {
    |pending| == |regions| && forall l {:trigger Has(regions[l], pending[l])} | k <= l < |regions| :: Has(regions[l], pending[l])
  }

  /** The first k regions have nothing left for their peers. */
  ghost predicate AllSettled(regions: seq<Region>, k: nat)
    reads regions, Memories(regions)
  {
    forall l {:trigger Settled(regions[l])} | 0 <= l < k && l < |regions| :: Settled(regions[l])
  }

  method TxEndNext(regions: seq<Region>, k: nat, ghost pending: seq<Option<seq<Byte>>>) returns (out: Option<seq<Byte>>)
    requires Separate(regions) && k < |regions| && Have(regions, pending, k) && AllSettled(regions, k)
    modifies {regions[k]}`twins, {regions[k]}`writable, {regions[k]}`stamp
    ensures Have(regions, pending, k + 1) && AllSettled(regions, k + 1) && out == pending[k]
  {
    assert Has(regions[k], pending[k]);
    out := TxEndOne(regions[k]);
    assert forall l {:trigger Has(regions[l], pending[l])} | k < l < |regions| ::
        regions[l] != regions[k] && Has(regions[l], pending[l]);
  }

  /**
    All regions: each that has been written goes out as one diff, in the order of the list,
    and afterwards nothing is pending anywhere.
   */
  method TxEnd(regions: seq<Region>, ghost pending: seq<Option<seq<Byte>>>) returns (sent: seq<Option<seq<Byte>>>)
    requires Separate(regions) && Have(regions, pending, 0)
    modifies (set r | r in regions)`twins, (set r | r in regions)`writable, (set r | r in regions)`stamp
    ensures sent == pending && AllSettled(regions, |regions|)
  {
    sent := [];
    for k := 0 to |regions|
      invariant Have(regions, pending, k) && AllSettled(regions, k) && sent == pending[..k]
    {
      var out := TxEndNext(regions, k, pending);
      sent := sent + [out];
    }
  }
}

/** edsm_mutex_unlock as a whole (src/dobj/mutex.c:108-124). */
module Unlocking {
  import opened Options
  import opened Bytes
  import opened Regions
  import opened Publishing
  import MutexNode
  import opened MutexObjects

  /** What unlock hands on, in its order. */
  datatype Outgoing = Diffs(diffs: seq<Option<seq<Byte>>>) | Reply(reply: MutexNode.Envelope)

  function Replies(envs: seq<MutexNode.Envelope>): (r: seq<Outgoing>)
    ensures |r| == |envs| && forall k | 0 <= k < |r| :: r[k] == Reply(envs[k])
  {
    seq(|envs|, k requires 0 <= k < |envs| => Reply(envs[k]))
  }

  /** The diffs of all regions go out first, then the answers to the deferred requests. */
  method Unlock(mutex: Mutex, regions: seq<Region>, ghost pending: seq<Option<seq<Byte>>>) returns (sent: seq<Outgoing>)
    requires mutex.Valid() && Apart(regions, mutex.Repr)
    requires Separate(regions) && Have(regions, pending, 0)
    modifies mutex.Repr, (set r | r in regions)`twins, (set r | r in regions)`writable, (set r | r in regions)`stamp
    ensures mutex.Valid() && mutex.View() == MutexNode.OnUnlock(old(mutex.View())).0
    ensures sent == [Diffs(pending)] + Replies(MutexNode.OnUnlock(old(mutex.View())).1)
    ensures AllSettled(regions, |regions|)
  {
    var diffs := TxEnd(regions, pending);
    sent := Answer(mutex, diffs);
  }

  method Answer(mutex: Mutex, diffs: seq<Option<seq<Byte>>>) returns (sent: seq<Outgoing>)
    requires mutex.Valid()
    modifies mutex.Repr
    ensures mutex.Valid() && mutex.Repr == old(mutex.Repr) && mutex.View() == MutexNode.OnUnlock(old(mutex.View())).0
    ensures sent == [Diffs(diffs)] + Replies(MutexNode.OnUnlock(old(mutex.View())).1)
  {
    var before := |mutex.outbox|;
    mutex.Release();
    sent := [Diffs(diffs)] + Replies(mutex.outbox[before..]);
  }
}
