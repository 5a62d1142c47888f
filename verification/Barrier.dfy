/** The barrier object of src/dobj/barrier.c, on its reply waiter. */
module Barriers {
  import opened Options
  import opened Bytes
  import opened ReplyWaiters
  import opened Regions
  import opened Publishing
  import SharedMemory

  /** What a barrier hands on: the diffs of all regions, and the message to all peers. */
  datatype Outgoing = Diffs(diffs: seq<Option<seq<Byte>>>) | Notice

  /** A part of that for one region: its diff, or the message. */
  datatype Part = DiffPart(bytes: seq<Byte>) | NoticePart

  ghost function PartsFor(out: seq<Outgoing>, k: nat): seq<Part> {
    if |out| == 0 then []
    else
      (match out[0]
       case Notice => [NoticePart]
       case Diffs(diffs) => if k < |diffs| && diffs[k].Some? then [DiffPart(diffs[k].value)] else [])
      + PartsFor(out[1..], k)
  }

  /** These parts are the items of the machine, in their order. */
  ghost predicate AreItems(parts: seq<Part>, items: seq<SharedMemory.Item>, pages: nat, size: nat)
    requires size > 0
  {
    && |parts| == |items|
    && forall j | 0 <= j < |parts| :: match parts[j]
         case NoticePart => items[j].Notice?
         case DiffPart(bytes) => items[j].Diff? && Carries(bytes, items[j].d, pages, size)
  }

  lemma NotifyParts(pending: seq<Option<seq<Byte>>>, k: nat)
    requires k < |pending|
    ensures PartsFor([Diffs(pending), Notice], k)
         == if pending[k].Some? then [DiffPart(pending[k].value), NoticePart] else [NoticePart]
  {
    assert [Diffs(pending), Notice][1..] == [Notice] && [Notice][1..] == [];
    assert PartsFor([Notice], k) == [NoticePart];
  }

  /** The diffs of all regions and then the notice are, for each region, what the machine sends. */
  lemma HandsOnItems(n: SharedMemory.Node, self: PeerId, regions: seq<Region>, pending: seq<Option<seq<Byte>>>, k: nat)
    requires k < |regions| && Have(regions, pending, 0) && Shows(n, regions[k])
    ensures AreItems(PartsFor([Diffs(pending), Notice], k), SharedMemory.OnNotify(n, self).1, regions[k].mem.Length,
            regions[k].size)
  {
    assert Has(regions[k], pending[k]);
    PendingIsPublished(n, regions[k]);
    NotifyParts(pending, k);
    PartsAreItems(n, self, pending[k], regions[k].mem.Length, regions[k].size);
  }

  lemma PartsAreItems(n: SharedMemory.Node, self: PeerId, diff: Option<seq<Byte>>, pages: nat, size: nat)
    requires size > 0 && (diff.None? ==> SharedMemory.Publish(n).1 == [])
    requires diff.Some? ==> |SharedMemory.Publish(n).1| == 1 && SharedMemory.Publish(n).1[0].Diff?
    requires diff.Some? ==> Carries(diff.value, SharedMemory.Publish(n).1[0].d, pages, size)
    ensures var parts := if diff.Some? then [DiffPart(diff.value), NoticePart] else [NoticePart];
            AreItems(parts, SharedMemory.OnNotify(n, self).1, pages, size)
  {
  }

  lemma CountOne(armed: multiset<PeerId>, counted: multiset<PeerId>, p: PeerId)
    ensures armed - counted - multiset{p} == armed - (counted + multiset{p})
  {
  }

  lemma NothingCounted(armed: multiset<PeerId>)
    ensures armed - multiset{} == armed
  {
  }

  lemma NoneAwaited(armed: multiset<PeerId>, counted: multiset<PeerId>)
    ensures armed - counted == multiset{} <==> armed <= counted
  {
    if armed - counted == multiset{} {
      forall p
        ensures armed[p] <= counted[p]
      {
        assert (armed - counted)[p] == 0;
      }
    }
  }

  class Barrier {
    const self: PeerId
    const waiter: ReplyWaiter
    var outbox: seq<Outgoing>

    ghost var armed: multiset<PeerId>     // the ids last armed with
    ghost var counted: multiset<PeerId>   // the notices since

    ghost predicate Valid()
      reads this, waiter, waiter.Repr
    {
      this !in waiter.Repr && waiter.Valid() && waiter.Awaited() == armed - counted
    }

    /** A node of the machine as this barrier has it. */
    ghost function On(n: SharedMemory.Node): SharedMemory.Node
      requires Valid()
      reads this, waiter, waiter.Repr
    {
      n.(awaited := waiter.Awaited(), armed := armed, counted := counted)
    }

    constructor (self: PeerId)
      ensures Valid() && fresh(waiter) && fresh(waiter.Repr) && armed == multiset{} && outbox == [] && this.self == self
    {
      this.self, outbox, armed, counted := self, [], multiset{}, multiset{};
      waiter := new ReplyWaiter();
    }

    /** edsm_barrier_arm (src/dobj/barrier.c:24-28). */
    method Arm(peers: seq<PeerId>, ghost n: SharedMemory.Node)
      requires Valid()
      modifies this`armed, this`counted, waiter
      ensures Valid() && fresh(waiter.Repr - old(waiter.Repr))
      ensures On(n) == SharedMemory.OnArm(n, multiset(peers))
    {
      waiter.SetWaitOn(peers);
      NothingCounted(multiset(peers));
      armed, counted := multiset(peers), multiset{};
    }

    /** edsm_barrier_handle_message (src/dobj/barrier.c:5-9). */
    method HandleMessage(peer: PeerId, ghost n: SharedMemory.Node)
      requires Valid() && n == On(n)
      modifies this`counted, waiter.Repr
      ensures Valid() && waiter.Repr == old(waiter.Repr) && armed == old(armed)
      ensures On(n) == SharedMemory.Count(n, peer)
    {
      CountOne(armed, counted, peer);
      counted := counted + multiset{peer};
      waiter.AddReply(peer);
    }

    /**
      edsm_barrier_notify (src/dobj/barrier.c:30-36): the diffs of all regions go out before
      the notice, and the notice is counted here too.
     */
    method Notify(regions: seq<Region>, ghost pending: seq<Option<seq<Byte>>>, ghost n: SharedMemory.Node, ghost k: nat)
      requires Valid() && n == On(n) && Apart(regions, waiter.Repr)
      requires Separate(regions) && Have(regions, pending, 0) && (k < |regions| ==> Shows(n, regions[k]))
      modifies this`counted, this`outbox, waiter.Repr
      modifies (set r | r in regions)`twins, (set r | r in regions)`writable, (set r | r in regions)`stamp
      ensures Valid() && armed == old(armed) && outbox == old(outbox) + [Diffs(pending), Notice]
      ensures k < |regions| ==>
                AreItems(PartsFor(outbox[|old(outbox)|..], k), SharedMemory.OnNotify(n, self).1, regions[k].mem.Length,
                         regions[k].size)
      ensures On(SharedMemory.Publish(n).0) == SharedMemory.OnNotify(n, self).0
      ensures AllSettled(regions, |regions|)
    {
      if k < |regions| {
        HandsOnItems(n, self, regions, pending, k);
      }
      var diffs := TxEndBeside(regions, pending, n);
      TellBeside(regions, diffs, SharedMemory.Publish(n).0);
      assert outbox[|old(outbox)|..] == [Diffs(pending), Notice];
    }

    method TellBeside(regions: seq<Region>, diffs: seq<Option<seq<Byte>>>, ghost n: SharedMemory.Node)
      requires Valid() && n == On(n) && AllSettled(regions, |regions|) && Apart(regions, waiter.Repr)
      modifies this`counted, this`outbox, waiter.Repr
      ensures Valid() && armed == old(armed) && outbox == old(outbox) + [Diffs(diffs), Notice]
      ensures On(n) == SharedMemory.Count(n, self) && AllSettled(regions, |regions|)
    {
      Tell(diffs, n);
    }

    /** The regions are published (src/dobj/barrier.c:32). */
    method TxEndBeside(regions: seq<Region>, ghost pending: seq<Option<seq<Byte>>>, ghost n: SharedMemory.Node)
      returns (diffs: seq<Option<seq<Byte>>>)
      requires Valid() && n == On(n) && Apart(regions, waiter.Repr)
      requires Separate(regions) && Have(regions, pending, 0)
      modifies (set r | r in regions)`twins, (set r | r in regions)`writable, (set r | r in regions)`stamp
      ensures Valid() && n == On(n) && diffs == pending && AllSettled(regions, |regions|)
      ensures waiter.Repr == old(waiter.Repr)
    {
      diffs := TxEnd(regions, pending);
    }

    /** The notice follows the diffs, and is counted here too (src/dobj/barrier.c:33-34). */
    method Tell(diffs: seq<Option<seq<Byte>>>, ghost n: SharedMemory.Node)
      requires Valid() && n == On(n)
      modifies this`counted, this`outbox, waiter.Repr
      ensures Valid() && waiter.Repr == old(waiter.Repr) && armed == old(armed) && outbox == old(outbox) + [Diffs(diffs), Notice]
      ensures On(n) == SharedMemory.Count(n, self)
    {
      outbox := outbox + [Diffs(diffs)];
      outbox := outbox + [Notice];
      HandleMessage(self, n);
    }

    /** edsm_barrier_wait returns when this holds: every id has been counted as often as armed. */
    method CanPass() returns (pass: bool)
      requires Valid()
      ensures pass <==> armed <= counted
    {
      NoneAwaited(armed, counted);
      pass := waiter.IsDone();
    }
  }
}
