/** The reply waiter of src/dobj/reply_waiter.c: a list of ids still awaited. */
module ReplyWaiters {
  import opened LinkedLists

  type PeerId = nat

  /** The list of ids that the caller hands over. */
  method ListOf(peers: seq<PeerId>) returns (list: LinkedList<PeerId>)
    ensures list.Valid() && fresh(list.Repr) && list.Contents() == peers
  {
    list := new LinkedList();
    for i := 0 to |peers|
      invariant list.Valid() && fresh(list.Repr) && list.Contents() == peers[..i]
    {
      list.Append(peers[i]);
    }
    assert peers[..|peers|] == peers;
  }

  class ReplyWaiter {
    var waitOn: LinkedList<PeerId>
    ghost var Repr: set<object>

    ghost predicate Valid()
      reads this, Repr
      ensures Valid() ==> this in Repr
    {
      this in Repr && waitOn in Repr && waitOn.Repr <= Repr && this !in waitOn.Repr && waitOn.Valid()
    }

    /** The ids awaited, each as often as it is awaited. */
    ghost function Awaited(): multiset<PeerId>
      reads this, Repr
      requires Valid()
    {
      multiset(waitOn.Contents())
    }

    constructor ()
      ensures Valid() && fresh(Repr) && Awaited() == multiset{}
    {
      waitOn := new LinkedList();
      new;
      Repr := {this} + waitOn.Repr;
    }

    /** edsm_reply_waiter_set_wait_on with a list of these ids (src/dobj/reply_waiter.c:16-21). */
    method SetWaitOn(peers: seq<PeerId>)
      requires Valid()
      modifies this
      ensures Valid() && fresh(Repr - old(Repr)) && Awaited() == multiset(peers)
    {
      var list := ListOf(peers);
      waitOn, Repr := list, {this} + list.Repr;
    }

    /** edsm_reply_waiter_add_reply (src/dobj/reply_waiter.c:23-41). */
    method AddReply(peer: PeerId)
      requires Valid()
      modifies Repr
      ensures Valid() && Repr == old(Repr)
      ensures Awaited() == old(Awaited()) - multiset{peer}
    {
      WithoutRemovesOne(waitOn.Contents(), peer);
      waitOn.RemoveFirst(peer);
    }

    /** The condition on which edsm_reply_waiter_wait returns (src/dobj/reply_waiter.c:46). */
    method IsDone() returns (done: bool)
      requires Valid()
      ensures done <==> Awaited() == multiset{}
    {
      done := waitOn.head == null;
      if !done {
        assert waitOn.Contents()[0] in multiset(waitOn.Contents());
      }
    }
  }
}

/** The mutex object of src/dobj/mutex.c; every method implements a step of MutexNode. */
module MutexObjects {
  import opened Options
  import opened Sorting
  import opened LinkedLists
  import opened ReplyWaiters
  import opened MutexNode

  /** LL_APPEND, then LL_SORT by request_comp (src/dobj/mutex.c:54-55). */
  method AppendAndSort(list: LinkedList<Request>, other: Request)
    requires list.Valid()
    modifies list.Repr
    ensures list.Valid() && fresh(list.Repr - old(list.Repr))
    ensures list.Contents() == StableSort(RequestComp, old(list.Contents()) + [other])
  {
    list.Append(other);
    RequestCompIsTotalOrder();
    list.Sort(RequestComp);
  }

  lemma RepliesUnfold(sent: seq<Envelope>, time: nat, d: seq<Request>)
    requires |d| > 0
    ensures sent + Replies(time, d) == sent + [Envelope(Peer(d[0].peer), Rep(time + 1))] + Replies(time + 1, d[1..])
  {
  }

  lemma OnMessageDispatches(n: MutexNode.Node, from: MutexNode.PeerId, msg: Msg)
    ensures OnMessage(n, from, msg) == Dispatch(n.(time := MutexNode.Max(n.time, msg.time) + 1), from, msg)
  {
  }

  lemma NothingSent(sent: seq<Envelope>)
    ensures sent + [] == sent
  {
  }

  class Mutex {
    const self: MutexNode.PeerId
    const peers: seq<MutexNode.PeerId>
    var time: nat
    var localRequest: Option<Request>
    var requests: LinkedList<Request>
    var waiter: ReplyWaiter
    var inside: bool
    var outbox: seq<Envelope>    // what has been handed to edsm_dobj_send

    ghost var Repr: set<object>

    ghost predicate Valid()
      reads this, Repr
      ensures Valid() ==> this in Repr
    {
      && this in Repr
      && requests in Repr && requests.Repr <= Repr && this !in requests.Repr
      && waiter in Repr && waiter.Repr <= Repr && this !in waiter.Repr
      && requests.Repr !! waiter.Repr
      && requests.Valid() && waiter.Valid()
    }

    ghost function View(): MutexNode.Node
      requires Valid()
      reads this, Repr
    {
      MutexNode.Node(time, localRequest, requests.Contents(), waiter.Awaited(), inside)
    }

    constructor (self: MutexNode.PeerId, peers: seq<MutexNode.PeerId>)
      ensures Valid() && fresh(Repr) && View() == FRESH && outbox == [] && this.self == self && this.peers == peers
    {
      this.self, this.peers := self, peers;
      time, localRequest, inside, outbox := 0, None, false, [];
      requests := new LinkedList();
      waiter := new ReplyWaiter();
      new;
      Repr := {this} + requests.Repr + waiter.Repr;
    }

    /** edsm_mutex_send_reply (src/dobj/mutex.c:15-25). */
    method SendReply(peer: MutexNode.PeerId)
      requires Valid()
      modifies this`time, this`outbox
      ensures Valid() && time == old(time) + 1 && View() == old(View()).(time := time)
      ensures outbox == old(outbox) + [Envelope(Peer(peer), Rep(time))]
    {
      time := time + 1;
      outbox := outbox + [Envelope(Peer(peer), Rep(time))];
    }

    /** The Lamport clock steps past a received time (src/dobj/mutex.c:37-38). */
    method Observe(remote: nat)
      requires Valid()
      modifies this`time
      ensures Valid() && View() == old(View()).(time := Max(old(time), remote) + 1)
    {
      if remote > time {
        time := remote;
      }
      time := time + 1;
    }

    /** The queue takes a request and is sorted again (src/dobj/mutex.c:54-55). */
    method Defer(other: Request)
      requires Valid()
      modifies this`Repr, requests.Repr
      ensures Valid() && fresh(Repr - old(Repr))
      ensures View() == old(View()).(deferred := StableSort(RequestComp, old(View()).deferred + [other]))
    {
      AppendAndSort(requests, other);
      Repr := Repr + requests.Repr;
    }

    /** The waiter counts a reply (src/dobj/mutex.c:61). */
    method CountReply(peer: MutexNode.PeerId)
      requires Valid()
      modifies waiter.Repr
      ensures Valid() && Repr == old(Repr) && outbox == old(outbox)
      ensures View() == old(View()).(waitOn := old(View()).waitOn - multiset{peer})
    {
      waiter.AddReply(peer);
    }

    /** A request is answered at once or deferred (src/dobj/mutex.c:42-57). */
    method HandleRequest(other: Request, ghost n: MutexNode.Node)
      requires Valid() && n == View()
      modifies Repr
      ensures Valid() && fresh(Repr - old(Repr))
      ensures View() == Dispatch(n, other.peer, Req(other.time)).0
      ensures outbox == old(outbox) + Dispatch(n, other.peer, Req(other.time)).1
    {
      NothingSent(outbox);
      if localRequest.None? || RequestComp(localRequest.value, other) > 0 {
        SendReply(other.peer);
      } else {
        Defer(other);
      }
    }

    method Handle(peer: MutexNode.PeerId, msg: Msg, ghost n: MutexNode.Node)
      requires Valid() && n == View()
      modifies Repr
      ensures Valid() && fresh(Repr - old(Repr))
      ensures View() == Dispatch(n, peer, msg).0 && outbox == old(outbox) + Dispatch(n, peer, msg).1
    {
      NothingSent(outbox);
      match msg {
        case Req(time) => HandleRequest(Request(time, peer), n);
        case Rep(_) => CountReply(peer);
        case Unknown(_, _) =>
      }
    }

    /** edsm_mutex_handle_message (src/dobj/mutex.c:27-69). */
    method HandleMessage(peer: MutexNode.PeerId, msg: Msg)
      requires Valid()
      modifies Repr
      ensures Valid() && fresh(Repr - old(Repr))
      ensures View() == OnMessage(old(View()), peer, msg).0
      ensures outbox == old(outbox) + OnMessage(old(View()), peer, msg).1
    {
      ghost var n := View();
      OnMessageDispatches(n, peer, msg);
      Observe(msg.time);
      Handle(peer, msg, n.(time := Max(n.time, msg.time) + 1));
    }

    /** edsm_mutex_lock up to the wait (src/dobj/mutex.c:81-102). */
    method RequestLock()
      requires Valid() && localRequest.None?
      modifies Repr
      ensures Valid() && fresh(Repr - old(Repr))
      ensures View() == OnLock(old(View()), self, multiset(peers)).0
      ensures outbox == old(outbox) + OnLock(old(View()), self, multiset(peers)).1
    {
      time := time + 1;
      Await();
      Ask();
    }

    /** The request goes to all peers and is kept (src/dobj/mutex.c:92-101). */
    method Ask()
      requires Valid()
      modifies this`outbox, this`localRequest
      ensures Valid() && View() == old(View()).(request := Some(Request(time, self)))
      ensures outbox == old(outbox) + [Envelope(Everyone, Req(time))]
    {
      outbox := outbox + [Envelope(Everyone, Req(time))];
      localRequest := Some(Request(time, self));
    }

    /** The waiter waits for all peers (src/dobj/mutex.c:90). */
    method Await()
      requires Valid()
      modifies this`Repr, waiter
      ensures Valid() && fresh(Repr - old(Repr)) && View() == old(View()).(waitOn := multiset(peers))
    {
      waiter.SetWaitOn(peers);
      Repr := Repr + waiter.Repr;
    }

    /** The return of edsm_reply_waiter_wait (src/dobj/mutex.c:104-106), if it is due. */
    method TryEnter() returns (entered: bool)
      requires Valid() && localRequest.Some? && !inside
      modifies this`inside
      ensures Valid() && entered == CanEnter(old(View()))
      ensures View() == if entered then OnEnter(old(View())) else old(View())
    {
      entered := waiter.IsDone();
      inside := entered;
    }

    /** Unlock answers the queue from its head (src/dobj/mutex.c:113-117). */
    method AnswerDeferred()
      requires Valid()
      modifies this`time, this`outbox
      ensures Valid() && View() == old(View()).(time := old(time) + |old(View()).deferred|)
      ensures outbox == old(outbox) + Replies(old(time), old(View()).deferred)
    {
      var entry := requests.head;
      ghost var k, nodes := 0, requests.nodes;
      ghost var queue := requests.Contents();
      while entry != null
        invariant Valid() && requests.nodes == nodes && View() == old(View()).(time := old(time) + k)
        invariant 0 <= k <= |queue| && (if k < |queue| then entry == nodes[k] else entry == null)
        invariant outbox + Replies(time, queue[k..]) == old(outbox) + Replies(old(time), queue)
        decreases |queue| - k
      {
        var tmp := entry.next;
        AnswerNext(entry.val.peer, queue[k..]);
        entry, k := tmp, k + 1;
      }
      assert queue[k..] == [];
    }

    method AnswerNext(peer: MutexNode.PeerId, ghost queue: seq<Request>)
      requires Valid() && |queue| > 0 && peer == queue[0].peer
      modifies this`time, this`outbox
      ensures Valid() && time == old(time) + 1 && View() == old(View()).(time := time)
      ensures outbox + Replies(time, queue[1..]) == old(outbox + Replies(time, queue))
    {
      RepliesUnfold(outbox, time, queue);
      SendReply(peer);
    }

    /** edsm_mutex_unlock after its edsm_memory_tx_end (src/dobj/mutex.c:108-124). */
    method Release()
      requires Valid()
      modifies Repr
      ensures Valid() && Repr == old(Repr)
      ensures View() == OnUnlock(old(View())).0
      ensures outbox == old(outbox) + OnUnlock(old(View())).1
    {
      AnswerDeferred();
      ForgetRequests();
    }

    /** The queue and the own request are done with (src/dobj/mutex.c:118-120). */
    method ForgetRequests()
      requires Valid()
      modifies this`localRequest, this`inside, requests.Repr
      ensures Valid() && View() == old(View()).(request := None, deferred := [], inside := false)
    {
      requests.Clear();
      localRequest, inside := None, false;
    }
  }
}
