/**
  What a node of the mutex does to its clock, its queue and its peers, said of the times and
  ids themselves.
 */
module MutexHandler {
  import opened Options
  import opened Sorting
  import opened MutexNode

  /** The clock steps past what it has seen. */
  function Seen(n: Node, time: nat): nat {
    if time > n.time then time + 1 else n.time + 1
  }

  /** No entry comes before one that is ahead of it. */
  ghost predicate Ascends(d: seq<Request>) {
    forall k, l | 0 <= k < l < |d| :: !Before(d[l], d[k])
  }

  lemma SortAscends(d: seq<Request>)
    ensures Ascends(StableSort(RequestComp, d)) && multiset(StableSort(RequestComp, d)) == multiset(d)
  {
    RequestCompIsTotalOrder();
    StableSortSorts(RequestComp, d);
    StableSortPermutes(RequestComp, d);
  }

  lemma WhoMustDefer(n: Node, p: PeerId, u: nat)
    ensures MustDefer(n, Request(u, p)) <==> n.request.Some? && !Before(Request(u, p), n.request.value)
  {
  }

  lemma Defers(n: Node, p: PeerId, u: nat)
    requires n.request.Some? && !Before(Request(u, p), n.request.value)
    ensures OnMessage(n, p, Req(u))
         == (n.(time := Seen(n, u), deferred := StableSort(RequestComp, n.deferred + [Request(u, p)])), [])
  {
    WhoMustDefer(n.(time := Seen(n, u)), p, u);
  }

  lemma Answers(n: Node, p: PeerId, u: nat)
    requires n.request.Some? ==> Before(Request(u, p), n.request.value)
    ensures OnMessage(n, p, Req(u)) == (n.(time := Seen(n, u) + 1), [Envelope(Peer(p), Rep(Seen(n, u) + 1))])
  {
    WhoMustDefer(n.(time := Seen(n, u)), p, u);
  }

  /**
    A request of p made at time u, at a node with a request of its own made at time t: it is
    answered at once exactly if u is less than t, or equal with p the lower id. Otherwise nothing
    is sent and it waits in the queue.
   */
  lemma AnswersOrDefers(n: Node, self: PeerId, t: nat, p: PeerId, u: nat)
    requires n.request == Some(Request(t, self))
    ensures var (m, out) := OnMessage(n, p, Req(u));
            if u < t || (u == t && p < self)
            then out == [Envelope(Peer(p), Rep(Seen(n, u) + 1))] && m == n.(time := Seen(n, u) + 1)
            else
              && out == [] && m == n.(time := Seen(n, u), deferred := m.deferred)
              && multiset(m.deferred) == multiset(n.deferred) + multiset{Request(u, p)} && Ascends(m.deferred)
  {
    if u < t || (u == t && p < self) {
      Answers(n, p, u);
    } else {
      var d := n.deferred + [Request(u, p)];
      Defers(n, p, u);
      SortAscends(d);
      assert multiset(d) == multiset(n.deferred) + multiset{Request(u, p)};
    }
  }

  /** A node with no request answers any. */
  lemma AnswersWhenIdle(n: Node, p: PeerId, u: nat)
    requires n.request.None?
    ensures OnMessage(n, p, Req(u)) == (n.(time := Seen(n, u) + 1), [Envelope(Peer(p), Rep(Seen(n, u) + 1))])
  {
  }

  /** A reply is counted, a message of another type is not; neither is answered, and the clock passes both. */
  lemma CountsReplies(n: Node, p: PeerId, msg: Msg)
    requires !msg.Req?
    ensures OnMessage(n, p, msg)
         == (n.(time := Seen(n, msg.time), waitOn := if msg.Rep? then n.waitOn - multiset{p} else n.waitOn), [])
  {
  }

  lemma {:induction false} ReplyAt(time: nat, d: seq<Request>, k: nat)
    requires k < |d|
    ensures |Replies(time, d)| == |d| && Replies(time, d)[k] == Envelope(Peer(d[k].peer), Rep(time + k + 1))
    decreases |d|
  {
    if |d| > 1 {
      ReplyAt(time + 1, d[1..], if k > 0 then k - 1 else 0);
    }
  }

  /**
    Unlock answers each deferred request, in the order of the queue and each with a tick of
    the clock of its own; then there is neither a queue nor a request.
   */
  lemma UnlockAnswers(n: Node)
    ensures var (m, out) := OnUnlock(n);
            && m == Node(n.time + |n.deferred|, None, [], n.waitOn, false) && |out| == |n.deferred|
            && forall k | 0 <= k < |out| :: out[k] == Envelope(Peer(n.deferred[k].peer), Rep(n.time + k + 1))
  {
    forall k | 0 <= k < |n.deferred|
      ensures |OnUnlock(n).1| == |n.deferred|
      ensures OnUnlock(n).1[k] == Envelope(Peer(n.deferred[k].peer), Rep(n.time + k + 1))
    {
      ReplyAt(n.time, n.deferred, k);
    }
  }

  /** What a node asks for is later than anything it has seen. */
  lemma AsksLater(n: Node, self: PeerId, peers: multiset<PeerId>, from: PeerId, msg: Msg)
    ensures var (m, out) := OnLock(OnMessage(n, from, msg).0, self, peers);
            && m.request == Some(Request(m.time, self)) && m.waitOn == peers && out == [Envelope(Everyone, Req(m.time))]
            && m.time == OnMessage(n, from, msg).0.time + 1 && m.time > msg.time + 1 && m.time > n.time + 1
            && m.deferred == OnMessage(n, from, msg).0.deferred && m.inside == n.inside
  {
  }
}
