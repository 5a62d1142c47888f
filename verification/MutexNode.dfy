module Options {
  datatype Option<+T> = None | Some(value: T)
}

/**
  One node of the distributed mutex of src/dobj/mutex.c, as values: its state and
  what each entry point does to it. Every body below runs under `mutex->lock`, so
  each is one atomic step. Clocks are unbounded.
 */
module MutexNode {
  import opened Options
  import opened Sorting

  type PeerId = nat

  datatype Request = Request(time: nat, peer: PeerId)

  /** request_comp (src/dobj/mutex.c:8-13). */
  function RequestComp(a: Request, b: Request): int {
    if a.time != b.time then (if a.time > b.time then 1 else -1)
    else if a.peer != b.peer then (if a.peer > b.peer then 1 else -1)
    else 0
  }

  /** The order the requests are served in: by time, and by id where the times are equal. */
  predicate Before(a: Request, b: Request) {
    a.time < b.time || (a.time == b.time && a.peer < b.peer)
  }

  lemma RequestCompIsTotalOrder()
    ensures TotalPreorder(RequestComp)
    ensures forall a, b :: RequestComp(a, b) < 0 <==> Before(a, b)
    ensures forall a, b :: RequestComp(a, b) == 0 <==> a == b
    ensures forall a, b :: RequestComp(a, b) == -RequestComp(b, a)
  {
  }

  datatype Msg = Req(time: nat) | Rep(time: nat) | Unknown(kind: nat, time: nat)

  /** Whom a message is meant for; who receives it is decided by the network. */
  datatype Dest = Everyone | Peer(id: PeerId)

  datatype Envelope = Envelope(dest: Dest, msg: Msg)

  datatype Node = Node(
    time: nat,                   // l_time
    request: Option<Request>,    // local_request
    deferred: seq<Request>,      // requests
    waitOn: multiset<PeerId>,    // waiter->wait_on
    inside: bool                 // lock has returned and unlock has not been called
  )

  const FRESH := Node(0, None, [], multiset{}, false)

  function Max(a: nat, b: nat): nat {
    if a > b then a else b
  }

  /** edsm_mutex_lock up to the wait (src/dobj/mutex.c:84-102). */
  function OnLock(n: Node, self: PeerId, peers: multiset<PeerId>): (Node, seq<Envelope>) {
    var t := n.time + 1;
    (n.(time := t, request := Some(Request(t, self)), waitOn := peers), [Envelope(Everyone, Req(t))])
  }

  /** edsm_reply_waiter_wait returns once nothing is awaited (src/dobj/mutex.c:104). */
  predicate CanEnter(n: Node) {
    n.request.Some? && !n.inside && n.waitOn == multiset{}
  }

  function OnEnter(n: Node): Node {
    n.(inside := true)
  }

  /** Does a request of a peer have to wait for ours? (src/dobj/mutex.c:46) */
  predicate MustDefer(n: Node, other: Request) {
    n.request.Some? && RequestComp(n.request.value, other) <= 0
  }

  /** What a message does once the clock has stepped past it (src/dobj/mutex.c:40-66). */
  function Dispatch(n: Node, from: PeerId, msg: Msg): (Node, seq<Envelope>) {
    match msg
    case Req(t) =>
      var other := Request(t, from);
      if MustDefer(n, other) then
        (n.(deferred := StableSort(RequestComp, n.deferred + [other])), [])
      else
        (n.(time := n.time + 1), [Envelope(Peer(from), Rep(n.time + 1))])
    case Rep(_) => (n.(waitOn := n.waitOn - multiset{from}), [])
    case Unknown(_, _) => (n, [])
  }

  /** edsm_mutex_handle_message (src/dobj/mutex.c:27-69). */
  function OnMessage(n: Node, from: PeerId, msg: Msg): (Node, seq<Envelope>) {
    Dispatch(n.(time := Max(n.time, msg.time) + 1), from, msg)
  }

  /** The replies that unlock sends, one clock tick each (src/dobj/mutex.c:113-117). */
  function Replies(time: nat, deferred: seq<Request>): seq<Envelope>
    decreases |deferred|
  {
    if |deferred| == 0 then []
    else [Envelope(Peer(deferred[0].peer), Rep(time + 1))] + Replies(time + 1, deferred[1..])
  }

  /** edsm_mutex_unlock (src/dobj/mutex.c:108-124). */
  function OnUnlock(n: Node): (Node, seq<Envelope>) {
    (n.(time := n.time + |n.deferred|, request := None, deferred := [], inside := false),
     Replies(n.time, n.deferred))
  }
}
