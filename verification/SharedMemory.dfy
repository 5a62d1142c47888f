/**
  Copies of a region on any number of nodes, joined by FIFO streams of diffs and
  barrier notices. A stream is kept whole: `sent` is what was ever sent on it and
  `got` is how much of that its receiver has handled.
 */
module SharedMemory {
  import opened Options
  import opened Bytes
  import opened Addresses

  type PeerId = nat
  type Contents = map<Addr, Byte>
  type Channel = (PeerId, PeerId)

  datatype Item = Diff(d: Contents) | Notice

  datatype Node = Node(
    mem: Contents,             // the pages
    pub: Contents,             // the twins, and the pages that have none
    twinned: bool,             // are there twins?
    awaited: multiset<PeerId>, // barrier->waiter->wait_on
    armed: multiset<PeerId>,   // what it was when last armed
    counted: multiset<PeerId>  // the notices counted since
  )

  datatype State = State(nodes: map<PeerId, Node>, sent: map<Channel, seq<Item>>, got: map<Channel, nat>)

  datatype Step =
    | Store(i: PeerId, a: Addr, v: Byte)
    | TxEnd(i: PeerId)
    | Arm(i: PeerId, ids: multiset<PeerId>)
    | Notify(i: PeerId)
    | Recv(from: PeerId, to: PeerId)

  /** Every copy is zeroed, nothing is on its way. */
  ghost predicate Initial(members: set<PeerId>, zero: Contents, s: State) {
    && s.nodes.Keys == members && Shape(s)
    && (forall i | i in s.nodes :: s.nodes[i] == Node(zero, zero, false, multiset{}, multiset{}, multiset{}))
    && (forall c | c in s.sent :: s.sent[c] == [] && s.got[c] == 0)
  }

  ghost function Init(members: set<PeerId>, zero: Contents): (s: State)
    ensures Initial(members, zero, s)
  {
    State(map i | i in members :: Node(zero, zero, false, multiset{}, multiset{}, multiset{}),
          map i, j | i in members && j in members && i != j :: (i, j) := [],
          map i, j | i in members && j in members && i != j :: (i, j) := 0)
  }

  /** diff_region with edsm_dobj_send, if there are twins (src/memory/memory_dobj.c:124-148). */
  ghost function Publish(n: Node): (Node, seq<Item>) {
    (n.(pub := n.mem, twinned := false), if n.twinned then [Diff(Delta(n.pub, n.mem))] else [])
  }

  /** edsm_barrier_notify publishes first, then tells the peers and itself (src/dobj/barrier.c:30-36). */
  ghost function OnNotify(n: Node, self: PeerId): (Node, seq<Item>) {
    var (m, out) := Publish(n);
    (Count(m, self), out + [Notice])
  }

  /** edsm_barrier_arm; what was counted before is forgotten (src/dobj/barrier.c:24-28). */
  ghost function OnArm(n: Node, ids: multiset<PeerId>): Node {
    n.(awaited := ids, armed := ids, counted := multiset{})
  }

  /** edsm_reply_waiter_add_reply. */
  ghost function Count(n: Node, from: PeerId): Node {
    n.(awaited := n.awaited - multiset{from}, counted := n.counted + multiset{from})
  }

  /** A received diff goes to pages and twins alike, a notice is counted. */
  ghost function OnItem(n: Node, from: PeerId, item: Item): Node {
    match item
    case Diff(d) => n.(mem := n.mem + d, pub := n.pub + d)
    case Notice => Count(n, from)
  }

  ghost function Broadcast(sent: map<Channel, seq<Item>>, i: PeerId, items: seq<Item>): map<Channel, seq<Item>> {
    map c | c in sent :: if c.0 == i then sent[c] + items else sent[c]
  }

  /** What a node puts on its streams in a step of its own. */
  ghost function Output(n: Node, step: Step): seq<Item> {
    if step.TxEnd? then Publish(n).1 else if step.Notify? then OnNotify(n, step.i).1 else []
  }

  ghost predicate Enabled(owner: map<Addr, PeerId>, s: State, step: Step) {
    match step
    case Store(i, a, _) => i in s.nodes && a in s.nodes[i].mem && a in owner && owner[a] == i
    case TxEnd(i) => i in s.nodes
    case Arm(i, _) => i in s.nodes
    case Notify(i) => i in s.nodes
    case Recv(from, to) =>
      to in s.nodes && (from, to) in s.sent && (from, to) in s.got && s.got[(from, to)] < |s.sent[(from, to)]|
  }

  ghost function Apply(owner: map<Addr, PeerId>, s: State, step: Step): State
    requires Enabled(owner, s, step)
  {
    match step
    case Store(i, a, v) =>
      var n := s.nodes[i];
      s.(nodes := s.nodes[i := n.(mem := n.mem[a := v], twinned := true)])
    case TxEnd(i) =>
      var (n, out) := Publish(s.nodes[i]);
      s.(nodes := s.nodes[i := n], sent := Broadcast(s.sent, i, out))
    case Arm(i, ids) =>
      s.(nodes := s.nodes[i := OnArm(s.nodes[i], ids)])
    case Notify(i) =>
      var (n, out) := OnNotify(s.nodes[i], i);
      s.(nodes := s.nodes[i := n], sent := Broadcast(s.sent, i, out))
    case Recv(from, to) =>
      var c := (from, to);
      s.(nodes := s.nodes[to := OnItem(s.nodes[to], from, s.sent[c][s.got[c]])], got := s.got[c := s.got[c] + 1])
  }

  ghost function Run(owner: map<Addr, PeerId>, s: State, steps: seq<Step>): Option<State>
    decreases |steps|
  {
    if |steps| == 0 then Some(s)
    else if Enabled(owner, s, steps[0]) then Run(owner, Apply(owner, s, steps[0]), steps[1..])
    else None
  }

  // ---- replaying a stream ----

  /** Byte a after the diffs of q have been written over a copy in which it was v. */
  ghost function Replay(q: seq<Item>, a: Addr, v: Byte): Byte {
    if |q| == 0 then v
    else
      var last := q[|q| - 1];
      if last.Diff? && a in last.d then last.d[a] else Replay(q[..|q| - 1], a, v)
  }

  lemma ReplayOne(q: seq<Item>, item: Item, a: Addr, v: Byte)
    ensures Replay(q + [item], a, v) == if item.Diff? && a in item.d then item.d[a] else Replay(q, a, v)
  {
    assert (q + [item])[..|q|] == q;
  }

  lemma {:induction false} ReplaySplits(q: seq<Item>, r: seq<Item>, a: Addr, v: Byte)
    ensures Replay(q + r, a, v) == Replay(r, a, Replay(q, a, v))
    decreases |r|
  {
    if |r| == 0 {
      assert q + r == q;
    } else {
      assert q + r == (q + r[..|r| - 1]) + [r[|r| - 1]];
      ReplayOne(q + r[..|r| - 1], r[|r| - 1], a, v);
      ReplaySplits(q, r[..|r| - 1], a, v);
    }
  }

  ghost function Notices(q: seq<Item>): nat {
    if |q| == 0 then 0 else Notices(q[..|q| - 1]) + if q[|q| - 1].Notice? then 1 else 0
  }

  lemma NoticesOne(q: seq<Item>, item: Item)
    ensures Notices(q + [item]) == Notices(q) + if item.Notice? then 1 else 0
  {
    assert (q + [item])[..|q|] == q;
  }

  // ---- what every run keeps ----

  /** The nodes' copies have the bytes of the region; without twins nothing is pending. */
  ghost predicate NodeInv(owner: map<Addr, PeerId>, zero: Contents, i: PeerId, n: Node) {
    && n.mem.Keys == n.pub.Keys == zero.Keys
    && (!n.twinned ==> n.mem == n.pub)
    && (forall a | a in n.mem && n.mem[a] != n.pub[a] :: a in owner && owner[a] == i)
    && n.awaited == n.armed - n.counted
  }

  /** A diff of o has bytes of o only. */
  ghost predicate OwnDiff(owner: map<Addr, PeerId>, zero: Contents, o: PeerId, item: Item) {
    item.Diff? ==> forall a | a in item.d :: a in zero && a in owner && owner[a] == o
  }

  /** The stream q from o, of which i has handled the first `got` items, against both ends. */
  ghost predicate ByteInv(zero: Contents, a: Addr, sender: Node, receiver: Node, q: seq<Item>, got: nat) {
    && a in zero && a in sender.pub && a in receiver.pub && a in receiver.mem && got <= |q|
    && sender.pub[a] == Replay(q, a, zero[a])
    && receiver.pub[a] == receiver.mem[a] == Replay(q[..got], a, zero[a])
  }

  ghost predicate StreamInv(owner: map<Addr, PeerId>, zero: Contents, o: PeerId, sender: Node, receiver: Node,
                            q: seq<Item>, got: nat) {
    && got <= |q|
    && (forall n | 0 <= n < |q| :: OwnDiff(owner, zero, o, q[n]))
    && (forall a | a in zero && a in owner && owner[a] == o :: ByteInv(zero, a, sender, receiver, q, got))
  }

  ghost predicate Shape(s: State) {
    && s.sent.Keys == s.got.Keys
    && forall i, j {:trigger (i, j) in s.sent} :: (i, j) in s.sent <==> i in s.nodes && j in s.nodes && i != j
  }

  ghost predicate NodeAt(owner: map<Addr, PeerId>, zero: Contents, s: State, i: PeerId) {
    i in s.nodes && NodeInv(owner, zero, i, s.nodes[i])
  }

  ghost predicate StreamAt(owner: map<Addr, PeerId>, zero: Contents, s: State, o: PeerId, i: PeerId) {
    && o in s.nodes && i in s.nodes && (o, i) in s.sent && (o, i) in s.got
    && StreamInv(owner, zero, o, s.nodes[o], s.nodes[i], s.sent[(o, i)], s.got[(o, i)])
  }

  ghost predicate Inv(owner: map<Addr, PeerId>, zero: Contents, s: State) {
    && Shape(s)
    && (forall a | a in zero :: a in owner && owner[a] in s.nodes)
    && (forall i {:trigger NodeAt(owner, zero, s, i)} | i in s.nodes :: NodeAt(owner, zero, s, i))
    && (forall o, i {:trigger StreamAt(owner, zero, s, o, i)} | (o, i) in s.sent :: StreamAt(owner, zero, s, o, i))
  }

  lemma InitialInv(owner: map<Addr, PeerId>, members: set<PeerId>, zero: Contents, o: State)
    requires Initial(members, zero, o)
    requires forall a | a in zero :: a in owner && owner[a] in members
    ensures Inv(owner, zero, o)
  {
  }

  // ---- both ends of a stream, step by step ----

  /** The sender stores a byte: nothing is published yet. */
  lemma StoreKeepsStream(owner: map<Addr, PeerId>, zero: Contents, o: PeerId, x: Node, y: Node, q: seq<Item>,
                         got: nat, a: Addr, v: Byte)
    requires StreamInv(owner, zero, o, x, y, q, got)
    ensures StreamInv(owner, zero, o, x.(mem := x.mem[a := v], twinned := true), y, q, got)
    ensures a in owner && owner[a] != o ==> StreamInv(owner, zero, o, x, y.(mem := y.mem[a := v], twinned := true), q, got)
  {
  }

  /** The sender publishes: its diff is the last thing on the stream. */
  lemma PublishKeepsStream(owner: map<Addr, PeerId>, zero: Contents, o: PeerId, x: Node, y: Node, q: seq<Item>, got: nat)
    requires StreamInv(owner, zero, o, x, y, q, got) && NodeInv(owner, zero, o, x)
    ensures StreamInv(owner, zero, o, Publish(x).0, y, q + Publish(x).1, got)
  {
    if x.twinned {
      var d := Diff(Delta(x.pub, x.mem));
      AppendKeepsStream(owner, zero, o, x, x.(pub := x.mem, twinned := false), y, q, got, d);
    } else {
      assert q + [] == q;
    }
  }

  lemma AppendKeepsStream(owner: map<Addr, PeerId>, zero: Contents, o: PeerId, x: Node, x': Node, y: Node,
                          q: seq<Item>, got: nat, item: Item)
    requires StreamInv(owner, zero, o, x, y, q, got) && OwnDiff(owner, zero, o, item)
    requires x'.pub.Keys == x.pub.Keys
    requires forall a | a in x.pub :: x'.pub[a] == if item.Diff? && a in item.d then item.d[a] else x.pub[a]
    ensures StreamInv(owner, zero, o, x', y, q + [item], got)
  {
    var q' := q + [item];
    assert q'[..got] == q[..got];
    forall a | a in zero && a in owner && owner[a] == o
      ensures ByteInv(zero, a, x', y, q', got)
    {
      ReplayOne(q, item, a, zero[a]);
      assert q'[..got] == q[..got];
    }
  }

  /** The receiver handles the next item. */
  lemma RecvKeepsStream(owner: map<Addr, PeerId>, zero: Contents, o: PeerId, x: Node, y: Node, q: seq<Item>, got: nat)
    requires StreamInv(owner, zero, o, x, y, q, got) && got < |q|
    ensures StreamInv(owner, zero, o, x, OnItem(y, o, q[got]), q, got + 1)
  {
    assert q[..got + 1] == q[..got] + [q[got]];
    forall a | a in zero && a in owner && owner[a] == o
      ensures ByteInv(zero, a, x, OnItem(y, o, q[got]), q, got + 1)
    {
      assert ByteInv(zero, a, x, y, q, got);
      assert q[..got + 1] == q[..got] + [q[got]];
      ReplayOne(q[..got], q[got], a, zero[a]);
    }
  }

  /** An item of another node has no byte of o. */
  lemma RecvOtherKeepsStream(owner: map<Addr, PeerId>, zero: Contents, o: PeerId, x: Node, y: Node, q: seq<Item>, got: nat,
                             from: PeerId, item: Item)
    requires StreamInv(owner, zero, o, x, y, q, got) && from != o && OwnDiff(owner, zero, from, item)
    ensures StreamInv(owner, zero, o, x, OnItem(y, from, item), q, got)
  {
    forall a | a in zero && a in owner && owner[a] == o
      ensures ByteInv(zero, a, x, OnItem(y, from, item), q, got)
    {
      assert ByteInv(zero, a, x, y, q, got);
    }
  }

  /** A sender that handles an item of another node has the same bytes of its own. */
  lemma SenderRecvKeepsStream(owner: map<Addr, PeerId>, zero: Contents, o: PeerId, x: Node, y: Node, q: seq<Item>, got: nat,
                              from: PeerId, item: Item)
    requires StreamInv(owner, zero, o, x, y, q, got) && from != o && OwnDiff(owner, zero, from, item)
    ensures StreamInv(owner, zero, o, OnItem(x, from, item), y, q, got)
  {
    forall a | a in zero && a in owner && owner[a] == o
      ensures ByteInv(zero, a, OnItem(x, from, item), y, q, got)
    {
      assert ByteInv(zero, a, x, y, q, got);
    }
  }

  // ---- every step, every run ----

  lemma StepKeepsNode(owner: map<Addr, PeerId>, zero: Contents, s: State, step: Step, i: PeerId)
    requires Inv(owner, zero, s) && Enabled(owner, s, step) && i in s.nodes
    ensures NodeAt(owner, zero, Apply(owner, s, step), i)
  {
    assert NodeAt(owner, zero, s, i);
    if step.Recv? && step.to == i {
      RecvKeepsNode(owner, zero, s, step.from, i);
    }
  }

  lemma RecvKeepsNode(owner: map<Addr, PeerId>, zero: Contents, s: State, from: PeerId, to: PeerId)
    requires Inv(owner, zero, s) && Enabled(owner, s, Recv(from, to))
    ensures NodeAt(owner, zero, Apply(owner, s, Recv(from, to)), to)
  {
    assert NodeAt(owner, zero, s, to) && StreamAt(owner, zero, s, from, to);
    ItemKeepsNode(owner, zero, to, s.nodes[to], from, s.sent[(from, to)][s.got[(from, to)]]);
  }

  lemma ItemKeepsNode(owner: map<Addr, PeerId>, zero: Contents, i: PeerId, n: Node, from: PeerId, item: Item)
    requires NodeInv(owner, zero, i, n) && OwnDiff(owner, zero, from, item) && from != i
    ensures NodeInv(owner, zero, i, OnItem(n, from, item))
  {
  }

  /** Publishing and telling: what Notify puts on a stream. */
  lemma NotifyKeepsStream(owner: map<Addr, PeerId>, zero: Contents, o: PeerId, x: Node, y: Node, q: seq<Item>, got: nat)
    requires StreamInv(owner, zero, o, x, y, q, got) && NodeInv(owner, zero, o, x)
    ensures StreamInv(owner, zero, o, OnNotify(x, o).0, y, q + OnNotify(x, o).1, got)
  {
    PublishKeepsStream(owner, zero, o, x, y, q, got);
    var (m, out) := Publish(x);
    AppendKeepsStream(owner, zero, o, m, OnNotify(x, o).0, y, q + out, got, Notice);
    assert q + out + [Notice] == q + (out + [Notice]);
  }

  lemma OwnerKeepsStream(owner: map<Addr, PeerId>, zero: Contents, s: State, step: Step, o: PeerId, i: PeerId)
    requires Inv(owner, zero, s) && Enabled(owner, s, step) && (o, i) in s.sent && (step.TxEnd? || step.Notify?) && step.i == o
    ensures StreamAt(owner, zero, Apply(owner, s, step), o, i)
  {
    assert StreamAt(owner, zero, s, o, i) && NodeAt(owner, zero, s, o) && NodeAt(owner, zero, s, i);
    var x, y, q, got := s.nodes[o], s.nodes[i], s.sent[(o, i)], s.got[(o, i)];
    if step.TxEnd? {
      PublishKeepsStream(owner, zero, o, x, y, q, got);
    } else {
      NotifyKeepsStream(owner, zero, o, x, y, q, got);
    }
  }

  lemma LocalKeepsStream(owner: map<Addr, PeerId>, zero: Contents, s: State, step: Step, o: PeerId, i: PeerId)
    requires Inv(owner, zero, s) && Enabled(owner, s, step) && (o, i) in s.sent && (step.TxEnd? || step.Notify?)
    ensures StreamAt(owner, zero, Apply(owner, s, step), o, i)
  {
    assert StreamAt(owner, zero, s, o, i) && NodeAt(owner, zero, s, o) && NodeAt(owner, zero, s, i);
    var x, y, q, got := s.nodes[o], s.nodes[i], s.sent[(o, i)], s.got[(o, i)];
    if step.i == o {
      OwnerKeepsStream(owner, zero, s, step, o, i);
    } else if step.i == i {
      ReceiverPublishes(owner, zero, o, i, x, y, q, got);
    }
  }

  lemma RecvKeepsStreams(owner: map<Addr, PeerId>, zero: Contents, s: State, from: PeerId, to: PeerId, o: PeerId, i: PeerId)
    requires Inv(owner, zero, s) && Enabled(owner, s, Recv(from, to)) && (o, i) in s.sent
    ensures StreamAt(owner, zero, Apply(owner, s, Recv(from, to)), o, i)
  {
    assert StreamAt(owner, zero, s, o, i);
    var x, y, q, got := s.nodes[o], s.nodes[i], s.sent[(o, i)], s.got[(o, i)];
    if to == i && from == o {
      RecvKeepsStream(owner, zero, o, x, y, q, got);
    } else {
      OtherRecvKeepsStreams(owner, zero, s, from, to, o, i);
    }
  }

  lemma OtherRecvKeepsStreams(owner: map<Addr, PeerId>, zero: Contents, s: State, from: PeerId, to: PeerId, o: PeerId, i: PeerId)
    requires Inv(owner, zero, s) && Enabled(owner, s, Recv(from, to)) && (o, i) in s.sent && (from, to) != (o, i)
    ensures StreamAt(owner, zero, Apply(owner, s, Recv(from, to)), o, i)
  {
    assert StreamAt(owner, zero, s, o, i) && StreamAt(owner, zero, s, from, to);
    var x, y, q, got := s.nodes[o], s.nodes[i], s.sent[(o, i)], s.got[(o, i)];
    var item := s.sent[(from, to)][s.got[(from, to)]];
    if to == i {
      RecvOtherKeepsStream(owner, zero, o, x, y, q, got, from, item);
    } else if to == o {
      SenderRecvKeepsStream(owner, zero, o, x, y, q, got, from, item);
    }
  }

  lemma StoreKeepsStreams(owner: map<Addr, PeerId>, zero: Contents, s: State, step: Step, o: PeerId, i: PeerId)
    requires Inv(owner, zero, s) && Enabled(owner, s, step) && (o, i) in s.sent && (step.Store? || step.Arm?)
    ensures StreamAt(owner, zero, Apply(owner, s, step), o, i)
  {
    assert StreamAt(owner, zero, s, o, i);
    if step.Store? {
      StoreKeepsStream(owner, zero, o, s.nodes[o], s.nodes[i], s.sent[(o, i)], s.got[(o, i)], step.a, step.v);
    }
  }

  lemma StepKeepsStream(owner: map<Addr, PeerId>, zero: Contents, s: State, step: Step, o: PeerId, i: PeerId)
    requires Inv(owner, zero, s) && Enabled(owner, s, step) && (o, i) in s.sent
    ensures StreamAt(owner, zero, Apply(owner, s, step), o, i)
  {
    match step {
      case Store(_, _, _) => StoreKeepsStreams(owner, zero, s, step, o, i);
      case Arm(_, _) => StoreKeepsStreams(owner, zero, s, step, o, i);
      case TxEnd(_) => LocalKeepsStream(owner, zero, s, step, o, i);
      case Notify(_) => LocalKeepsStream(owner, zero, s, step, o, i);
      case Recv(from, to) => RecvKeepsStreams(owner, zero, s, from, to, o, i);
    }
  }

  /** What the receiver publishes or counts of its own is not a byte or a notice of o. */
  lemma ReceiverPublishes(owner: map<Addr, PeerId>, zero: Contents, o: PeerId, i: PeerId, x: Node, y: Node,
                          q: seq<Item>, got: nat)
    requires StreamInv(owner, zero, o, x, y, q, got) && NodeInv(owner, zero, i, y) && o != i
    ensures StreamInv(owner, zero, o, x, Publish(y).0, q, got)
    ensures StreamInv(owner, zero, o, x, OnNotify(y, i).0, q, got)
  {
    forall a | a in zero && a in owner && owner[a] == o
      ensures ByteInv(zero, a, x, Publish(y).0, q, got)
    {
      assert ByteInv(zero, a, x, y, q, got);
    }
  }

  lemma StepKeepsShape(owner: map<Addr, PeerId>, s: State, step: Step)
    requires Shape(s) && Enabled(owner, s, step)
    ensures var s' := Apply(owner, s, step); Shape(s') && s'.nodes.Keys == s.nodes.Keys
  {
  }

  lemma StepKeepsInv(owner: map<Addr, PeerId>, zero: Contents, s: State, step: Step)
    requires Inv(owner, zero, s) && Enabled(owner, s, step)
    ensures Inv(owner, zero, Apply(owner, s, step))
  {
    var s' := Apply(owner, s, step);
    StepKeepsShape(owner, s, step);
    forall i | i in s'.nodes
      ensures NodeAt(owner, zero, s', i)
    {
      StepKeepsNode(owner, zero, s, step, i);
    }
    forall o, i | (o, i) in s'.sent
      ensures StreamAt(owner, zero, s', o, i)
    {
      StepKeepsStream(owner, zero, s, step, o, i);
    }
  }

  lemma {:induction false} RunKeepsInv(owner: map<Addr, PeerId>, zero: Contents, s: State, steps: seq<Step>)
    requires Inv(owner, zero, s)
    ensures var r := Run(owner, s, steps); r.Some? ==> Inv(owner, zero, r.value)
    decreases |steps|
  {
    if |steps| > 0 && Enabled(owner, s, steps[0]) {
      StepKeepsInv(owner, zero, s, steps[0]);
      RunKeepsInv(owner, zero, Apply(owner, s, steps[0]), steps[1..]);
    }
  }

  /** A state of some run in which each byte of the region is stored by one node only. */
  ghost predicate Reachable(owner: map<Addr, PeerId>, members: set<PeerId>, zero: Contents, s: State) {
    && (forall a | a in zero :: a in owner && owner[a] in members)
    && exists o, steps :: Initial(members, zero, o) && Run(owner, o, steps) == Some(s)
  }

  lemma ReachableInv(owner: map<Addr, PeerId>, members: set<PeerId>, zero: Contents, s: State)
    requires Reachable(owner, members, zero, s)
    ensures Inv(owner, zero, s)
  {
    var o, steps :| Initial(members, zero, o) && Run(owner, o, steps) == Some(s);
    InitialInv(owner, members, zero, o);
    RunKeepsInv(owner, zero, o, steps);
  }

  // ---- what follows ----

  /** A node's copy of another's byte is what replaying that stream so far gives. */
  lemma CopyIsReplay(owner: map<Addr, PeerId>, members: set<PeerId>, zero: Contents, s: State, i: PeerId, a: Addr)
    requires Reachable(owner, members, zero, s) && i in s.nodes && a in zero && owner[a] != i
    ensures var o := owner[a];
            && (o, i) in s.sent && (o, i) in s.got && o in s.nodes && s.got[(o, i)] <= |s.sent[(o, i)]|
            && a in s.nodes[i].mem && a in s.nodes[o].pub
            && s.nodes[i].mem[a] == Replay(s.sent[(o, i)][..s.got[(o, i)]], a, zero[a])
            && s.nodes[o].pub[a] == Replay(s.sent[(o, i)], a, zero[a])
  {
    ReachableInv(owner, members, zero, s);
    assert StreamAt(owner, zero, s, owner[a], i);
  }

  ghost predicate Quiet(s: State) {
    forall c | c in s.sent && c in s.got :: s.got[c] == |s.sent[c]|
  }

  /** An owner can store any value at any time, and nothing else that a node may do is ever refused. */
  lemma NothingIsRefused(owner: map<Addr, PeerId>, members: set<PeerId>, zero: Contents, s: State, i: PeerId)
    requires Reachable(owner, members, zero, s) && i in s.nodes
    ensures forall a, v | a in zero && owner[a] == i :: Enabled(owner, s, Store(i, a, v))
    ensures Enabled(owner, s, TxEnd(i)) && Enabled(owner, s, Notify(i)) && forall ids :: Enabled(owner, s, Arm(i, ids))
    ensures forall k | (k, i) in s.sent :: (k, i) in s.got && s.got[(k, i)] <= |s.sent[(k, i)]|
    ensures forall k | (k, i) in s.sent && s.got[(k, i)] < |s.sent[(k, i)]| :: Enabled(owner, s, Recv(k, i))
  {
    ReachableInv(owner, members, zero, s);
    assert NodeAt(owner, zero, s, i);
    forall k | (k, i) in s.sent
      ensures (k, i) in s.got && s.got[(k, i)] <= |s.sent[(k, i)]|
    {
      assert StreamAt(owner, zero, s, k, i);
    }
  }

  // ---- what was stored, by the list of steps alone ----

  /** The value of the last store to a, by whichever node, or v if there is none. */
  ghost function LastStore(steps: seq<Step>, a: Addr, v: Byte): Byte {
    if |steps| == 0 then v
    else LastStore(steps[1..], a, if steps[0].Store? && steps[0].a == a then steps[0].v else v)
  }

  /** How often p notifies. */
  ghost function Notifies(steps: seq<Step>, p: PeerId): nat {
    if |steps| == 0 then 0 else (if steps[0] == Notify(p) then 1 else 0) + Notifies(steps[1..], p)
  }

  /** A step changes at a byte's owner what it stores there, and nothing else. */
  lemma OwnerStores(owner: map<Addr, PeerId>, zero: Contents, s: State, step: Step, a: Addr)
    requires Inv(owner, zero, s) && Enabled(owner, s, step) && a in zero
    ensures a in owner && owner[a] in s.nodes && a in s.nodes[owner[a]].mem
    ensures var n := Apply(owner, s, step).nodes[owner[a]];
            a in n.mem && n.mem[a] == if step.Store? && step.a == a then step.v else s.nodes[owner[a]].mem[a]
  {
    assert NodeAt(owner, zero, s, owner[a]);
    if step.Recv? {
      assert StreamAt(owner, zero, s, step.from, step.to);
    }
  }

  lemma {:induction false} OwnerHasLastStore(owner: map<Addr, PeerId>, zero: Contents, s: State, steps: seq<Step>,
                                             t: State, a: Addr)
    requires Inv(owner, zero, s) && Run(owner, s, steps) == Some(t) && a in zero
    ensures a in owner && owner[a] in s.nodes && owner[a] in t.nodes
    ensures a in s.nodes[owner[a]].mem && a in t.nodes[owner[a]].mem
    ensures t.nodes[owner[a]].mem[a] == LastStore(steps, a, s.nodes[owner[a]].mem[a])
    decreases |steps|
  {
    if |steps| > 0 {
      OwnerStores(owner, zero, s, steps[0], a);
      StepKeepsInv(owner, zero, s, steps[0]);
      StepKeepsShape(owner, s, steps[0]);
      OwnerHasLastStore(owner, zero, Apply(owner, s, steps[0]), steps[1..], t, a);
    } else {
      assert NodeAt(owner, zero, s, owner[a]);
    }
  }

  /** The steps lead from the start to s, each byte being stored by one node only. */
  ghost predicate Reaches(owner: map<Addr, PeerId>, members: set<PeerId>, zero: Contents, o: State, steps: seq<Step>, s: State) {
    && (forall a | a in zero :: a in owner && owner[a] in members)
    && Initial(members, zero, o) && Run(owner, o, steps) == Some(s)
  }

  /**
    When everything sent has been handled and no page has a twin, every copy has at every
    byte what the last store of the run put there.
   */
  lemma Convergence(owner: map<Addr, PeerId>, members: set<PeerId>, zero: Contents, o: State, steps: seq<Step>,
                    s: State, i: PeerId)
    requires Reaches(owner, members, zero, o, steps, s) && Quiet(s) && i in s.nodes
    requires forall k | k in s.nodes :: !s.nodes[k].twinned
    ensures s.nodes[i].mem.Keys == zero.Keys && forall a | a in zero :: s.nodes[i].mem[a] == LastStore(steps, a, zero[a])
  {
    InitialInv(owner, members, zero, o);
    assert Reachable(owner, members, zero, s);
    ReachableInv(owner, members, zero, s);
    assert NodeAt(owner, zero, s, i);
    forall a | a in zero
      ensures s.nodes[i].mem[a] == LastStore(steps, a, zero[a])
    {
      IsOwners(owner, members, zero, s, i, a);
      OwnerHasLastStore(owner, zero, o, steps, s, a);
    }
  }

  lemma IsOwners(owner: map<Addr, PeerId>, members: set<PeerId>, zero: Contents, s: State, i: PeerId, a: Addr)
    requires Reachable(owner, members, zero, s) && Quiet(s) && i in s.nodes && a in zero
    requires forall k | k in s.nodes :: !s.nodes[k].twinned
    ensures a in s.nodes[i].mem && owner[a] in s.nodes && a in s.nodes[owner[a]].mem
    ensures s.nodes[i].mem[a] == s.nodes[owner[a]].mem[a]
  {
    ReachableInv(owner, members, zero, s);
    var o := owner[a];
    assert NodeAt(owner, zero, s, o) && NodeAt(owner, zero, s, i);
    if o != i {
      CopyIsReplay(owner, members, zero, s, i, a);
      var q := s.sent[(o, i)];
      assert q[..|q|] == q;
    }
  }
}
