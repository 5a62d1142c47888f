/**
  The mutex and the shared region together. Unlock publishes the holder's diff and
  then answers the deferred requests, on the same FIFO channels, so a node that gets
  the lock has been given every diff of those who had it before.

  The program stores to the region only while it holds the lock; one task thread a node.
 */
module Release {
  import opened Options
  import opened Bytes
  import opened Addresses
  import opened MutexNode
  import opened MutexNetwork

  type Contents = map<Addr, Byte>

  datatype Item = Ctl(msg: Msg) | Data(d: Contents)

  /** A copy of the region: the pages, what has been published of them, and whether there are twins. */
  datatype Copy = Copy(mem: Contents, pub: Contents, twinned: bool)

  datatype World = World(
    nodes: map<PeerId, MutexNode.Node>,
    copies: map<PeerId, Copy>,
    chan: map<Channel, seq<Item>>,
    ideal: Contents,      // the one memory that all holders write
    settled: Contents     // that memory when a holder last published
  )

  datatype Act =
    | DoLock(i: PeerId)
    | DoRecv(from: PeerId, to: PeerId)
    | DoEnter(i: PeerId)
    | DoStore(i: PeerId, a: Addr, v: Byte)
    | DoTxEnd(i: PeerId)
    | DoUnlock(i: PeerId)

  /** Who may store where; fixed for a run. */
  type Rights = iset<(PeerId, Addr)>

  ghost predicate Shaped(w: World) {
    && w.copies.Keys == w.nodes.Keys
    && forall i, j {:trigger (i, j) in w.chan} :: (i, j) in w.chan <==> i in w.nodes && j in w.nodes && i != j
  }

  /** Nobody has asked for the lock, all copies are zeroed and nothing is on its way. */
  ghost predicate Starting(members: set<PeerId>, zero: Contents, w: World) {
    && w.nodes.Keys == members && Shaped(w) && w.ideal == w.settled == zero
    && (forall i | i in w.nodes :: w.nodes[i] == FRESH)
    && (forall i | i in w.copies :: w.copies[i] == Copy(zero, zero, false))
    && (forall c | c in w.chan :: w.chan[c] == [])
  }

  ghost function Start(members: set<PeerId>, zero: Contents): (w: World)
    ensures Starting(members, zero, w)
  {
    var s := MutexNetwork.Init(members);
    World(s.nodes, map i | i in members :: Copy(zero, zero, false), map c | c in s.chan :: [], zero, zero)
  }

  ghost function Ctls(q: seq<Item>): seq<Msg> {
    if |q| == 0 then [] else (if q[0].Ctl? then [q[0].msg] else []) + Ctls(q[1..])
  }

  ghost function Wrap(q: seq<Msg>): (r: seq<Item>)
    ensures |r| == |q| && forall k | 0 <= k < |q| :: r[k] == Ctl(q[k])
  {
    seq(|q|, k requires 0 <= k < |q| => Ctl(q[k]))
  }

  ghost function CtlsOf(chan: map<Channel, seq<Item>>): map<Channel, seq<Msg>> {
    map c | c in chan :: Ctls(chan[c])
  }

  /** The mutex messages, without the diffs between them. */
  ghost function Project(w: World): MutexNetwork.State {
    MutexNetwork.State(w.nodes, CtlsOf(w.chan))
  }

  /** The publication of a copy, sent if there are twins (src/memory/memory_dobj.c:124-148). */
  ghost function Publication(c: Copy): seq<Item> {
    if c.twinned then [Data(Delta(c.pub, c.mem))] else []
  }

  ghost function Emit(mode: Addressing, chan: map<Channel, seq<Item>>, i: PeerId, first: seq<Item>, envs: seq<Envelope>):
    map<Channel, seq<Item>>
  {
    map c | c in chan :: if c.0 == i then chan[c] + first + Wrap(Stream(mode, envs, c.1)) else chan[c]
  }

  ghost predicate Can(rights: Rights, w: World, act: Act) {
    match act
    case DoLock(i) => i in w.nodes && w.nodes[i].request.None?
    case DoRecv(from, to) => (from, to) in w.chan && to in w.nodes && to in w.copies && |w.chan[(from, to)]| > 0
    case DoEnter(i) => i in w.nodes && CanEnter(w.nodes[i])
    case DoStore(i, a, _) =>
      i in w.nodes && w.nodes[i].inside && i in w.copies && a in w.copies[i].mem && a in w.ideal && (i, a) in rights
    case DoTxEnd(i) => i in w.nodes && i in w.copies
    case DoUnlock(i) => i in w.nodes && w.nodes[i].inside && i in w.copies
  }

  ghost function Do(mode: Addressing, rights: Rights, w: World, act: Act): World
    requires Can(rights, w, act)
  {
    match act
    case DoLock(i) =>
      var (n, envs) := OnLock(w.nodes[i], i, multiset(w.nodes.Keys - {i}));
      w.(nodes := w.nodes[i := n], chan := Emit(mode, w.chan, i, [], envs))
    case DoRecv(from, to) =>
      var q := w.chan[(from, to)];
      var popped := w.chan[(from, to) := q[1..]];
      (match q[0]
       case Ctl(msg) =>
         var (n, envs) := OnMessage(w.nodes[to], from, msg);
         w.(nodes := w.nodes[to := n], chan := Emit(mode, popped, to, [], envs))
       case Data(d) =>
         var c := w.copies[to];
         w.(copies := w.copies[to := c.(mem := c.mem + d, pub := c.pub + d)], chan := popped))
    case DoEnter(i) => w.(nodes := w.nodes[i := OnEnter(w.nodes[i])])
    case DoStore(i, a, v) =>
      var c := w.copies[i];
      w.(copies := w.copies[i := c.(mem := c.mem[a := v], twinned := true)], ideal := w.ideal[a := v])
    case DoTxEnd(i) =>
      var c := w.copies[i];
      w.(copies := w.copies[i := c.(pub := c.mem, twinned := false)],
         chan := Emit(mode, w.chan, i, Publication(c), []),
         settled := if w.nodes[i].inside then w.ideal else w.settled)
    case DoUnlock(i) =>
      var c := w.copies[i];
      var (n, envs) := OnUnlock(w.nodes[i]);
      w.(nodes := w.nodes[i := n],
         copies := w.copies[i := c.(pub := c.mem, twinned := false)],
         chan := Emit(mode, w.chan, i, Publication(c), envs),
         settled := w.ideal)
  }

  ghost function Play(mode: Addressing, rights: Rights, w: World, acts: seq<Act>): Option<World>
    decreases |acts|
  {
    if |acts| == 0 then Some(w)
    else if Can(rights, w, acts[0]) then Play(mode, rights, Do(mode, rights, w, acts[0]), acts[1..])
    else None
  }

  // ---- the mutex inside: every act is a step of it or none ----

  lemma {:induction false} CtlsAppend(a: seq<Item>, b: seq<Item>)
    ensures Ctls(a + b) == Ctls(a) + Ctls(b)
  {
    if |a| == 0 {
      assert a + b == b;
    } else {
      assert (a + b)[1..] == a[1..] + b;
      CtlsAppend(a[1..], b);
      var first := if a[0].Ctl? then [a[0].msg] else [];
      assert first + (Ctls(a[1..]) + Ctls(b)) == first + Ctls(a[1..]) + Ctls(b);
    }
  }

  lemma {:induction false} CtlsWrap(q: seq<Msg>)
    ensures Ctls(Wrap(q)) == q
  {
    if |q| > 0 {
      assert Wrap(q)[1..] == Wrap(q[1..]);
      CtlsWrap(q[1..]);
    }
  }

  lemma CtlsEmit(q: seq<Item>, first: seq<Item>, msgs: seq<Msg>)
    requires Ctls(first) == []
    ensures Ctls(q + first + Wrap(msgs)) == Ctls(q) + msgs
  {
    CtlsAppend(q + first, Wrap(msgs));
    CtlsAppend(q, first);
    CtlsWrap(msgs);
  }

  /** What is published is nothing to the mutex. */
  lemma CtlsOfEmit(mode: Addressing, chan: map<Channel, seq<Item>>, i: PeerId, first: seq<Item>, envs: seq<Envelope>)
    requires Ctls(first) == []
    ensures CtlsOf(Emit(mode, chan, i, first, envs)) == Send(mode, CtlsOf(chan), i, envs)
  {
    var left, right := Emit(mode, chan, i, first, envs), Send(mode, CtlsOf(chan), i, envs);
    forall z | z in chan
      ensures Ctls(left[z]) == right[z]
    {
      CtlsEmit(chan[z], first, Stream(mode, envs, z.1));
    }
    assert CtlsOf(left) == right;
  }

  ghost function MutexStep(act: Act): Step
    requires act.DoLock? || act.DoRecv? || act.DoEnter? || act.DoUnlock?
  {
    match act
    case DoLock(i) => Lock(i)
    case DoRecv(from, to) => Recv(from, to)
    case DoEnter(i) => Enter(i)
    case DoUnlock(i) => Unlock(i)
  }

  /** Stores, publications and received diffs are nothing to the mutex. */
  ghost predicate Silent(w: World, act: Act) {
    act.DoStore? || act.DoTxEnd? || (act.DoRecv? && (act.from, act.to) in w.chan && |w.chan[(act.from, act.to)]| > 0
                                      && w.chan[(act.from, act.to)][0].Data?)
  }

  lemma ProjectsSilently(mode: Addressing, rights: Rights, w: World, act: Act)
    requires Can(rights, w, act) && Silent(w, act)
    ensures Project(Do(mode, rights, w, act)) == Project(w)
  {
    var w' := Do(mode, rights, w, act);
    if act.DoTxEnd? {
      CtlsOfEmit(mode, w.chan, act.i, Publication(w.copies[act.i]), []);
      SendNothing(mode, CtlsOf(w.chan), act.i);
    } else if act.DoRecv? {
      PopData(w.chan[(act.from, act.to)]);
      assert CtlsOf(w'.chan) == CtlsOf(w.chan);
    }
  }

  lemma PopData(q: seq<Item>)
    requires |q| > 0 && q[0].Data?
    ensures Ctls(q[1..]) == Ctls(q)
  {
    assert Ctls(q) == [] + Ctls(q[1..]);
  }

  lemma SendNothing(mode: Addressing, chan: map<Channel, seq<Msg>>, i: PeerId)
    ensures Send(mode, chan, i, []) == chan
  {
    forall z | z in chan
      ensures Send(mode, chan, i, [])[z] == chan[z]
    {
      assert Stream(mode, [], z.1) == [];
    }
  }

  lemma PopCtl(q: seq<Item>)
    requires |q| > 0 && q[0].Ctl?
    ensures |Ctls(q)| > 0 && Ctls(q)[0] == q[0].msg && Ctls(q)[1..] == Ctls(q[1..])
  {
    assert Ctls(q) == [q[0].msg] + Ctls(q[1..]);
  }

  lemma ProjectsRecv(mode: Addressing, rights: Rights, w: World, from: PeerId, to: PeerId)
    requires Can(rights, w, DoRecv(from, to)) && w.chan[(from, to)][0].Ctl?
    ensures MutexNetwork.Enabled(Project(w), Recv(from, to))
    ensures Project(Do(mode, rights, w, DoRecv(from, to))) == MutexNetwork.Apply(mode, Project(w), Recv(from, to))
  {
    var s := Project(w);
    var q := w.chan[(from, to)];
    PopCtl(q);
    var envs := OnMessage(w.nodes[to], from, q[0].msg).1;
    var popped := w.chan[(from, to) := q[1..]];
    CtlsOfEmit(mode, popped, to, [], envs);
    assert CtlsOf(popped) == s.chan[(from, to) := Ctls(q)[1..]];
  }

  lemma ProjectsUnlock(mode: Addressing, rights: Rights, w: World, i: PeerId)
    requires Can(rights, w, DoUnlock(i))
    ensures MutexNetwork.Enabled(Project(w), Unlock(i))
    ensures Project(Do(mode, rights, w, DoUnlock(i))) == MutexNetwork.Apply(mode, Project(w), Unlock(i))
  {
    CtlsOfEmit(mode, w.chan, i, Publication(w.copies[i]), OnUnlock(w.nodes[i]).1);
  }

  lemma ProjectsLock(mode: Addressing, rights: Rights, w: World, i: PeerId)
    requires Can(rights, w, DoLock(i))
    ensures MutexNetwork.Enabled(Project(w), Lock(i))
    ensures Project(Do(mode, rights, w, DoLock(i))) == MutexNetwork.Apply(mode, Project(w), Lock(i))
  {
    CtlsOfEmit(mode, w.chan, i, [], OnLock(w.nodes[i], i, Others(Project(w), i)).1);
  }

  /** Every act is a step of the mutex or leaves it alone. */
  lemma Projects(mode: Addressing, rights: Rights, w: World, act: Act)
    requires Can(rights, w, act)
    ensures var s, s' := Project(w), Project(Do(mode, rights, w, act));
            if Silent(w, act) then s' == s
            else MutexNetwork.Enabled(s, MutexStep(act)) && s' == MutexNetwork.Apply(mode, s, MutexStep(act))
  {
    if Silent(w, act) {
      ProjectsSilently(mode, rights, w, act);
    } else {
      match act {
        case DoLock(i) => ProjectsLock(mode, rights, w, i);
        case DoRecv(from, to) => ProjectsRecv(mode, rights, w, from, to);
        case DoUnlock(i) => ProjectsUnlock(mode, rights, w, i);
        case DoEnter(i) =>
      }
    }
  }
}
