/**
  Release consistency: when a node has the lock it has handled every diff that any
  node ever published, and a byte of its copy is what the last holder stored there
  provided no node hears of that byte from two others.
 */
module ReleaseConsistency {
  import opened Options
  import opened Bytes
  import opened Addresses
  import opened MutexNode
  import opened MutexNetwork
  import opened MutexSafety
  import opened MutexAddressing
  import opened Release

  ghost predicate NoData(q: seq<Item>) {
    forall k | 0 <= k < |q| :: !q[k].Data?
  }

  ghost predicate IsReply(x: Item) {
    x.Ctl? && x.msg.Rep?
  }

  ghost predicate NoReply(q: seq<Item>) {
    forall k | 0 <= k < |q| :: !IsReply(q[k])
  }

  /** On one channel no diff comes after a reply. */
  ghost predicate DataBeforeReplies(q: seq<Item>) {
    forall k, l | 0 <= k < l < |q| && IsReply(q[k]) :: !q[l].Data?
  }

  ghost predicate Lawful(rights: Rights, keys: set<Addr>, j: PeerId, q: seq<Item>) {
    forall k | 0 <= k < |q| && q[k].Data? :: q[k].d.Keys <= keys && forall a | a in q[k].d :: (j, a) in rights
  }

  /** The channel from j to a node n: once n has j's answer there is no diff of j to come. */
  ghost predicate LinkInv(rights: Rights, keys: set<Addr>, j: PeerId, n: MutexNode.Node, q: seq<Item>) {
    && DataBeforeReplies(q)
    && (n.request.Some? && n.waitOn[j] == 0 ==> NoData(q))
    && Lawful(rights, keys, j, q)
  }

  ghost predicate CopyInv(rights: Rights, keys: set<Addr>, i: PeerId, n: MutexNode.Node, c: Copy) {
    && c.mem.Keys == c.pub.Keys == keys
    && (c.twinned ==> n.inside)
    && (!c.twinned ==> c.mem == c.pub)
    && (forall a | a in c.mem && c.mem[a] != c.pub[a] :: (i, a) in rights)
  }

  ghost predicate LinkAt(rights: Rights, w: World, j: PeerId, i: PeerId) {
    (j, i) in w.chan && i in w.nodes && LinkInv(rights, w.ideal.Keys, j, w.nodes[i], w.chan[(j, i)])
  }

  ghost predicate CopyAt(rights: Rights, w: World, i: PeerId) {
    i in w.nodes && i in w.copies && CopyInv(rights, w.ideal.Keys, i, w.nodes[i], w.copies[i])
  }

  ghost predicate Base(rights: Rights, w: World) {
    && MutexSafety.Inv(Project(w))
    && w.copies.Keys == w.nodes.Keys && w.settled.Keys == w.ideal.Keys
    && (forall i {:trigger CopyAt(rights, w, i)} | i in w.nodes :: CopyAt(rights, w, i))
    && (forall j, i {:trigger LinkAt(rights, w, j, i)} | (j, i) in w.chan :: LinkAt(rights, w, j, i))
  }

  lemma StartBase(rights: Rights, members: set<PeerId>, zero: Contents, o: World)
    requires Starting(members, zero, o)
    ensures Base(rights, o)
  {
    MutexSafety.InitialInv(members, Project(o));
  }

  lemma ProjectHas(w: World)
    ensures forall c :: c in Project(w).chan <==> c in w.chan
    ensures forall c | c in w.chan :: Project(w).chan[c] == Ctls(w.chan[c])
    ensures Project(w).nodes == w.nodes
  {
  }

  lemma {:induction false} ReplyShows(q: seq<Item>)
    requires ReplyCount(Ctls(q)) == 0
    ensures NoReply(q)
  {
    if |q| > 0 {
      var first := if q[0].Ctl? then [q[0].msg] else [];
      if q[0].Ctl? {
        assert Ctls(q) == first + Ctls(q[1..]);
        assert Ctls(q)[1..] == Ctls(q[1..]);
      } else {
        assert Ctls(q) == [] + Ctls(q[1..]) == Ctls(q[1..]);
      }
      ReplyShows(q[1..]);
      forall k | 0 <= k < |q|
        ensures !IsReply(q[k])
      {
        assert k > 0 ==> q[k] == q[1..][k - 1];
      }
    }
  }

  /** The holder has answered nobody: no reply of its is on its way, and all who wait, wait for it. */
  lemma HolderAnswersNobody(rights: Rights, w: World, j: PeerId, i: PeerId)
    requires Base(rights, w) && (j, i) in w.chan && j in w.nodes && w.nodes[j].inside
    ensures i in w.nodes && NoReply(w.chan[(j, i)])
    ensures w.nodes[i].request.Some? ==> w.nodes[i].waitOn[j] > 0
  {
    var s := Project(w);
    ProjectHas(w);
    assert (j, i) in s.chan;
    InsidePrecedes(s, j, i);
    assert PairAt(s, i, j) && NodeAt(s, i);
    assert !Granted(s.nodes[i], j, s.chan[(j, i)]);
    if ReplyCount(s.chan[(j, i)]) == 0 {
      ReplyShows(w.chan[(j, i)]);
    }
  }

  // ---- one channel ----

  lemma LinkTakesCtl(rights: Rights, keys: set<Addr>, j: PeerId, n: MutexNode.Node, q: seq<Item>, msgs: seq<Msg>)
    requires LinkInv(rights, keys, j, n, q)
    ensures LinkInv(rights, keys, j, n, q + Wrap(msgs))
    ensures LinkInv(rights, keys, j, n, q + [] + Wrap(msgs))
  {
    assert q + [] == q;
  }

  lemma LinkTakesPublication(rights: Rights, keys: set<Addr>, j: PeerId, m: MutexNode.Node, c: Copy, n: MutexNode.Node,
                             q: seq<Item>, msgs: seq<Msg>)
    requires LinkInv(rights, keys, j, n, q) && CopyInv(rights, keys, j, m, c)
    requires m.inside ==> NoReply(q) && (n.request.Some? ==> n.waitOn[j] > 0)
    ensures LinkInv(rights, keys, j, n, q + Publication(c) + Wrap(msgs))
  {
    if c.twinned {
      var d := Data(Delta(c.pub, c.mem));
      var r := q + [d];
      forall k | 0 <= k < |r| && r[k].Data?
        ensures r[k].d.Keys <= keys && forall a | a in r[k].d :: (j, a) in rights
      {
        if k < |q| {
          assert r[k] == q[k];
        }
      }
      assert NoReply(r);
      LinkTakesCtl(rights, keys, j, n, r, msgs);
    } else {
      assert q + [] == q;
      LinkTakesCtl(rights, keys, j, n, q, msgs);
    }
  }

  lemma LinkPops(rights: Rights, keys: set<Addr>, j: PeerId, n: MutexNode.Node, q: seq<Item>)
    requires LinkInv(rights, keys, j, n, q) && |q| > 0
    ensures LinkInv(rights, keys, j, n, q[1..])
    ensures q[0].Ctl? ==> LinkInv(rights, keys, j, OnMessage(n, j, q[0].msg).0, q[1..])
  {
    var r := q[1..];
    forall k | 0 <= k < |r|
      ensures r[k] == q[k + 1]
    {
    }
  }

  lemma LinkOtherPops(rights: Rights, keys: set<Addr>, j: PeerId, n: MutexNode.Node, q: seq<Item>, from: PeerId, m: Msg)
    requires LinkInv(rights, keys, j, n, q) && from != j
    ensures LinkInv(rights, keys, j, OnMessage(n, from, m).0, q)
  {
  }

  // ---- every act keeps the base ----

  lemma ActKeepsMutex(rights: Rights, w: World, act: Act)
    requires Base(rights, w) && Can(rights, w, act)
    ensures MutexSafety.Inv(Project(Do(Addressed, rights, w, act)))
  {
    Projects(Addressed, rights, w, act);
    if !Silent(w, act) {
      StepKeepsInv(Project(w), MutexStep(act));
    }
  }

  lemma LockKeepsLink(rights: Rights, w: World, x: PeerId, j: PeerId, i: PeerId)
    requires Base(rights, w) && Can(rights, w, DoLock(x)) && (j, i) in w.chan
    ensures LinkAt(rights, Do(Addressed, rights, w, DoLock(x)), j, i)
  {
    ProjectHas(w);
    assert LinkAt(rights, w, j, i) && (j, i) in Project(w).chan;
    if j == x {
      LinkTakesCtl(rights, w.ideal.Keys, j, w.nodes[i], w.chan[(j, i)],
                   Stream(Addressed, OnLock(w.nodes[x], x, multiset(w.nodes.Keys - {x})).1, i));
    }
  }

  lemma PublishKeepsLink(rights: Rights, w: World, act: Act, j: PeerId, i: PeerId)
    requires Base(rights, w) && Can(rights, w, act) && (act.DoTxEnd? || act.DoUnlock?) && (j, i) in w.chan
    ensures LinkAt(rights, Do(Addressed, rights, w, act), j, i)
  {
    ProjectHas(w);
    assert LinkAt(rights, w, j, i) && (j, i) in Project(w).chan && CopyAt(rights, w, j);
    if j == act.i {
      if w.nodes[j].inside {
        HolderAnswersNobody(rights, w, j, i);
      }
      var envs := if act.DoTxEnd? then [] else OnUnlock(w.nodes[j]).1;
      LinkTakesPublication(rights, w.ideal.Keys, j, w.nodes[j], w.copies[j], w.nodes[i], w.chan[(j, i)],
                           Stream(Addressed, envs, i));
    }
  }

  lemma RecvKeepsLink(rights: Rights, w: World, x: PeerId, y: PeerId, j: PeerId, i: PeerId)
    requires Base(rights, w) && Can(rights, w, DoRecv(x, y)) && (j, i) in w.chan
    ensures LinkAt(rights, Do(Addressed, rights, w, DoRecv(x, y)), j, i)
  {
    ProjectHas(w);
    assert LinkAt(rights, w, j, i) && (x, y) in Project(w).chan;
    var keys, q, n := w.ideal.Keys, w.chan[(j, i)], w.nodes[i];
    var head := w.chan[(x, y)][0];
    if (j, i) == (x, y) {
      LinkPops(rights, keys, j, n, q);
    } else if head.Ctl? && i == y {
      LinkOtherPops(rights, keys, j, n, q, x, head.msg);
    } else if head.Ctl? && j == y {
      LinkTakesCtl(rights, keys, j, n, q, Stream(Addressed, OnMessage(w.nodes[y], x, head.msg).1, i));
    }
  }

  lemma ActKeepsLink(rights: Rights, w: World, act: Act, j: PeerId, i: PeerId)
    requires Base(rights, w) && Can(rights, w, act) && (j, i) in w.chan
    ensures LinkAt(rights, Do(Addressed, rights, w, act), j, i)
  {
    assert LinkAt(rights, w, j, i);
    match act {
      case DoLock(x) => LockKeepsLink(rights, w, x, j, i);
      case DoRecv(x, y) => RecvKeepsLink(rights, w, x, y, j, i);
      case DoEnter(x) =>
      case DoStore(x, a, v) =>
        assert w.ideal[a := v].Keys == w.ideal.Keys;
      case DoTxEnd(x) => PublishKeepsLink(rights, w, act, j, i);
      case DoUnlock(x) => PublishKeepsLink(rights, w, act, j, i);
    }
  }

  /** The holder has no diff left to receive. */
  lemma HolderHasAll(rights: Rights, w: World, h: PeerId, j: PeerId)
    requires Base(rights, w) && h in w.nodes && w.nodes[h].inside && (j, h) in w.chan
    ensures NoData(w.chan[(j, h)])
  {
    ProjectHas(w);
    assert NodeAt(Project(w), h) && LinkAt(rights, w, j, h);
  }

  lemma RecvKeepsCopy(rights: Rights, w: World, x: PeerId, y: PeerId)
    requires Base(rights, w) && Can(rights, w, DoRecv(x, y))
    ensures CopyAt(rights, Do(Addressed, rights, w, DoRecv(x, y)), y)
  {
    assert CopyAt(rights, w, y) && LinkAt(rights, w, x, y);
    if w.nodes[y].inside {
      HolderHasAll(rights, w, y, x);
    }
  }

  lemma LockKeepsCopy(rights: Rights, w: World, x: PeerId)
    requires Base(rights, w) && Can(rights, w, DoLock(x))
    ensures CopyAt(rights, Do(Addressed, rights, w, DoLock(x)), x)
  {
    ProjectHas(w);
    assert NodeAt(Project(w), x) && CopyAt(rights, w, x);
  }

  lemma StoreKeepsCopy(rights: Rights, w: World, x: PeerId, a: Addr, v: Byte, i: PeerId)
    requires Base(rights, w) && Can(rights, w, DoStore(x, a, v)) && i in w.nodes
    ensures CopyAt(rights, Do(Addressed, rights, w, DoStore(x, a, v)), i)
  {
    assert CopyAt(rights, w, i);
    assert w.ideal[a := v].Keys == w.ideal.Keys;
  }

  lemma ActKeepsCopy(rights: Rights, w: World, act: Act, i: PeerId)
    requires Base(rights, w) && Can(rights, w, act) && i in w.nodes
    ensures CopyAt(rights, Do(Addressed, rights, w, act), i)
  {
    if act.DoRecv? && act.to == i {
      RecvKeepsCopy(rights, w, act.from, i);
    } else if act.DoLock? && act.i == i {
      LockKeepsCopy(rights, w, i);
    } else if act.DoStore? {
      StoreKeepsCopy(rights, w, act.i, act.a, act.v, i);
    } else {
      assert CopyAt(rights, w, i);
    }
  }

  lemma ActKeepsBase(rights: Rights, w: World, act: Act)
    requires Base(rights, w) && Can(rights, w, act)
    ensures Base(rights, Do(Addressed, rights, w, act))
  {
    var w' := Do(Addressed, rights, w, act);
    ActKeepsMutex(rights, w, act);
    ActKeepsKeys(rights, w, act);
    forall i | i in w'.nodes
      ensures CopyAt(rights, w', i)
    {
      ActKeepsCopy(rights, w, act, i);
    }
    forall j, i | (j, i) in w'.chan
      ensures LinkAt(rights, w', j, i)
    {
      ActKeepsLink(rights, w, act, j, i);
    }
  }

  lemma ActKeepsKeys(rights: Rights, w: World, act: Act)
    requires Base(rights, w) && Can(rights, w, act)
    ensures var w' := Do(Addressed, rights, w, act);
            && w'.nodes.Keys == w'.copies.Keys == w.nodes.Keys && w'.chan.Keys == w.chan.Keys
            && w'.settled.Keys == w'.ideal.Keys == w.ideal.Keys
  {
    if act.DoRecv? {
      ProjectHas(w);
      assert (act.from, act.to) in Project(w).chan;
    }
  }

  // ---- one byte ----

  /** Byte a once the diffs of q have been written over a copy in which it is v. */
  ghost function Late(q: seq<Item>, a: Addr, v: Byte): Byte {
    if |q| == 0 then v
    else Late(q[1..], a, if q[0].Data? && a in q[0].d then q[0].d[a] else v)
  }

  lemma {:induction false} LateAppend(q: seq<Item>, r: seq<Item>, a: Addr, v: Byte)
    ensures Late(q + r, a, v) == Late(r, a, Late(q, a, v))
    decreases |q|
  {
    if |q| == 0 {
      assert q + r == r;
    } else {
      assert (q + r)[1..] == q[1..] + r;
      LateAppend(q[1..], r, a, if q[0].Data? && a in q[0].d then q[0].d[a] else v);
    }
  }

  lemma {:induction false} LateWithout(q: seq<Item>, a: Addr, v: Byte)
    requires forall k | 0 <= k < |q| && q[k].Data? :: a !in q[k].d
    ensures Late(q, a, v) == v
  {
    if |q| > 0 {
      LateWithout(q[1..], a, v);
    }
  }

  /** Apart from i itself, o is the only node that may store at a. */
  ghost predicate Sole(members: set<PeerId>, rights: Rights, i: PeerId, a: Addr, o: PeerId) {
    o != i && forall k | k in members && k != i && k != o :: (k, a) !in rights
  }

  /** No node hears of byte a from two others. */
  ghost predicate Narrow(members: set<PeerId>, rights: Rights, a: Addr) {
    forall i | i in members :: exists o :: Sole(members, rights, i, a, o)
  }

  ghost function Link(w: World, o: PeerId, i: PeerId): seq<Item> {
    if (o, i) in w.chan then w.chan[(o, i)] else []
  }

  /** What is published of a byte reaches i by way of o. */
  ghost predicate Reaches(w: World, i: PeerId, o: PeerId, a: Addr) {
    && i in w.copies && a in w.copies[i].pub && a in w.settled
    && Late(Link(w, o, i), a, w.copies[i].pub[a]) == w.settled[a]
  }

  ghost predicate Follows(rights: Rights, w: World, a: Addr) {
    && a in w.ideal && a in w.settled
    && (forall i: PeerId, o: PeerId {:trigger Reaches(w, i, o, a)} | i in w.nodes
        && Sole(w.nodes.Keys, rights, i, a, o) :: Reaches(w, i, o, a))
    && (forall h | h in w.nodes && w.nodes[h].inside :: h in w.copies && a in w.copies[h].mem && w.copies[h].mem[a] == w.ideal[a])
    && ((forall h | h in w.nodes :: !w.nodes[h].inside) ==> w.ideal[a] == w.settled[a])
  }

  /** The holder's copy has what was last published, and its published part says so. */
  lemma HolderIsSettled(rights: Rights, w: World, h: PeerId, a: Addr)
    requires Base(rights, w) && Follows(rights, w, a) && Narrow(w.nodes.Keys, rights, a)
    requires h in w.nodes && w.nodes[h].inside
    ensures h in w.copies && a in w.copies[h].pub && w.copies[h].pub[a] == w.settled[a]
  {
    var o: PeerId :| Sole(w.nodes.Keys, rights, h, a, o);
    assert Reaches(w, h, o, a);
    if (o, h) in w.chan {
      HolderHasAll(rights, w, h, o);
    }
    LateWithout(Link(w, o, h), a, w.copies[h].pub[a]);
  }

  lemma HolderIsAlone(rights: Rights, w: World, h: PeerId, k: PeerId)
    requires Base(rights, w) && h in w.nodes && k in w.nodes && h != k && w.nodes[h].inside
    ensures !w.nodes[k].inside
  {
    InvExcludes(Project(w));
  }

  lemma EntererIsSettled(rights: Rights, w: World, x: PeerId, a: Addr)
    requires Base(rights, w) && Follows(rights, w, a) && Narrow(w.nodes.Keys, rights, a) && Can(rights, w, DoEnter(x))
    ensures x in w.copies && a in w.copies[x].mem && w.copies[x].mem[a] == w.settled[a]
  {
    var w' := Do(Addressed, rights, w, DoEnter(x));
    ActKeepsBase(rights, w, DoEnter(x));
    var o: PeerId :| Sole(w.nodes.Keys, rights, x, a, o);
    assert Reaches(w, x, o, a);
    if (o, x) in w'.chan {
      HolderHasAll(rights, w', x, o);
    }
    LateWithout(Link(w, o, x), a, w.copies[x].pub[a]);
    assert CopyAt(rights, w, x);
  }

  lemma EntererIsAlone(rights: Rights, w: World, x: PeerId)
    requires Base(rights, w) && Can(rights, w, DoEnter(x))
    ensures forall h | h in w.nodes && h != x :: !w.nodes[h].inside
  {
    var w' := Do(Addressed, rights, w, DoEnter(x));
    ActKeepsBase(rights, w, DoEnter(x));
    forall h | h in w.nodes && h != x
      ensures !w.nodes[h].inside
    {
      HolderIsAlone(rights, w', x, h);
    }
  }

  /** Whoever enters is alone and has everything: its copy is the ideal memory. */
  lemma EnterFollows(rights: Rights, w: World, x: PeerId, a: Addr)
    requires Base(rights, w) && Follows(rights, w, a) && Narrow(w.nodes.Keys, rights, a) && Can(rights, w, DoEnter(x))
    ensures Follows(rights, Do(Addressed, rights, w, DoEnter(x)), a)
  {
    var w' := Do(Addressed, rights, w, DoEnter(x));
    EntererIsAlone(rights, w, x);
    EntererIsSettled(rights, w, x, a);
    forall i: PeerId, o: PeerId | i in w'.nodes && Sole(w'.nodes.Keys, rights, i, a, o)
      ensures Reaches(w', i, o, a)
    {
      assert Reaches(w, i, o, a);
    }
  }

  lemma StoreFollows(rights: Rights, w: World, x: PeerId, b: Addr, v: Byte, a: Addr)
    requires Base(rights, w) && Follows(rights, w, a) && Can(rights, w, DoStore(x, b, v))
    ensures Follows(rights, Do(Addressed, rights, w, DoStore(x, b, v)), a)
  {
    var w' := Do(Addressed, rights, w, DoStore(x, b, v));
    forall h | h in w.nodes && h != x
      ensures !w.nodes[h].inside
    {
      HolderIsAlone(rights, w, x, h);
    }
    forall i: PeerId, o: PeerId | i in w'.nodes && Sole(w'.nodes.Keys, rights, i, a, o)
      ensures Reaches(w', i, o, a)
    {
      assert Reaches(w, i, o, a);
    }
  }

  /** What a publication makes of the streams: the byte is as the publisher has it. */
  lemma LatePublication(q: seq<Item>, c: Copy, msgs: seq<Msg>, a: Addr, v: Byte)
    requires c.mem.Keys == c.pub.Keys && a in c.mem && (!c.twinned ==> c.mem == c.pub)
    ensures Late(q + Publication(c) + Wrap(msgs), a, v)
         == if c.mem[a] != c.pub[a] then c.mem[a] else Late(q, a, v)
  {
    LateAppend(q + Publication(c), Wrap(msgs), a, v);
    LateAppend(q, Publication(c), a, v);
    LateWithout(Wrap(msgs), a, Late(q + Publication(c), a, v));
    if c.twinned {
      assert Publication(c)[1..] == [];
    }
  }

  lemma LateCtl(q: seq<Item>, msgs: seq<Msg>, a: Addr, v: Byte)
    ensures Late(q + [] + Wrap(msgs), a, v) == Late(q, a, v)
  {
    assert q + [] == q;
    LateAppend(q, Wrap(msgs), a, v);
    LateWithout(Wrap(msgs), a, Late(q, a, v));
  }

  /** What the holder has published of a byte is the ideal memory; its own copy has it. */
  lemma PublishReachesSelf(rights: Rights, w: World, act: Act, o: PeerId, a: Addr)
    requires Base(rights, w) && Follows(rights, w, a) && Can(rights, w, act) && (act.DoTxEnd? || act.DoUnlock?)
    requires w.nodes[act.i].inside && o != act.i
    ensures Reaches(Do(Addressed, rights, w, act), act.i, o, a)
  {
    var h := act.i;
    assert CopyAt(rights, w, h);
    if (o, h) in w.chan {
      HolderHasAll(rights, w, h, o);
    }
    LateWithout(Link(w, o, h), a, w.copies[h].mem[a]);
  }

  /** To a node that hears of the byte from the holder it goes on their channel. */
  lemma PublishReachesOther(rights: Rights, w: World, act: Act, i: PeerId, a: Addr)
    requires Base(rights, w) && Follows(rights, w, a) && Narrow(w.nodes.Keys, rights, a)
    requires Can(rights, w, act) && (act.DoTxEnd? || act.DoUnlock?) && w.nodes[act.i].inside
    requires i in w.nodes && i != act.i && Reaches(w, i, act.i, a)
    ensures Reaches(Do(Addressed, rights, w, act), i, act.i, a)
  {
    var h := act.i;
    assert CopyAt(rights, w, h);
    HolderIsSettled(rights, w, h, a);
    ProjectHas(w);
    assert (h, i) in Project(w).chan;
    var envs := if act.DoTxEnd? then [] else OnUnlock(w.nodes[h]).1;
    LatePublication(w.chan[(h, i)], w.copies[h], Stream(Addressed, envs, i), a, w.copies[i].pub[a]);
  }

  /** What the holder publishes of a byte reaches every other node, and is the ideal memory. */
  lemma PublishReaches(rights: Rights, w: World, act: Act, i: PeerId, o: PeerId, a: Addr)
    requires Base(rights, w) && Follows(rights, w, a) && Narrow(w.nodes.Keys, rights, a)
    requires Can(rights, w, act) && (act.DoTxEnd? || act.DoUnlock?) && w.nodes[act.i].inside
    requires i in w.nodes && Sole(w.nodes.Keys, rights, i, a, o)
    ensures Reaches(Do(Addressed, rights, w, act), i, o, a)
  {
    assert Reaches(w, i, o, a);
    if i == act.i {
      PublishReachesSelf(rights, w, act, o, a);
    } else if o == act.i {
      PublishReachesOther(rights, w, act, i, a);
    } else {
      HolderIsSettled(rights, w, act.i, a);
      assert CopyAt(rights, w, act.i);
    }
  }

  lemma PublishFollows(rights: Rights, w: World, act: Act, a: Addr)
    requires Base(rights, w) && Follows(rights, w, a) && Narrow(w.nodes.Keys, rights, a)
    requires Can(rights, w, act) && (act.DoTxEnd? || act.DoUnlock?) && w.nodes[act.i].inside
    ensures Follows(rights, Do(Addressed, rights, w, act), a)
  {
    var w' := Do(Addressed, rights, w, act);
    forall i: PeerId, o: PeerId | i in w'.nodes && Sole(w'.nodes.Keys, rights, i, a, o)
      ensures Reaches(w', i, o, a)
    {
      PublishReaches(rights, w, act, i, o, a);
    }
    forall k | k in w.nodes && k != act.i
      ensures !w.nodes[k].inside
    {
      HolderIsAlone(rights, w, act.i, k);
    }
  }

  /** A node outside has nothing to publish. */
  lemma IdleTxEndFollows(rights: Rights, w: World, x: PeerId, a: Addr)
    requires Base(rights, w) && Follows(rights, w, a) && Can(rights, w, DoTxEnd(x)) && !w.nodes[x].inside
    ensures Follows(rights, Do(Addressed, rights, w, DoTxEnd(x)), a)
  {
    var w' := Do(Addressed, rights, w, DoTxEnd(x));
    assert CopyAt(rights, w, x);
    forall i: PeerId, o: PeerId | i in w'.nodes && Sole(w'.nodes.Keys, rights, i, a, o)
      ensures Reaches(w', i, o, a)
    {
      assert Reaches(w, i, o, a);
      if (x, i) in w.chan {
        LateCtl(w.chan[(x, i)], [], a, w.copies[i].pub[a]);
        assert Stream(Addressed, [], i) == [];
      }
    }
  }

  /** Nothing is different for byte a on its way from p to i. */
  ghost predicate SameLate(w: World, w': World, p: PeerId, i: PeerId, a: Addr) {
    && i in w.copies && a in w.copies[i].pub
    && Late(Link(w', p, i), a, w.copies[i].pub[a]) == Late(Link(w, p, i), a, w.copies[i].pub[a])
  }

  lemma OnlyLinks(rights: Rights, w: World, w': World, a: Addr)
    requires Follows(rights, w, a) && w'.nodes.Keys == w.nodes.Keys && w'.copies == w.copies
    requires w'.ideal == w.ideal && w'.settled == w.settled && forall i | i in w.nodes :: w'.nodes[i].inside == w.nodes[i].inside
    requires forall p: PeerId, i: PeerId {:trigger SameLate(w, w', p, i, a)} | i in w.nodes
             && Sole(w.nodes.Keys, rights, i, a, p) ::
               SameLate(w, w', p, i, a)
    ensures Follows(rights, w', a)
  {
    forall i: PeerId, p: PeerId | i in w'.nodes && Sole(w'.nodes.Keys, rights, i, a, p)
      ensures Reaches(w', i, p, a)
    {
      assert Reaches(w, i, p, a) && SameLate(w, w', p, i, a);
    }
  }

  lemma LockKeepsLate(rights: Rights, w: World, x: PeerId, p: PeerId, i: PeerId, a: Addr)
    requires Base(rights, w) && Follows(rights, w, a) && Can(rights, w, DoLock(x))
    requires i in w.nodes && Sole(w.nodes.Keys, rights, i, a, p)
    ensures SameLate(w, Do(Addressed, rights, w, DoLock(x)), p, i, a)
  {
    assert Reaches(w, i, p, a);
    var envs := OnLock(w.nodes[x], x, multiset(w.nodes.Keys - {x})).1;
    if (p, i) in w.chan {
      LateCtl(w.chan[(p, i)], Stream(Addressed, envs, i), a, w.copies[i].pub[a]);
    }
  }

  lemma LockFollows(rights: Rights, w: World, x: PeerId, a: Addr)
    requires Base(rights, w) && Follows(rights, w, a) && Can(rights, w, DoLock(x))
    ensures Follows(rights, Do(Addressed, rights, w, DoLock(x)), a)
  {
    var w' := Do(Addressed, rights, w, DoLock(x));
    ProjectHas(w);
    assert NodeAt(Project(w), x);
    forall p: PeerId, i: PeerId | i in w.nodes && Sole(w.nodes.Keys, rights, i, a, p)
      ensures SameLate(w, w', p, i, a)
    {
      LockKeepsLate(rights, w, x, p, i, a);
    }
    OnlyLinks(rights, w, w', a);
  }

  lemma RecvCtlFollows(rights: Rights, w: World, x: PeerId, y: PeerId, a: Addr)
    requires Base(rights, w) && Follows(rights, w, a) && Can(rights, w, DoRecv(x, y)) && w.chan[(x, y)][0].Ctl?
    ensures Follows(rights, Do(Addressed, rights, w, DoRecv(x, y)), a)
  {
    var w' := Do(Addressed, rights, w, DoRecv(x, y));
    ProjectHas(w);
    assert (x, y) in Project(w).chan;
    var envs := OnMessage(w.nodes[y], x, w.chan[(x, y)][0].msg).1;
    forall p: PeerId, i: PeerId | i in w.nodes && Sole(w.nodes.Keys, rights, i, a, p)
      ensures SameLate(w, w', p, i, a)
    {
      assert Reaches(w, i, p, a);
      if (p, i) in w.chan && p == y {
        LateCtl(w.chan[(p, i)], Stream(Addressed, envs, i), a, w.copies[i].pub[a]);
      }
    }
    OnlyLinks(rights, w, w', a);
  }

  lemma RecvDataFollows(rights: Rights, w: World, x: PeerId, y: PeerId, a: Addr)
    requires Base(rights, w) && Follows(rights, w, a) && Can(rights, w, DoRecv(x, y)) && w.chan[(x, y)][0].Data?
    ensures Follows(rights, Do(Addressed, rights, w, DoRecv(x, y)), a)
  {
    var w' := Do(Addressed, rights, w, DoRecv(x, y));
    ProjectHas(w);
    assert (x, y) in Project(w).chan && LinkAt(rights, w, x, y);
    if w.nodes[y].inside {
      HolderHasAll(rights, w, y, x);
    }
    forall i: PeerId, o: PeerId | i in w'.nodes && Sole(w'.nodes.Keys, rights, i, a, o)
      ensures Reaches(w', i, o, a)
    {
      assert Reaches(w, i, o, a);
    }
  }

  /** Every act keeps each node on its way to what was last published of byte a. */
  lemma ActKeepsFollows(rights: Rights, w: World, act: Act, a: Addr)
    requires Base(rights, w) && Follows(rights, w, a) && Narrow(w.nodes.Keys, rights, a) && Can(rights, w, act)
    ensures Follows(rights, Do(Addressed, rights, w, act), a)
  {
    match act {
      case DoLock(x) => LockFollows(rights, w, x, a);
      case DoRecv(x, y) =>
        if w.chan[(x, y)][0].Ctl? {
          RecvCtlFollows(rights, w, x, y, a);
        } else {
          RecvDataFollows(rights, w, x, y, a);
        }
      case DoEnter(x) => EnterFollows(rights, w, x, a);
      case DoStore(x, b, v) => StoreFollows(rights, w, x, b, v, a);
      case DoTxEnd(x) =>
        if w.nodes[x].inside {
          PublishFollows(rights, w, act, a);
        } else {
          IdleTxEndFollows(rights, w, x, a);
        }
      case DoUnlock(x) => PublishFollows(rights, w, act, a);
    }
  }

  // ---- whole runs ----

  lemma {:induction false} PlayKeepsBase(rights: Rights, w: World, acts: seq<Act>)
    requires Base(rights, w) && Play(Addressed, rights, w, acts).Some?
    ensures Base(rights, Play(Addressed, rights, w, acts).value)
    ensures Play(Addressed, rights, w, acts).value.nodes.Keys == w.nodes.Keys
    ensures Play(Addressed, rights, w, acts).value.ideal.Keys == w.ideal.Keys
    decreases |acts|
  {
    if |acts| > 0 {
      ActKeepsBase(rights, w, acts[0]);
      ActKeepsKeys(rights, w, acts[0]);
      PlayKeepsBase(rights, Do(Addressed, rights, w, acts[0]), acts[1..]);
    }
  }

  lemma {:induction false} PlayKeepsFollows(rights: Rights, w: World, acts: seq<Act>, a: Addr)
    requires Base(rights, w) && Follows(rights, w, a) && Narrow(w.nodes.Keys, rights, a)
    requires Play(Addressed, rights, w, acts).Some?
    ensures Follows(rights, Play(Addressed, rights, w, acts).value, a)
    decreases |acts|
  {
    if |acts| > 0 {
      ActKeepsBase(rights, w, acts[0]);
      ActKeepsKeys(rights, w, acts[0]);
      ActKeepsFollows(rights, w, acts[0], a);
      PlayKeepsFollows(rights, Do(Addressed, rights, w, acts[0]), acts[1..], a);
    }
  }

  lemma StartFollows(rights: Rights, members: set<PeerId>, zero: Contents, o: World, a: Addr)
    requires Starting(members, zero, o) && a in zero
    ensures Follows(rights, o, a)
  {
    forall i: PeerId, p: PeerId | i in o.nodes && Sole(o.nodes.Keys, rights, i, a, p)
      ensures Reaches(o, i, p, a)
    {
      assert |Link(o, p, i)| == 0;
    }
  }

  /**
    A publication, at tx_end or unlock, leaves nothing pending, and on each channel what the
    publisher had stored is what a receiver will have in the end.
   */
  lemma PublicationReaches(rights: Rights, w: World, act: Act, k: PeerId, a: Addr, v: Byte)
    requires Base(rights, w) && Can(rights, w, act) && (act.DoTxEnd? || act.DoUnlock?) && (act.i, k) in w.chan && a in w.ideal
    ensures var c, c' := w.copies[act.i], Do(Addressed, rights, w, act).copies[act.i];
            && c' == Copy(c.mem, c.mem, false) && a in c.mem && a in c.pub
            && Late(Do(Addressed, rights, w, act).chan[(act.i, k)], a, v)
               == if c.mem[a] != c.pub[a] then c.mem[a] else Late(w.chan[(act.i, k)], a, v)
  {
    assert CopyAt(rights, w, act.i);
    var envs := if act.DoTxEnd? then [] else OnUnlock(w.nodes[act.i]).1;
    LatePublication(w.chan[(act.i, k)], w.copies[act.i], Stream(Addressed, envs, k), a, v);
  }

  /**
    Publication before grant, for any number of nodes and any run: when a node is in,
    it has handled every diff that any node ever sent it.
   */
  lemma PublicationBeforeGrant(rights: Rights, members: set<PeerId>, zero: Contents, o: World, acts: seq<Act>,
                               w: World, h: PeerId, j: PeerId)
    requires Starting(members, zero, o) && Play(Addressed, rights, o, acts) == Some(w)
    requires h in w.nodes && w.nodes[h].inside && (j, h) in w.chan
    ensures NoData(w.chan[(j, h)])
  {
    StartBase(rights, members, zero, o);
    PlayKeepsBase(rights, o, acts);
    HolderHasAll(rights, w, h, j);
  }

  // ---- what was stored, by the list of acts alone ----

  /** The value of the last store to a, by whichever node, or v if there is none. */
  ghost function LastStore(acts: seq<Act>, a: Addr, v: Byte): Byte {
    if |acts| == 0 then v
    else LastStore(acts[1..], a, if acts[0].DoStore? && acts[0].a == a then acts[0].v else v)
  }

  /** The one memory of the machine is what the stores of the run make of it. */
  lemma {:induction false} IdealIsLastStore(mode: Addressing, rights: Rights, w: World, acts: seq<Act>, a: Addr)
    requires Play(mode, rights, w, acts).Some? && a in w.ideal
    ensures var t := Play(mode, rights, w, acts).value;
            t.ideal.Keys == w.ideal.Keys && t.ideal[a] == LastStore(acts, a, w.ideal[a])
    decreases |acts|
  {
    if |acts| > 0 {
      IdealIsLastStore(mode, rights, Do(mode, rights, w, acts[0]), acts[1..], a);
    }
  }

  lemma {:induction false} IdealKeepsKeys(rights: Rights, w: World, acts: seq<Act>)
    requires Play(Addressed, rights, w, acts).Some?
    ensures Play(Addressed, rights, w, acts).value.ideal.Keys == w.ideal.Keys
    decreases |acts|
  {
    if |acts| > 0 {
      IdealKeepsKeys(rights, Do(Addressed, rights, w, acts[0]), acts[1..]);
    }
  }

  /** The mutex is as free to move as it is without the memory, and publishing is never refused. */
  lemma NothingIsRefused(rights: Rights, w: World, i: PeerId)
    requires Base(rights, w) && i in w.nodes
    ensures Can(rights, w, DoLock(i)) <==> w.nodes[i].request.None?
    ensures Can(rights, w, DoEnter(i)) <==> CanEnter(w.nodes[i])
    ensures Can(rights, w, DoUnlock(i)) <==> w.nodes[i].inside
    ensures Can(rights, w, DoTxEnd(i))
    ensures forall j: PeerId | (j, i) in w.chan :: Can(rights, w, DoRecv(j, i)) <==> w.chan[(j, i)] != []
  {
    assert CopyAt(rights, w, i);
  }

  /** In any run a node that is in may store any value in any byte it has the right to. */
  lemma HolderMayStore(rights: Rights, members: set<PeerId>, zero: Contents, o: World, acts: seq<Act>, w: World,
                       h: PeerId, a: Addr, v: Byte)
    requires Starting(members, zero, o) && Play(Addressed, rights, o, acts) == Some(w)
    requires h in w.nodes && w.nodes[h].inside && a in zero && (h, a) in rights
    ensures Can(rights, w, DoStore(h, a, v))
  {
    StartBase(rights, members, zero, o);
    PlayKeepsBase(rights, o, acts);
    IdealIsLastStore(Addressed, rights, o, acts, a);
    assert CopyAt(rights, w, h);
  }

  lemma HolderReadsIdeal(rights: Rights, members: set<PeerId>, zero: Contents, o: World, acts: seq<Act>, w: World,
                         h: PeerId, a: Addr)
    requires Starting(members, zero, o) && Play(Addressed, rights, o, acts) == Some(w)
    requires h in w.nodes && w.nodes[h].inside
    requires a in zero && Narrow(members, rights, a)
    ensures h in w.copies && a in w.copies[h].mem && a in w.ideal && w.copies[h].mem[a] == w.ideal[a]
  {
    StartBase(rights, members, zero, o);
    StartFollows(rights, members, zero, o, a);
    PlayKeepsFollows(rights, o, acts, a);
  }

  /**
    Sequential consistency of byte a, in any run: when a node is in, its copy has there
    what the last store of the run put there, whoever made it.
   */
  lemma HolderReadsLastStore(rights: Rights, members: set<PeerId>, zero: Contents, o: World, acts: seq<Act>, w: World,
                         h: PeerId, a: Addr)
    requires Starting(members, zero, o) && Play(Addressed, rights, o, acts) == Some(w)
    requires h in w.nodes && w.nodes[h].inside
    requires a in zero && Narrow(members, rights, a)
    ensures h in w.copies && a in w.copies[h].mem && w.copies[h].mem[a] == LastStore(acts, a, zero[a])
  {
    HolderReadsIdeal(rights, members, zero, o, acts, w, h, a);
    IdealIsLastStore(Addressed, rights, o, acts, a);
  }

  lemma TwoAreNarrow(members: set<PeerId>, rights: Rights, a: Addr)
    requires |members| <= 2
    ensures Narrow(members, rights, a)
  {
    forall i | i in members
      ensures exists o: PeerId :: Sole(members, rights, i, a, o)
    {
      var rest := members - {i};
      var o: PeerId := if rest == {} then i + 1 else OneOf(rest);
      forall k | k in members && k != i
        ensures k == o
      {
        assert k in rest && o in rest && |rest - {o}| == 0;
      }
      assert Sole(members, rights, i, a, o);
    }
  }

  ghost function OneOf(s: set<PeerId>): (o: PeerId)
    requires s != {}
    ensures o in s
  {
    var o: PeerId :| o in s;
    o
  }

  // ---- two nodes, as the code sends ----

  lemma SameEmit(chan: map<Channel, seq<Item>>, i: PeerId, first: seq<Item>, envs: seq<Envelope>)
    requires forall c | c in chan && c.0 == i :: Stream(AsWritten, envs, c.1) == Stream(Addressed, envs, c.1)
    ensures Emit(AsWritten, chan, i, first, envs) == Emit(Addressed, chan, i, first, envs)
  {
  }

  /** With two nodes a step's messages are the same whichever way replies are sent. */
  lemma TwoNodesSameStreams(rights: Rights, w: World, act: Act)
    requires Base(rights, w) && |w.nodes.Keys| <= 2 && Can(rights, w, act) && !Silent(w, act)
    ensures MutexNetwork.Enabled(Project(w), MutexStep(act))
    ensures forall c | c in w.chan && c.0 == Actor(MutexStep(act)) ::
              Stream(AsWritten, Output(Project(w), MutexStep(act)), c.1)
                  == Stream(Addressed, Output(Project(w), MutexStep(act)), c.1)
  {
    Projects(Addressed, rights, w, act);
    ProjectHas(w);
    var s, step := Project(w), MutexStep(act);
    forall c | c in w.chan && c.0 == Actor(step)
      ensures Stream(AsWritten, Output(s, step), c.1) == Stream(Addressed, Output(s, step), c.1)
    {
      assert c == (Actor(step), c.1);
      TwoNodesSameStream(s, step, c.1);
    }
  }

  /** With two nodes every act has the same outcome whichever way replies are sent. */
  lemma TwoNodesSameDo(rights: Rights, w: World, act: Act)
    requires Base(rights, w) && |w.nodes.Keys| <= 2 && Can(rights, w, act)
    ensures Do(AsWritten, rights, w, act) == Do(Addressed, rights, w, act)
  {
    match act {
      case DoLock(x) =>
        TwoNodesSameStreams(rights, w, act);
        SameEmit(w.chan, x, [], OnLock(w.nodes[x], x, multiset(w.nodes.Keys - {x})).1);
      case DoRecv(x, y) =>
        if w.chan[(x, y)][0].Ctl? {
          TwoNodesSameRecv(rights, w, x, y);
        }
      case DoUnlock(x) =>
        TwoNodesSameStreams(rights, w, act);
        SameEmit(w.chan, x, Publication(w.copies[x]), OnUnlock(w.nodes[x]).1);
      case DoTxEnd(x) =>
        SameEmit(w.chan, x, Publication(w.copies[x]), []);
      case _ =>
    }
  }

  lemma TwoNodesSameRecv(rights: Rights, w: World, x: PeerId, y: PeerId)
    requires Base(rights, w) && |w.nodes.Keys| <= 2 && Can(rights, w, DoRecv(x, y)) && w.chan[(x, y)][0].Ctl?
    ensures Do(AsWritten, rights, w, DoRecv(x, y)) == Do(Addressed, rights, w, DoRecv(x, y))
  {
    TwoNodesSameStreams(rights, w, DoRecv(x, y));
    var q := w.chan[(x, y)];
    PopCtl(q);
    ProjectHas(w);
    assert Project(w).chan[(x, y)][0] == q[0].msg;
    SameEmit(w.chan[(x, y) := q[1..]], y, [], OnMessage(w.nodes[y], x, q[0].msg).1);
  }

  lemma TwoNodesSameStream(s: State, step: Step, k: PeerId)
    requires MutexSafety.Inv(s) && MutexNetwork.Enabled(s, step) && |s.nodes.Keys| <= 2
    requires (Actor(step), k) in s.chan
    ensures Stream(AsWritten, Output(s, step), k) == Stream(Addressed, Output(s, step), k)
  {
    var x := Actor(step);
    assert s.nodes.Keys == {x, k} by {
      assert {x, k} <= s.nodes.Keys;
      assert |s.nodes.Keys - {x, k}| == |s.nodes.Keys| - |{x, k}|;
    }
    OutputOfTwo(s, step, k);
    SameStream(Output(s, step), k);
  }

  lemma {:induction false} TwoNodesSamePlay(rights: Rights, w: World, acts: seq<Act>)
    requires Base(rights, w) && |w.nodes.Keys| <= 2
    ensures Play(AsWritten, rights, w, acts) == Play(Addressed, rights, w, acts)
    decreases |acts|
  {
    if |acts| > 0 && Can(rights, w, acts[0]) {
      TwoNodesSameDo(rights, w, acts[0]);
      ActKeepsBase(rights, w, acts[0]);
      ActKeepsKeys(rights, w, acts[0]);
      TwoNodesSamePlay(rights, Do(Addressed, rights, w, acts[0]), acts[1..]);
    }
  }

  /**
    Two nodes and the code as written: in every run, when a node is in, its whole copy
    has what the last store of the run to each byte put there, whoever made it.
   */
  lemma TwoNodesSequentiallyConsistent(rights: Rights, members: set<PeerId>, zero: Contents, o: World, acts: seq<Act>,
                                       w: World, h: PeerId)
    requires Starting(members, zero, o) && |members| <= 2 && Play(AsWritten, rights, o, acts) == Some(w)
    requires h in w.nodes && w.nodes[h].inside
    ensures h in w.copies && w.copies[h].mem.Keys == zero.Keys
    ensures forall a | a in zero :: w.copies[h].mem[a] == LastStore(acts, a, zero[a])
  {
    StartBase(rights, members, zero, o);
    TwoNodesSamePlay(rights, o, acts);
    PlayKeepsBase(rights, o, acts);
    assert CopyAt(rights, w, h);
    IdealKeepsKeys(rights, o, acts);
    forall a | a in zero
      ensures a in w.copies[h].mem && w.copies[h].mem[a] == LastStore(acts, a, zero[a])
    {
      TwoAreNarrow(members, rights, a);
      HolderReadsLastStore(rights, members, zero, o, acts, w, h, a);
    }
  }
}
