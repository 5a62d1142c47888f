/**
  Where lock-protected memory stops being one memory. Diffs of different nodes travel on
  different channels and are not put in order on arrival, although they carry a timestamp
  (src/memory/memory_dobj.c:36-38): a node that hears of a byte from two others can be
  given their diffs in the wrong order before it enters.
 */
module ReleaseLimits {
  import opened Options
  import opened Bytes
  import opened Addresses
  import opened MutexNode
  import opened MutexNetwork
  import opened Release
  import opened ReleaseConsistency

  // ---- reaching worlds act by act ----

  ghost predicate Leads(rights: Rights, o: World, w: World) {
    exists acts :: Play(Addressed, rights, o, acts) == Some(w)
  }

  lemma {:induction false} PlayThenAct(rights: Rights, w: World, acts: seq<Act>, act: Act)
    requires var m := Play(Addressed, rights, w, acts); m.Some? && Can(rights, m.value, act)
    ensures Play(Addressed, rights, w, acts + [act]) == Some(Do(Addressed, rights, Play(Addressed, rights, w, acts).value, act))
    decreases |acts|
  {
    if |acts| == 0 {
      assert (acts + [act])[1..] == [];
    } else {
      assert (acts + [act])[1..] == acts[1..] + [act];
      PlayThenAct(rights, Do(Addressed, rights, w, acts[0]), acts[1..], act);
    }
  }

  /** A set of worlds that no act leads out of. */
  ghost predicate Closed(rights: Rights, r: iset<World>) {
    forall w, act {:trigger Do(Addressed, rights, w, act)} | w in r && Can(rights, w, act) :: Do(Addressed, rights, w, act) in r
  }

  lemma ReachedIsClosed(rights: Rights, o: World)
    ensures var r := iset w | Leads(rights, o, w); o in r && Closed(rights, r)
  {
    var r := iset w | Leads(rights, o, w);
    assert Play(Addressed, rights, o, []) == Some(o);
    forall w, act | w in r && Can(rights, w, act)
      ensures Do(Addressed, rights, w, act) in r
    {
      var acts :| Play(Addressed, rights, o, acts) == Some(w);
      PlayThenAct(rights, o, acts, act);
    }
  }

  // ---- one node takes the lock while nobody else wants it ----

  ghost predicate AllData(q: seq<Item>) {
    forall k | 0 <= k < |q| :: q[k].Data?
  }

  /** Nothing pending, in a copy of which a is a byte. */
  ghost predicate Clean(c: Copy, a: Addr) {
    !c.twinned && c.mem == c.pub && a in c.mem
  }

  ghost predicate Unasked(n: MutexNode.Node) {
    n.request.None? && !n.inside && n.deferred == []
  }

  ghost predicate UnaskedAt(w: World, i: PeerId) {
    i in w.nodes && Unasked(w.nodes[i])
  }

  ghost predicate CleanAt(w: World, a: Addr, i: PeerId) {
    i in w.copies && Clean(w.copies[i], a)
  }

  ghost predicate DataAt(w: World, z: Channel) {
    z in w.chan && AllData(w.chan[z])
  }

  /** Apart from x, nobody wants the lock, and what they have sent is diffs. */
  ghost predicate Calm(w: World, a: Addr, x: set<PeerId>) {
    && Shaped(w) && a in w.ideal
    && (forall i {:trigger UnaskedAt(w, i)} | i in w.nodes && i !in x :: UnaskedAt(w, i))
    && (forall i {:trigger CleanAt(w, a, i)} | i in w.copies :: CleanAt(w, a, i))
    && (forall z {:trigger DataAt(w, z)} | z in w.chan && z.0 !in x :: DataAt(w, z))
  }

  ghost predicate OneRequest(q: seq<Item>) {
    |q| == 1 && q[0].Ctl? && q[0].msg.Req?
  }

  ghost predicate Asker(n: MutexNode.Node, todo: set<PeerId>) {
    n.request.Some? && !n.inside && n.deferred == [] && n.waitOn == multiset(todo)
  }

  ghost predicate OutAt(w: World, todo: set<PeerId>, z: Channel) {
    z in w.chan && if z.1 in todo then OneRequest(w.chan[z]) else w.chan[z] == []
  }

  /** What x has sent has been taken, but for its request to the nodes of todo. */
  ghost predicate OutLinks(w: World, x: PeerId, todo: set<PeerId>) {
    forall z {:trigger OutAt(w, todo, z)} | z in w.chan && z.0 == x :: OutAt(w, todo, z)
  }

  /** x has asked; the nodes of todo have yet to get its request, and the others have answered. */
  ghost predicate Asking(w: World, x: PeerId, todo: set<PeerId>, a: Addr) {
    && Calm(w, a, {x}) && x in w.nodes && todo <= w.nodes.Keys - {x} && Asker(w.nodes[x], todo) && OutLinks(w, x, todo)
  }

  ghost predicate FlowAt(w: World, t: World, x: PeerId, from: set<PeerId>, z: Channel) {
    z in w.chan && z in t.chan && t.chan[z] == if z.1 == x && z.0 in from then [] else w.chan[z]
  }

  ghost predicate SameCopy(w: World, t: World, i: PeerId) {
    i in w.copies && i in t.copies && t.copies[i] == w.copies[i]
  }

  /** From w to t, x has changed its copy and taken what the given nodes had sent it. */
  ghost predicate Flows(w: World, t: World, x: PeerId, from: set<PeerId>) {
    && t.nodes.Keys == w.nodes.Keys && t.chan.Keys == w.chan.Keys && t.copies.Keys == w.copies.Keys && t.ideal == w.ideal
    && (forall i {:trigger SameCopy(w, t, i)} | i in w.copies && i != x :: SameCopy(w, t, i))
    && (forall z {:trigger FlowAt(w, t, x, from, z)} | z in w.chan && z.0 != x :: FlowAt(w, t, x, from, z))
  }

  lemma SameShape(w: World, t: World)
    requires Shaped(w) && t.nodes.Keys == w.nodes.Keys && t.copies.Keys == w.copies.Keys && t.chan.Keys == w.chan.Keys
    ensures Shaped(t)
  {
    forall i, j
      ensures (i, j) in t.chan <==> i in t.nodes && j in t.nodes && i != j
    {
      assert (i, j) in t.chan <==> (i, j) in w.chan;
    }
  }

  lemma AskEffect(rights: Rights, w: World, x: PeerId) returns (t: World)
    requires Shaped(w) && x in w.nodes && Unasked(w.nodes[x]) && OutLinks(w, x, {})
    ensures Can(rights, w, DoLock(x)) && t == Do(Addressed, rights, w, DoLock(x))
    ensures t.copies == w.copies && t.ideal == w.ideal && t.chan.Keys == w.chan.Keys
    ensures t.nodes == w.nodes[x := OnLock(w.nodes[x], x, multiset(w.nodes.Keys - {x})).0]
    ensures forall z | z in w.chan && z.0 != x :: t.chan[z] == w.chan[z]
    ensures forall z | z in w.chan && z.0 == x :: OneRequest(t.chan[z])
  {
    t := Do(Addressed, rights, w, DoLock(x));
    var e := Envelope(Everyone, Req(w.nodes[x].time + 1));
    forall z | z in w.chan && z.0 == x
      ensures OneRequest(t.chan[z])
    {
      assert OutAt(w, {}, z);
      MutexSafety.StreamOfOne(Addressed, e, z.1);
      assert Stream(Addressed, [e], z.1) == [e.msg];
    }
  }

  lemma Ask(rights: Rights, r: iset<World>, w: World, x: PeerId, a: Addr) returns (t: World)
    requires Closed(rights, r) && w in r && Calm(w, a, {}) && x in w.nodes && OutLinks(w, x, {})
    ensures t in r && Asking(t, x, w.nodes.Keys - {x}, a) && Flows(w, t, x, {}) && t.copies == w.copies
  {
    assert UnaskedAt(w, x);
    t := AskEffect(rights, w, x);
    Asked(w, t, x, a);
  }

  lemma Asked(w: World, t: World, x: PeerId, a: Addr)
    requires Calm(w, a, {}) && x in w.nodes && t.copies == w.copies && t.ideal == w.ideal && t.chan.Keys == w.chan.Keys
    requires UnaskedAt(w, x) && t.nodes == w.nodes[x := OnLock(w.nodes[x], x, multiset(w.nodes.Keys - {x})).0]
    requires forall z | z in w.chan && z.0 != x :: t.chan[z] == w.chan[z]
    requires forall z | z in w.chan && z.0 == x :: OneRequest(t.chan[z])
    ensures Asking(t, x, w.nodes.Keys - {x}, a) && Flows(w, t, x, {})
  {
    var others := w.nodes.Keys - {x};
    assert t.nodes.Keys == w.nodes.Keys;
    forall i | i in t.nodes && i != x
      ensures UnaskedAt(t, i)
    {
      assert UnaskedAt(w, i);
    }
    forall i | i in t.copies
      ensures CleanAt(t, a, i) && SameCopy(w, t, i)
    {
      assert CleanAt(w, a, i);
    }
    forall z | z in t.chan
      ensures if z.0 == x then OutAt(t, others, z) else DataAt(t, z) && FlowAt(w, t, x, {}, z)
    {
      assert (z.0, z.1) in w.chan && (z.0 != x ==> DataAt(w, z));
    }
    SameShape(w, t);
  }

  /** c takes the request and answers, behind whatever it had sent x. */
  lemma TakeRequest(rights: Rights, r: iset<World>, w: World, x: PeerId, c: PeerId) returns (t: World, m: Msg)
    requires Closed(rights, r) && w in r && Shaped(w) && (x, c) in w.chan && (c, x) in w.chan
    requires OneRequest(w.chan[(x, c)]) && Unasked(w.nodes[c])
    ensures t in r && m.Rep? && t.copies == w.copies && t.ideal == w.ideal
    ensures t.nodes == w.nodes[c := w.nodes[c].(time := m.time)]
    ensures t.chan == w.chan[(x, c) := []][(c, x) := w.chan[(c, x)] + [Ctl(m)]]
  {
    t := Do(Addressed, rights, w, DoRecv(x, c));
    var req := w.chan[(x, c)][0].msg;
    var rep := OnMessage(w.nodes[c], x, req).1[0];
    m := rep.msg;
    var expected := w.chan[(x, c) := []][(c, x) := w.chan[(c, x)] + [Ctl(m)]];
    forall z | z in w.chan
      ensures t.chan[z] == expected[z]
    {
      MutexSafety.StreamOfOne(Addressed, rep, z.1);
    }
    assert t.chan == expected;
  }

  /** What a copy is once the diffs of q have been written to it. */
  ghost function After(c: Copy, q: seq<Item>): Copy
    requires AllData(q)
    decreases |q|
  {
    if |q| == 0 then c else After(c.(mem := c.mem + q[0].d, pub := c.pub + q[0].d), q[1..])
  }

  lemma {:induction false} AfterIsLate(c: Copy, q: seq<Item>, a: Addr)
    requires AllData(q) && Clean(c, a)
    ensures Clean(After(c, q), a) && After(c, q).mem[a] == Late(q, a, c.mem[a])
    decreases |q|
  {
    if |q| > 0 {
      var d := q[0].d;
      AfterIsLate(c.(mem := c.mem + d, pub := c.pub + d), q[1..], a);
    }
  }

  /** x takes the diffs of c and the answer behind them. */
  lemma {:induction false} TakeAll(rights: Rights, r: iset<World>, w: World, x: PeerId, c: PeerId, q: seq<Item>, m: Msg)
    returns (t: World)
    requires Closed(rights, r) && w in r && x in w.nodes && x in w.copies && (c, x) in w.chan
    requires AllData(q) && m.Rep? && w.chan[(c, x)] == q + [Ctl(m)]
    ensures t in r && t.ideal == w.ideal
    ensures t.chan == w.chan[(c, x) := []]
    ensures t.copies == w.copies[x := After(w.copies[x], q)]
    ensures x in t.nodes
    ensures t.nodes == w.nodes[x := w.nodes[x].(time := t.nodes[x].time, waitOn := w.nodes[x].waitOn - multiset{c})]
    decreases |q|
  {
    var s := Do(Addressed, rights, w, DoRecv(c, x));
    if |q| == 0 {
      forall z | z in s.chan
        ensures s.chan[z] == w.chan[(c, x) := []][z]
      {
        assert Stream(Addressed, [], z.1) == [];
      }
      assert s.chan == w.chan[(c, x) := []];
      t := s;
    } else {
      assert s.chan[(c, x)] == q[1..] + [Ctl(m)];
      t := TakeAll(rights, r, s, x, c, q[1..], m);
    }
  }

  /** What one answer changes. */
  lemma OneAnswered(w: World, t: World, x: PeerId, c: PeerId, todo: set<PeerId>, a: Addr, p: nat, q: nat, copy: Copy)
    requires Asking(w, x, todo, a) && c in todo && Clean(copy, a) && t.ideal == w.ideal
    requires t.nodes == w.nodes[c := w.nodes[c].(time := p)]
                               [x := w.nodes[x].(time := q, waitOn := w.nodes[x].waitOn - multiset{c})]
    requires t.chan == w.chan[(x, c) := []][(c, x) := []] && t.copies == w.copies[x := copy]
    ensures Asking(t, x, todo - {c}, a) && Flows(w, t, x, {c})
  {
    assert multiset(todo) - multiset{c} == multiset(todo - {c});
    assert (x, c) in w.chan && (c, x) in w.chan;
    assert t.nodes.Keys == w.nodes.Keys && t.chan.Keys == w.chan.Keys && t.copies.Keys == w.copies.Keys;
    forall i | i in t.nodes && i != x
      ensures UnaskedAt(t, i)
    {
      assert UnaskedAt(w, i);
    }
    OneTaken(w, t, x, c, todo, a);
    OneClean(w, t, x, a, copy);
    SameShape(w, t);
  }

  lemma OneTaken(w: World, t: World, x: PeerId, c: PeerId, todo: set<PeerId>, a: Addr)
    requires Calm(w, a, {x}) && OutLinks(w, x, todo)
    requires (x, c) in w.chan && (c, x) in w.chan && t.chan == w.chan[(x, c) := []][(c, x) := []]
    ensures forall z | z in t.chan :: if z.0 == x then OutAt(t, todo - {c}, z) else DataAt(t, z) && FlowAt(w, t, x, {c}, z)
  {
    forall z | z in t.chan
      ensures if z.0 == x then OutAt(t, todo - {c}, z) else DataAt(t, z) && FlowAt(w, t, x, {c}, z)
    {
      assert if z.0 == x then OutAt(w, todo, z) else DataAt(w, z);
    }
  }

  lemma OneClean(w: World, t: World, x: PeerId, a: Addr, copy: Copy)
    requires Calm(w, a, {x}) && Clean(copy, a) && t.copies == w.copies[x := copy]
    ensures forall i | i in t.copies :: CleanAt(t, a, i) && (i != x ==> SameCopy(w, t, i))
  {
    forall i | i in t.copies
      ensures CleanAt(t, a, i) && (i != x ==> SameCopy(w, t, i))
    {
      assert i != x ==> CleanAt(w, a, i);
    }
  }

  /** x gets one more answer, and with it all that c had sent it. */
  lemma AnswerOne(rights: Rights, r: iset<World>, w: World, x: PeerId, c: PeerId, todo: set<PeerId>, a: Addr) returns (t: World)
    requires Closed(rights, r) && w in r && Asking(w, x, todo, a) && c in todo
    ensures t in r && Asking(t, x, todo - {c}, a) && Flows(w, t, x, {c})
    ensures (c, x) in w.chan && x in w.copies && CleanAt(w, a, x) && CleanAt(t, a, x)
    ensures t.copies[x].mem[a] == Late(w.chan[(c, x)], a, w.copies[x].mem[a])
  {
    assert (x, c) in w.chan && (c, x) in w.chan;
    assert OutAt(w, todo, (x, c)) && UnaskedAt(w, c) && DataAt(w, (c, x)) && CleanAt(w, a, x);
    var s, m := TakeRequest(rights, r, w, x, c);
    var q := w.chan[(c, x)];
    t := TakeAll(rights, r, s, x, c, q, m);
    AfterIsLate(w.copies[x], q, a);
    assert t.chan == w.chan[(x, c) := []][(c, x) := []];
    OneAnswered(w, t, x, c, todo, a, m.time, t.nodes[x].time, After(w.copies[x], q));
  }

  lemma FlowsBoth(w: World, s: World, t: World, x: PeerId, c: PeerId, from: set<PeerId>)
    requires Flows(w, s, x, {c}) && Flows(s, t, x, from)
    ensures Flows(w, t, x, from + {c})
  {
    forall i | i in w.copies && i != x
      ensures SameCopy(w, t, i)
    {
      assert SameCopy(w, s, i) && SameCopy(s, t, i);
    }
    forall z | z in w.chan && z.0 != x
      ensures FlowAt(w, t, x, from + {c}, z)
    {
      assert FlowAt(w, s, x, {c}, z) && FlowAt(s, t, x, from, z);
    }
  }

  ghost predicate EmptyAt(w: World, z: Channel) {
    z in w.chan && w.chan[z] == []
  }

  /** Of the nodes of from only d has anything on its way to x. */
  ghost predicate OnlyFrom(w: World, x: PeerId, from: set<PeerId>, d: PeerId) {
    forall c {:trigger EmptyAt(w, (c, x))} | c in from && c != d :: EmptyAt(w, (c, x))
  }

  /** x gets all answers, where d alone has diffs for it. */
  lemma {:induction false} AnswerAll(rights: Rights, r: iset<World>, w: World, x: PeerId, todo: set<PeerId>, d: PeerId, a: Addr)
    returns (t: World)
    requires Closed(rights, r) && w in r && Asking(w, x, todo, a) && OnlyFrom(w, x, todo, d)
    ensures t in r && Asking(t, x, {}, a) && Flows(w, t, x, todo)
    ensures d in todo ==> (d, x) in w.chan
    ensures CleanAt(w, a, x) && CleanAt(t, a, x)
    ensures t.copies[x].mem[a] == if d in todo then Late(w.chan[(d, x)], a, w.copies[x].mem[a]) else w.copies[x].mem[a]
    decreases todo
  {
    if todo == {} {
      t := w;
      assert x in w.copies && CleanAt(w, a, x);
      NothingFlows(w, x);
    } else {
      var c: PeerId :| c in todo;
      var s := AnswerOne(rights, r, w, x, c, todo, a);
      StillOnlyFrom(w, s, x, c, todo, d, a);
      t := AnswerAll(rights, r, s, x, todo - {c}, d, a);
      FlowsBoth(w, s, t, x, c, todo - {c});
      assert todo - {c} + {c} == todo;
      assert c != d ==> EmptyAt(w, (c, x));
    }
  }

  lemma NothingFlows(w: World, x: PeerId)
    ensures Flows(w, w, x, {})
  {
    assert forall i | i in w.copies :: SameCopy(w, w, i);
    assert forall z | z in w.chan :: FlowAt(w, w, x, {}, z);
  }

  lemma StillOnlyFrom(w: World, s: World, x: PeerId, c: PeerId, todo: set<PeerId>, d: PeerId, a: Addr)
    requires Asking(w, x, todo, a) && OnlyFrom(w, x, todo, d) && Flows(w, s, x, {c}) && c in todo
    ensures OnlyFrom(s, x, todo - {c}, d)
    ensures d in todo && d != c ==> (d, x) in w.chan && (d, x) in s.chan && s.chan[(d, x)] == w.chan[(d, x)]
  {
    forall b | b in todo - {c} && b != d
      ensures EmptyAt(s, (b, x))
    {
      assert EmptyAt(w, (b, x)) && FlowAt(w, s, x, {c}, (b, x));
    }
    if d in todo && d != c {
      assert (d, x) in w.chan && FlowAt(w, s, x, {c}, (d, x));
    }
  }

  lemma EntersAndStores(rights: Rights, r: iset<World>, w: World, x: PeerId, a: Addr, v: Byte) returns (t: World)
    requires Closed(rights, r) && w in r && Asking(w, x, {}, a) && (x, a) in rights && CleanAt(w, a, x) && w.copies[x].mem[a] != v
    ensures t in r && t.chan == w.chan && t.ideal == w.ideal[a := v]
    ensures t.nodes == w.nodes[x := w.nodes[x].(inside := true)]
    ensures t.copies == w.copies[x := Copy(w.copies[x].mem[a := v], w.copies[x].mem, true)]
    ensures Publication(t.copies[x]) == [Data(map[a := v])]
  {
    var s := Do(Addressed, rights, w, DoEnter(x));
    t := Do(Addressed, rights, s, DoStore(x, a, v));
    var c := t.copies[x];
    assert Delta(c.pub, c.mem) == map[a := v];
  }

  ghost predicate SentAt(w: World, t: World, x: PeerId, a: Addr, v: Byte, z: Channel) {
    z in w.chan && z in t.chan && t.chan[z] == if z.0 == x then [Data(map[a := v])] else w.chan[z]
  }

  /** Every other node has the diff [a := v] of x to come, and nothing else is new. */
  ghost predicate Sent(w: World, t: World, x: PeerId, a: Addr, v: Byte) {
    && t.nodes.Keys == w.nodes.Keys && t.chan.Keys == w.chan.Keys && t.copies.Keys == w.copies.Keys
    && (forall i {:trigger SameCopy(w, t, i)} | i in w.copies && i != x :: SameCopy(w, t, i))
    && (forall z {:trigger SentAt(w, t, x, a, v, z)} | z in w.chan :: SentAt(w, t, x, a, v, z))
  }

  lemma Leaves(rights: Rights, w: World, x: PeerId, a: Addr, v: Byte) returns (t: World)
    requires Shaped(w) && x in w.nodes && w.nodes[x].inside && w.nodes[x].deferred == [] && OutLinks(w, x, {})
    requires Publication(w.copies[x]) == [Data(map[a := v])]
    ensures Can(rights, w, DoUnlock(x)) && t == Do(Addressed, rights, w, DoUnlock(x))
    ensures t.ideal == w.ideal && t.copies == w.copies[x := Copy(w.copies[x].mem, w.copies[x].mem, false)]
    ensures t.nodes == w.nodes[x := w.nodes[x].(request := None, inside := false)]
    ensures Sent(w, t, x, a, v)
  {
    t := Do(Addressed, rights, w, DoUnlock(x));
    forall z | z in w.chan
      ensures SentAt(w, t, x, a, v, z)
    {
      assert Stream(Addressed, [], z.1) == [];
      assert z.0 == x ==> OutAt(w, {}, z);
    }
    assert forall i | i in w.copies && i != x :: SameCopy(w, t, i);
  }

  /** x enters, stores v at a, and unlocks: the others have a diff of this byte to come. */
  lemma StoreAndUnlock(rights: Rights, r: iset<World>, w: World, x: PeerId, a: Addr, v: Byte) returns (t: World)
    requires Closed(rights, r) && w in r && Asking(w, x, {}, a) && (x, a) in rights && CleanAt(w, a, x) && w.copies[x].mem[a] != v
    ensures t in r && Calm(t, a, {}) && Sent(w, t, x, a, v) && t.ideal == w.ideal[a := v]
  {
    var s := EntersAndStores(rights, r, w, x, a, v);
    assert OutLinks(s, x, {}) by {
      forall z | z in s.chan && z.0 == x
        ensures OutAt(s, {}, z)
      {
        assert OutAt(w, {}, z);
      }
    }
    t := Leaves(rights, s, x, a, v);
    CalmAgain(w, s, t, x, a, v);
  }

  lemma CalmAgain(w: World, s: World, t: World, x: PeerId, a: Addr, v: Byte)
    requires Asking(w, x, {}, a) && CleanAt(w, a, x) && s.chan == w.chan && a in t.ideal && Sent(s, t, x, a, v)
    requires t.nodes == w.nodes[x := w.nodes[x].(request := None, inside := false)]
    requires s.copies == w.copies[x := Copy(w.copies[x].mem[a := v], w.copies[x].mem, true)]
    requires t.copies == w.copies[x := Copy(w.copies[x].mem[a := v], w.copies[x].mem[a := v], false)]
    ensures Calm(t, a, {}) && Sent(w, t, x, a, v)
  {
    forall i | i in t.nodes
      ensures UnaskedAt(t, i)
    {
      assert i != x ==> UnaskedAt(w, i);
    }
    assert x in w.copies;
    OneClean(w, t, x, a, t.copies[x]);
    SentOn(w, s, t, x, a, v);
    assert t.nodes.Keys == w.nodes.Keys && t.copies.Keys == w.copies.Keys;
    SameShape(w, t);
  }

  lemma SentOn(w: World, s: World, t: World, x: PeerId, a: Addr, v: Byte)
    requires Calm(w, a, {x}) && s.chan == w.chan && Sent(s, t, x, a, v)
    ensures forall z | z in t.chan :: DataAt(t, z) && SentAt(w, t, x, a, v, z)
  {
    forall z | z in t.chan
      ensures DataAt(t, z) && SentAt(w, t, x, a, v, z)
    {
      assert SentAt(s, t, x, a, v, z) && (z.0 != x ==> DataAt(w, z));
    }
  }

  // ---- the bad run ----

  ghost predicate TurnAt(w: World, t: World, x: PeerId, a: Addr, v: Byte, z: Channel) {
    z in w.chan && z in t.chan
    && t.chan[z] == if z.0 == x then [Data(map[a := v])] else if z.1 == x then [] else w.chan[z]
  }

  /** What x has done by a turn with the lock in which it stored v at a. */
  ghost predicate HadTurn(w: World, t: World, x: PeerId, a: Addr, v: Byte) {
    && t.nodes.Keys == w.nodes.Keys && t.chan.Keys == w.chan.Keys && t.copies.Keys == w.copies.Keys && t.ideal == w.ideal[a := v]
    && (forall i {:trigger SameCopy(w, t, i)} | i in w.copies && i != x :: SameCopy(w, t, i))
    && (forall z {:trigger TurnAt(w, t, x, a, v, z)} | z in w.chan :: TurnAt(w, t, x, a, v, z))
  }

  lemma TurnOf(w: World, s1: World, s2: World, t: World, x: PeerId, a: Addr, v: Byte)
    requires Shaped(w) && Flows(w, s1, x, {}) && Flows(s1, s2, x, w.nodes.Keys - {x}) && Sent(s2, t, x, a, v)
             && t.ideal == s2.ideal[a := v]
    ensures HadTurn(w, t, x, a, v)
  {
    forall i | i in w.copies && i != x
      ensures SameCopy(w, t, i)
    {
      assert SameCopy(w, s1, i) && SameCopy(s1, s2, i) && SameCopy(s2, t, i);
    }
    forall z | z in w.chan
      ensures TurnAt(w, t, x, a, v, z)
    {
      assert (z.0, z.1) in w.chan && SentAt(s2, t, x, a, v, z);
      assert z.0 != x ==> FlowAt(w, s1, x, {}, z) && FlowAt(s1, s2, x, w.nodes.Keys - {x}, z);
    }
  }

  /** x takes the lock, stores v at a and gives the lock back, d alone having had diffs for it. */
  lemma Turn(rights: Rights, r: iset<World>, w: World, x: PeerId, d: PeerId, a: Addr, v: Byte) returns (t: World)
    requires Closed(rights, r) && w in r && Calm(w, a, {}) && x in w.nodes && OutLinks(w, x, {}) && (x, a) in rights
    requires OnlyFrom(w, x, w.nodes.Keys - {x}, d) && CleanAt(w, a, x)
    requires v != if (d, x) in w.chan then Late(w.chan[(d, x)], a, w.copies[x].mem[a]) else w.copies[x].mem[a]
    ensures t in r && Calm(t, a, {}) && HadTurn(w, t, x, a, v)
  {
    var others := w.nodes.Keys - {x};
    var s1 := Ask(rights, r, w, x, a);
    StillOnly(w, s1, x, others, d);
    var s2 := AnswerAll(rights, r, s1, x, others, d, a);
    t := StoreAndUnlock(rights, r, s2, x, a, v);
    TurnOf(w, s1, s2, t, x, a, v);
  }

  lemma StillOnly(w: World, s: World, x: PeerId, others: set<PeerId>, d: PeerId)
    requires Shaped(w) && x in w.nodes && others == w.nodes.Keys - {x} && OnlyFrom(w, x, others, d) && Flows(w, s, x, {})
    ensures OnlyFrom(s, x, others, d)
    ensures d in others <==> (d, x) in w.chan
    ensures d in others ==> (d, x) in s.chan && s.chan[(d, x)] == w.chan[(d, x)]
  {
    forall b | b in others && b != d
      ensures EmptyAt(s, (b, x))
    {
      assert EmptyAt(w, (b, x)) && FlowAt(w, s, x, {}, (b, x));
    }
    if d in others {
      assert (d, x) in w.chan && FlowAt(w, s, x, {}, (d, x));
    }
  }

  lemma StartCalm(members: set<PeerId>, zero: Contents, w: World, a: Addr)
    requires Starting(members, zero, w) && a in zero
    ensures Calm(w, a, {}) && NothingSent(w)
    ensures forall i | i in members :: i in w.copies && CleanAt(w, a, i) && w.copies[i].mem[a] == zero[a]
  {
    assert forall i | i in w.nodes :: UnaskedAt(w, i);
    assert forall i | i in w.copies :: CleanAt(w, a, i);
    assert forall z | z in w.chan :: DataAt(w, z);
  }

  /** Nothing is on its way. */
  ghost predicate NothingSent(w: World) {
    forall z | z in w.chan :: w.chan[z] == []
  }

  lemma AllOut(w: World, x: PeerId)
    requires forall z | z in w.chan && z.0 == x :: w.chan[z] == []
    ensures OutLinks(w, x, {})
  {
    assert forall z | z in w.chan && z.0 == x :: OutAt(w, {}, z);
  }

  lemma AllEmpty(w: World, x: PeerId, from: set<PeerId>, d: PeerId)
    requires Shaped(w) && x in w.nodes && from <= w.nodes.Keys - {x}
    requires forall z | z in w.chan && z.1 == x && z.0 != d :: w.chan[z] == []
    ensures OnlyFrom(w, x, from, d)
  {
    forall c | c in from && c != d
      ensures EmptyAt(w, (c, x))
    {
      assert (c, x) in w.chan;
    }
  }

  /** j stores first and gives the lock back. */
  lemma FirstTurn(rights: Rights, r: iset<World>, o: World, j: PeerId, a: Addr, v: Byte) returns (t: World)
    requires Closed(rights, r) && o in r && Calm(o, a, {}) && NothingSent(o) && j in o.nodes && (j, a) in rights
    requires CleanAt(o, a, j) && o.copies[j].mem[a] != v
    ensures t in r && Calm(t, a, {}) && t.nodes.Keys == o.nodes.Keys
    ensures forall i | i in o.nodes && i != j :: CleanAt(t, a, i)
    ensures forall z | z in t.chan :: t.chan[z] == if z.0 == j then [Data(map[a := v])] else []
  {
    AllOut(o, j);
    AllEmpty(o, j, o.nodes.Keys - {j}, j);
    t := Turn(rights, r, o, j, j, a, v);
    forall z | z in t.chan
      ensures t.chan[z] == if z.0 == j then [Data(map[a := v])] else []
    {
      assert TurnAt(o, t, j, a, v, z);
    }
  }

  /** k, with j's diff, stores second: the third has a diff of each to come. */
  lemma SecondTurn(rights: Rights, r: iset<World>, w: World, i: PeerId, j: PeerId, k: PeerId, a: Addr, u: Byte, v: Byte)
    returns (t: World)
    requires Closed(rights, r) && w in r && Calm(w, a, {}) && {i, j, k} <= w.nodes.Keys && i != j && i != k && j != k
    requires (k, a) in rights && u != v && CleanAt(w, a, k) && CleanAt(w, a, i)
    requires forall z | z in w.chan :: w.chan[z] == if z.0 == j then [Data(map[a := u])] else []
    ensures t in r && Calm(t, a, {}) && t.nodes.Keys == w.nodes.Keys && t.ideal == w.ideal[a := v]
    ensures CleanAt(t, a, i) && OutLinks(t, i, {}) && (j, i) in t.chan && (k, i) in t.chan
    ensures t.chan[(j, i)] == [Data(map[a := u])] && t.chan[(k, i)] == [Data(map[a := v])]
    ensures OnlyFrom(t, i, w.nodes.Keys - {i} - {k}, j)
  {
    assert i in {i, j, k} && j in {i, j, k} && k in {i, j, k};
    AllOut(w, k);
    AllEmpty(w, k, w.nodes.Keys - {k}, j);
    assert (j, k) in w.chan && (j, i) in w.chan && (k, i) in w.chan;
    OneDiff(a, u, w.copies[k].mem[a]);
    t := Turn(rights, r, w, k, j, a, v);
    assert SameCopy(w, t, i) && TurnAt(w, t, k, a, v, (j, i)) && TurnAt(w, t, k, a, v, (k, i));
    forall z | z in t.chan && (z.0 == i || (z.1 == i && z.0 != j && z.0 != k))
      ensures t.chan[z] == []
    {
      assert TurnAt(w, t, k, a, v, z);
    }
    AllOut(t, i);
    forall c | c in w.nodes.Keys - {i} - {k} && c != j
      ensures EmptyAt(t, (c, i))
    {
      assert (c, i) in t.chan;
    }
  }

  lemma OneDiff(a: Addr, u: Byte, v: Byte)
    ensures Late([Data(map[a := u])], a, v) == u
  {
    assert [Data(map[a := u])][1..] == [];
  }

  /** i asks, takes k's diff before j's, and enters with what j stored. */
  lemma WrongEntry(rights: Rights, r: iset<World>, w: World, i: PeerId, j: PeerId, k: PeerId, a: Addr, u: Byte, v: Byte)
    returns (t: World)
    requires Closed(rights, r) && w in r && Calm(w, a, {}) && {i, j, k} <= w.nodes.Keys && i != j && i != k && j != k
    requires CleanAt(w, a, i) && OutLinks(w, i, {}) && (j, i) in w.chan && (k, i) in w.chan
    requires w.chan[(j, i)] == [Data(map[a := u])] && w.chan[(k, i)] == [Data(map[a := v])]
    requires OnlyFrom(w, i, w.nodes.Keys - {i} - {k}, j)
    ensures t in r && i in t.nodes && t.nodes[i].inside && t.ideal == w.ideal && CleanAt(t, a, i) && t.copies[i].mem[a] == u
  {
    assert i in {i, j, k} && j in {i, j, k} && k in {i, j, k};
    var others := w.nodes.Keys - {i};
    var s1 := Ask(rights, r, w, i, a);
    assert FlowAt(w, s1, i, {}, (j, i)) && FlowAt(w, s1, i, {}, (k, i));
    var s2 := AnswerOne(rights, r, s1, i, k, others, a);
    assert FlowAt(s1, s2, i, {k}, (j, i));
    forall c | c in others - {k} && c != j
      ensures EmptyAt(s2, (c, i))
    {
      assert EmptyAt(w, (c, i)) && FlowAt(w, s1, i, {}, (c, i)) && FlowAt(s1, s2, i, {k}, (c, i));
    }
    OneDiff(a, u, s2.copies[i].mem[a]);
    var s3 := AnswerAll(rights, r, s2, i, others - {k}, j, a);
    t := Do(Addressed, rights, s3, DoEnter(i));
  }

  /**
    j and then k store at a, and i takes k's diff before j's: it enters with what j
    stored, although k had the lock after j.
   */
  lemma WrongOrder(rights: Rights, members: set<PeerId>, zero: Contents, o: World, i: PeerId, j: PeerId, k: PeerId, a: Addr)
    returns (acts: seq<Act>, w: World)
    requires Starting(members, zero, o) && a in zero && {i, j, k} <= members && i != j && i != k && j != k
             && (j, a) in rights && (k, a) in rights
    ensures Play(Addressed, rights, o, acts) == Some(w)
    ensures i in w.nodes && w.nodes[i].inside && i in w.copies && a in w.copies[i].mem
    ensures w.copies[i].mem[a] != LastStore(acts, a, zero[a])
  {
    assert i in {i, j, k} && j in {i, j, k} && k in {i, j, k};
    ReachedIsClosed(rights, o);
    var r := iset w | Leads(rights, o, w);
    var first: Byte := if zero[a] == 1 then 2 else 1;
    StartCalm(members, zero, o, a);
    var w1 := FirstTurn(rights, r, o, j, a, first);
    var w2 := SecondTurn(rights, r, w1, i, j, k, a, first, 3);
    w := WrongEntry(rights, r, w2, i, j, k, a, first, 3);
    acts :| Play(Addressed, rights, o, acts) == Some(w);
    IdealIsLastStore(Addressed, rights, o, acts, a);
  }

  ghost predicate ReadsLast(zero: Contents, acts: seq<Act>, w: World, h: PeerId, a: Addr) {
    a in zero && h in w.copies && a in w.copies[h].mem && w.copies[h].mem[a] == LastStore(acts, a, zero[a])
  }

  /** Every holder reads at a what the last store of the run put there, in every run. */
  ghost predicate OneMemory(rights: Rights, zero: Contents, o: World, a: Addr) {
    forall acts, w, h {:trigger Play(Addressed, rights, o, acts), ReadsLast(zero, acts, w, h, a)} |
      Play(Addressed, rights, o, acts) == Some(w) && h in w.nodes && w.nodes[h].inside :: ReadsLast(zero, acts, w, h, a)
  }

  /** A byte is one memory to all holders exactly if no node hears of it from two others. */
  lemma OneMemoryExactlyWhenNarrow(rights: Rights, members: set<PeerId>, zero: Contents, o: World, a: Addr)
    requires Starting(members, zero, o) && a in zero
    ensures OneMemory(rights, zero, o, a) <==> Narrow(members, rights, a)
  {
    if Narrow(members, rights, a) {
      forall acts, w, h | Play(Addressed, rights, o, acts) == Some(w) && h in w.nodes && w.nodes[h].inside
        ensures ReadsLast(zero, acts, w, h, a)
      {
        HolderReadsLastStore(rights, members, zero, o, acts, w, h, a);
      }
    } else {
      var i, j, k := TwoWriters(rights, members, a);
      var acts, w := WrongOrder(rights, members, zero, o, i, j, k, a);
      assert !ReadsLast(zero, acts, w, i, a);
    }
  }

  lemma TwoWriters(rights: Rights, members: set<PeerId>, a: Addr) returns (i: PeerId, j: PeerId, k: PeerId)
    requires !Narrow(members, rights, a)
    ensures {i, j, k} <= members && i != j && i != k && j != k && (j, a) in rights && (k, a) in rights
  {
    i :| i in members && forall o: PeerId :: !Sole(members, rights, i, a, o);
    assert !Sole(members, rights, i, a, i + 1);
    j :| j in members && j != i && j != i + 1 && (j, a) in rights;
    assert !Sole(members, rights, i, a, j);
    k :| k in members && k != i && k != j && (k, a) in rights;
  }
}
