/**
  A byte that changes hands. Within a run of SharedMemory each byte is stored by one node;
  here another node takes it over. The copies still end equal, whatever happens, if and only
  if nothing of the byte is pending at its old owner or on its way from it.
 */
module Handover {
  import opened Options
  import opened Bytes
  import opened Addresses
  import opened SharedMemory

  /** What has been sent on a channel and not been handled. */
  ghost function OnTheWay(s: State, c: Channel): seq<Item> {
    if c in s.sent && c in s.got && s.got[c] <= |s.sent[c]| then s.sent[c][s.got[c]..] else []
  }

  ghost predicate Mentions(q: seq<Item>, a: Addr) {
    exists n :: 0 <= n < |q| && q[n].Diff? && a in q[n].d
  }

  /** p has published what it stored at a, and all others have it. */
  ghost predicate Drained(s: State, p: PeerId, a: Addr) {
    && p in s.nodes && a in s.nodes[p].mem && a in s.nodes[p].pub && s.nodes[p].mem[a] == s.nodes[p].pub[a]
    && forall c | c in s.sent && c.0 == p :: !Mentions(OnTheWay(s, c), a)
  }

  /** All that was sent has been handled, and no page has a twin. */
  ghost predicate AtRest(s: State) {
    Quiet(s) && forall k | k in s.nodes :: !s.nodes[k].twinned
  }

  ghost predicate Agree(s: State, a: Addr) {
    forall i, j | i in s.nodes && j in s.nodes ::
      a in s.nodes[i].mem && a in s.nodes[j].mem && s.nodes[i].mem[a] == s.nodes[j].mem[a]
  }

  // ---- replaying what is on its way ----

  lemma {:induction false} ReplayUnmentioned(q: seq<Item>, a: Addr, v: Byte)
    requires !Mentions(q, a)
    ensures Replay(q, a, v) == v
  {
    if |q| > 0 {
      assert forall n | 0 <= n < |q| - 1 :: q[..|q| - 1][n] == q[n];
      ReplayUnmentioned(q[..|q| - 1], a, v);
    }
  }

  lemma {:induction false} ReplayMentioned(q: seq<Item>, a: Addr, v: Byte, w: Byte)
    requires Mentions(q, a)
    ensures Replay(q, a, v) == Replay(q, a, w)
  {
    var last := q[|q| - 1];
    if !(last.Diff? && a in last.d) {
      var n :| 0 <= n < |q| && q[n].Diff? && a in q[n].d;
      assert q[..|q| - 1][n] == q[n];
      ReplayMentioned(q[..|q| - 1], a, v, w);
    }
  }

  lemma ReplayFirst(q: seq<Item>, a: Addr, v: Byte)
    requires |q| > 0
    ensures Replay(q, a, v) == Replay(q[1..], a, if q[0].Diff? && a in q[0].d then q[0].d[a] else v)
  {
    assert q == [q[0]] + q[1..] && [q[0]] == [] + [q[0]];
    ReplaySplits([q[0]], q[1..], a, v);
    ReplayOne([], q[0], a, v);
  }

  lemma MentionsParts(q: seq<Item>, r: seq<Item>, a: Addr)
    ensures Mentions(q + r, a) <==> Mentions(q, a) || Mentions(r, a)
  {
    if Mentions(q, a) {
      var n :| 0 <= n < |q| && q[n].Diff? && a in q[n].d;
      assert (q + r)[n] == q[n];
    }
    if Mentions(r, a) {
      var n :| 0 <= n < |r| && r[n].Diff? && a in r[n].d;
      assert (q + r)[|q| + n] == r[n];
    }
  }

  lemma MentionsRest(q: seq<Item>, a: Addr)
    requires |q| > 0 && !Mentions(q, a)
    ensures !Mentions(q[1..], a) && !(q[0].Diff? && a in q[0].d)
  {
    assert q == [q[0]] + q[1..];
    MentionsParts([q[0]], q[1..], a);
  }

  // ---- what a step does to a channel ----

  ghost predicate Bounded(s: State) {
    Shape(s) && forall c | c in s.sent :: c in s.got && s.got[c] <= |s.sent[c]|
  }

  ghost predicate Local(s: State, step: Step) {
    !step.Recv? && step.i in s.nodes
  }

  lemma LocalMovesItems(owner: map<Addr, PeerId>, s: State, step: Step, c: Channel)
    requires Bounded(s) && Enabled(owner, s, step) && !step.Recv? && c in s.sent
    ensures var t := Apply(owner, s, step);
            OnTheWay(t, c) == if step.i == c.0 then OnTheWay(s, c) + Output(s.nodes[step.i], step) else OnTheWay(s, c)
  {
    if step.i == c.0 && (step.Store? || step.Arm?) {
      assert OnTheWay(s, c) + [] == OnTheWay(s, c);
    }
  }

  lemma RecvMovesItems(owner: map<Addr, PeerId>, s: State, c: Channel)
    requires Bounded(s) && Enabled(owner, s, Recv(c.0, c.1))
    ensures c in s.sent && |OnTheWay(s, c)| > 0
    ensures var t := Apply(owner, s, Recv(c.0, c.1));
            && OnTheWay(t, c) == OnTheWay(s, c)[1..] && (forall d | d in s.sent && d != c :: OnTheWay(t, d) == OnTheWay(s, d))
            && t.nodes == s.nodes[c.1 := OnItem(s.nodes[c.1], c.0, OnTheWay(s, c)[0])]
  {
    assert c == (c.0, c.1);
  }

  lemma StepKeepsBounds(owner: map<Addr, PeerId>, s: State, step: Step)
    requires Bounded(s) && Enabled(owner, s, step)
    ensures var t := Apply(owner, s, step); Bounded(t) && t.nodes.Keys == s.nodes.Keys && t.sent.Keys == s.sent.Keys
  {
    StepKeepsShape(owner, s, step);
  }

  // ---- one byte and the node that stores to it ----

  /** The node has the byte, and nothing pending there unless it stores to it. */
  ghost predicate Sound(n: Node, a: Addr, stores: bool) {
    && a in n.mem && a in n.pub && n.mem.Keys == n.pub.Keys && (!n.twinned ==> n.mem == n.pub)
    && (!stores ==> n.mem[a] == n.pub[a])
  }

  /** What is on its way from x to y brings y the published byte of x, if x stores to it, or leaves it alone. */
  ghost predicate Linked(a: Addr, stores: bool, x: Node, y: Node, items: seq<Item>) {
    && a in x.pub && a in y.mem
    && if stores then Replay(items, a, y.mem[a]) == x.pub[a] else !Mentions(items, a)
  }

  ghost predicate SoundAt(s: State, a: Addr, q: PeerId, i: PeerId) {
    i in s.nodes && Sound(s.nodes[i], a, i == q)
  }

  ghost predicate LinkAt(s: State, a: Addr, q: PeerId, c: Channel) {
    c.0 in s.nodes && c.1 in s.nodes && Linked(a, c.0 == q, s.nodes[c.0], s.nodes[c.1], OnTheWay(s, c))
  }

  /** q alone stores to a. */
  ghost predicate HeldBy(s: State, a: Addr, q: PeerId) {
    && Bounded(s) && q in s.nodes
    && (forall i {:trigger SoundAt(s, a, q, i)} | i in s.nodes :: SoundAt(s, a, q, i))
    && (forall c {:trigger LinkAt(s, a, q, c)} | c in s.sent :: LinkAt(s, a, q, c))
  }

  lemma OwnerHolds(owner: map<Addr, PeerId>, zero: Contents, s: State, a: Addr)
    requires Inv(owner, zero, s) && a in zero
    ensures a in owner && HeldBy(s, a, owner[a])
  {
    forall i | i in s.nodes
      ensures SoundAt(s, a, owner[a], i)
    {
      assert NodeAt(owner, zero, s, i);
    }
    forall c | c in s.sent
      ensures LinkAt(s, a, owner[a], c) && c in s.got && s.got[c] <= |s.sent[c]|
    {
      assert c == (c.0, c.1) && StreamAt(owner, zero, s, c.0, c.1);
      StreamLinks(owner, zero, c.0, s.nodes[c.0], s.nodes[c.1], s.sent[c], s.got[c], a);
      assert NodeAt(owner, zero, s, c.0) && NodeAt(owner, zero, s, c.1);
    }
  }

  lemma StreamLinks(owner: map<Addr, PeerId>, zero: Contents, o: PeerId, x: Node, y: Node, q: seq<Item>, got: nat, a: Addr)
    requires StreamInv(owner, zero, o, x, y, q, got) && a in zero && a in owner && a in x.pub && a in y.mem
    ensures Linked(a, owner[a] == o, x, y, q[got..])
  {
    if owner[a] == o {
      assert ByteInv(zero, a, x, y, q, got);
      assert q == q[..got] + q[got..];
      ReplaySplits(q[..got], q[got..], a, zero[a]);
    }
  }

  // ---- a step under an owner ----

  /** What a local step makes of the byte: the output carries what is published of it. */
  lemma LocalNode(owner: map<Addr, PeerId>, s: State, step: Step, a: Addr, stores: bool)
    requires Enabled(owner, s, step) && !step.Recv? && Sound(s.nodes[step.i], a, stores)
    requires step.Store? && step.a == a ==> stores
    ensures var n, n', out := s.nodes[step.i], Apply(owner, s, step).nodes[step.i], Output(s.nodes[step.i], step);
            && Sound(n', a, stores) && (!stores ==> n'.mem[a] == n.mem[a] && !Mentions(out, a))
            && Replay(out, a, n.pub[a]) == n'.pub[a]
            && (Mentions(out, a) || n'.pub[a] == n.pub[a])
            && ((step.TxEnd? || step.Notify?) && n.mem[a] != n.pub[a] ==> Mentions(out, a))
  {
    if step.TxEnd? || step.Notify? {
      Published(s.nodes[step.i], a);
      if step.Notify? {
        NoticeLeaves(Publish(s.nodes[step.i]).1, a, s.nodes[step.i].pub[a]);
      }
    }
  }

  lemma Published(n: Node, a: Addr)
    requires a in n.mem && a in n.pub && (!n.twinned ==> n.mem == n.pub)
    ensures Mentions(Publish(n).1, a) <==> n.mem[a] != n.pub[a]
    ensures Replay(Publish(n).1, a, n.pub[a]) == n.mem[a]
  {
    if n.twinned {
      var out := Publish(n).1;
      assert out[0].Diff? && (a in out[0].d <==> n.mem[a] != n.pub[a]);
      ReplayOne([], out[0], a, n.pub[a]);
      assert [] + [out[0]] == out;
    }
  }

  lemma NoticeLeaves(out: seq<Item>, a: Addr, v: Byte)
    ensures Mentions(out + [Notice], a) <==> Mentions(out, a)
    ensures Replay(out + [Notice], a, v) == Replay(out, a, v)
  {
    MentionsParts(out, [Notice], a);
    ReplayOne(out, Notice, a, v);
  }

  lemma SenderKeepsLink(a: Addr, stores: bool, x: Node, x': Node, y: Node, items: seq<Item>, out: seq<Item>)
    requires Linked(a, stores, x, y, items) && a in x'.pub
    requires Replay(out, a, x.pub[a]) == x'.pub[a] && (!stores ==> !Mentions(out, a))
    ensures Linked(a, stores, x', y, items + out)
  {
    MentionsParts(items, out, a);
    ReplaySplits(items, out, a, y.mem[a]);
  }

  lemma LocalKeepsLink(owner: map<Addr, PeerId>, s: State, step: Step, a: Addr, q: PeerId, c: Channel)
    requires HeldBy(s, a, q) && Enabled(owner, s, step) && !step.Recv? && c in s.sent
    requires step.Store? && step.a == a ==> step.i == q
    ensures LinkAt(Apply(owner, s, step), a, q, c)
  {
    LocalMovesItems(owner, s, step, c);
    assert LinkAt(s, a, q, c) && c == (c.0, c.1) && SoundAt(s, a, q, step.i);
    LocalNode(owner, s, step, a, step.i == q);
    var t := Apply(owner, s, step);
    if step.i == c.0 {
      SenderKeepsLink(a, c.0 == q, s.nodes[c.0], t.nodes[c.0], s.nodes[c.1], OnTheWay(s, c), Output(s.nodes[c.0], step));
    }
  }

  lemma ItemKeepsLink(a: Addr, stores: bool, x: Node, y: Node, from: PeerId, items: seq<Item>)
    requires Linked(a, stores, x, y, items) && |items| > 0
    ensures Linked(a, stores, x, OnItem(y, from, items[0]), items[1..])
  {
    if stores {
      ReplayFirst(items, a, y.mem[a]);
    } else {
      MentionsRest(items, a);
    }
  }

  lemma ItemKeepsSound(a: Addr, n: Node, from: PeerId, item: Item, stores: bool)
    requires Sound(n, a, stores) && (stores ==> !(item.Diff? && a in item.d))
    ensures Sound(OnItem(n, from, item), a, stores)
  {
  }

  /** A node that stores to a gets no item with it. */
  lemma HeadAvoids(s: State, a: Addr, q: PeerId, c: Channel)
    requires HeldBy(s, a, q) && c in s.sent && c.0 != q && |OnTheWay(s, c)| > 0
    ensures var item := OnTheWay(s, c)[0]; !(item.Diff? && a in item.d)
  {
    assert LinkAt(s, a, q, c);
    MentionsRest(OnTheWay(s, c), a);
  }

  lemma RecvKeepsLink(owner: map<Addr, PeerId>, s: State, c: Channel, a: Addr, q: PeerId, d: Channel)
    requires HeldBy(s, a, q) && Enabled(owner, s, Recv(c.0, c.1)) && d in s.sent
    ensures LinkAt(Apply(owner, s, Recv(c.0, c.1)), a, q, d)
  {
    RecvMovesItems(owner, s, c);
    assert LinkAt(s, a, q, d) && d == (d.0, d.1) && c == (c.0, c.1);
    if c == d {
      ItemKeepsLink(a, c.0 == q, s.nodes[c.0], s.nodes[c.1], c.0, OnTheWay(s, c));
    } else if c.0 != q {
      HeadAvoids(s, a, q, c);
    }
  }

  lemma RecvKeepsHeld(owner: map<Addr, PeerId>, s: State, c: Channel, a: Addr, q: PeerId)
    requires HeldBy(s, a, q) && Enabled(owner, s, Recv(c.0, c.1))
    ensures HeldBy(Apply(owner, s, Recv(c.0, c.1)), a, q)
  {
    var t := Apply(owner, s, Recv(c.0, c.1));
    StepKeepsBounds(owner, s, Recv(c.0, c.1));
    RecvMovesItems(owner, s, c);
    assert SoundAt(s, a, q, c.1);
    if c.1 == q {
      HeadAvoids(s, a, q, c);
    }
    ItemKeepsSound(a, s.nodes[c.1], c.0, OnTheWay(s, c)[0], c.1 == q);
    forall i | i in t.nodes
      ensures SoundAt(t, a, q, i)
    {
      assert SoundAt(s, a, q, i);
    }
    forall d | d in t.sent
      ensures LinkAt(t, a, q, d)
    {
      RecvKeepsLink(owner, s, c, a, q, d);
    }
  }

  lemma LocalKeepsHeld(owner: map<Addr, PeerId>, s: State, step: Step, a: Addr, q: PeerId)
    requires HeldBy(s, a, q) && Enabled(owner, s, step) && !step.Recv? && (step.Store? && step.a == a ==> step.i == q)
    ensures HeldBy(Apply(owner, s, step), a, q)
  {
    var t := Apply(owner, s, step);
    StepKeepsBounds(owner, s, step);
    forall i | i in t.nodes
      ensures SoundAt(t, a, q, i)
    {
      assert SoundAt(s, a, q, i) && SoundAt(s, a, q, step.i);
      LocalNode(owner, s, step, a, step.i == q);
    }
    forall c | c in t.sent
      ensures LinkAt(t, a, q, c)
    {
      LocalKeepsLink(owner, s, step, a, q, c);
    }
  }

  lemma StepKeepsHeld(owner: map<Addr, PeerId>, s: State, step: Step, a: Addr, q: PeerId)
    requires HeldBy(s, a, q) && Enabled(owner, s, step) && (step.Store? && step.a == a ==> step.i == q)
    ensures HeldBy(Apply(owner, s, step), a, q)
  {
    if step.Recv? {
      RecvKeepsHeld(owner, s, (step.from, step.to), a, q);
    } else {
      LocalKeepsHeld(owner, s, step, a, q);
    }
  }

  /** Of the byte the step leaves with q what is stored there, or what was there. */
  lemma HolderStores(owner: map<Addr, PeerId>, s: State, step: Step, a: Addr, q: PeerId)
    requires HeldBy(s, a, q) && Enabled(owner, s, step) && (step.Store? && step.a == a ==> step.i == q)
    ensures var t := Apply(owner, s, step);
            && q in s.nodes && q in t.nodes && a in s.nodes[q].mem && a in t.nodes[q].mem
            && t.nodes[q].mem[a] == if step.Store? && step.a == a then step.v else s.nodes[q].mem[a]
  {
    assert SoundAt(s, a, q, q);
    if step.Recv? && step.to == q {
      var c := (step.from, step.to);
      RecvMovesItems(owner, s, c);
      HeadAvoids(s, a, q, c);
    }
  }

  lemma {:induction false} RunKeepsHeld(owner: map<Addr, PeerId>, s: State, steps: seq<Step>, t: State, a: Addr, q: PeerId)
    requires HeldBy(s, a, q) && a in owner && owner[a] == q && Run(owner, s, steps) == Some(t)
    ensures HeldBy(t, a, q) && t.nodes.Keys == s.nodes.Keys && a in s.nodes[q].mem && a in t.nodes[q].mem
    ensures t.nodes[q].mem[a] == LastStore(steps, a, s.nodes[q].mem[a])
    decreases |steps|
  {
    assert SoundAt(s, a, q, q);
    if |steps| > 0 {
      HolderStores(owner, s, steps[0], a, q);
      StepKeepsHeld(owner, s, steps[0], a, q);
      StepKeepsBounds(owner, s, steps[0]);
      RunKeepsHeld(owner, Apply(owner, s, steps[0]), steps[1..], t, a, q);
    }
  }

  /** At rest every copy has what the owner has. */
  lemma RestAgrees(s: State, a: Addr, q: PeerId)
    requires HeldBy(s, a, q) && AtRest(s)
    ensures Agree(s, a) && forall i | i in s.nodes :: a in s.nodes[i].mem && s.nodes[i].mem[a] == s.nodes[q].mem[a]
  {
    assert SoundAt(s, a, q, q);
    forall i | i in s.nodes
      ensures a in s.nodes[i].mem && s.nodes[i].mem[a] == s.nodes[q].mem[a]
    {
      assert SoundAt(s, a, q, i);
      if i != q {
        assert (q, i) in s.sent && LinkAt(s, a, q, (q, i));
        assert OnTheWay(s, (q, i)) == [];
      }
    }
  }

  /** A drained byte can be given to any node. */
  lemma HandsOver(s: State, a: Addr, p: PeerId, q: PeerId)
    requires HeldBy(s, a, p) && Drained(s, p, a) && q in s.nodes
    ensures HeldBy(s, a, q) && a in s.nodes[p].mem && a in s.nodes[q].mem && s.nodes[q].mem[a] == s.nodes[p].mem[a]
  {
    forall i | i in s.nodes
      ensures SoundAt(s, a, q, i) && s.nodes[i].mem[a] == s.nodes[i].pub[a] == s.nodes[p].pub[a]
    {
      assert SoundAt(s, a, p, i);
      if i != p {
        assert (p, i) in s.sent && LinkAt(s, a, p, (p, i));
        ReplayUnmentioned(OnTheWay(s, (p, i)), a, s.nodes[i].mem[a]);
      }
    }
    forall c | c in s.sent
      ensures LinkAt(s, a, q, c)
    {
      assert LinkAt(s, a, p, c) && c == (c.0, c.1);
      ReplayUnmentioned(OnTheWay(s, c), a, s.nodes[c.1].mem[a]);
    }
  }

  // ---- any number of handovers ----

  /** A stretch of a run in which each byte is stored by one node. */
  datatype Phase = Phase(owner: map<Addr, PeerId>, steps: seq<Step>)

  /** From phase to phase a byte keeps its owner, or has been drained. */
  ghost predicate Handed(owner: map<Addr, PeerId>, next: map<Addr, PeerId>, zero: Contents, s: State) {
    forall a | a in zero :: a in owner && a in next && next[a] in s.nodes && (next[a] == owner[a] || Drained(s, owner[a], a))
  }

  ghost predicate Phases(owner: map<Addr, PeerId>, zero: Contents, s: State, phases: seq<Phase>, t: State)
    decreases |phases|
  {
    if |phases| == 0 then t == s
    else
      var next := phases[0].owner;
      && Handed(owner, next, zero, s) && Run(next, s, phases[0].steps).Some?
      && Phases(next, zero, Run(next, s, phases[0].steps).value, phases[1..], t)
  }

  ghost function StepsOf(phases: seq<Phase>): seq<Step> {
    if |phases| == 0 then [] else phases[0].steps + StepsOf(phases[1..])
  }

  lemma {:induction false} LastStoreSplits(steps: seq<Step>, more: seq<Step>, a: Addr, v: Byte)
    ensures LastStore(steps + more, a, v) == LastStore(more, a, LastStore(steps, a, v))
  {
    if |steps| == 0 {
      assert steps + more == more;
    } else {
      assert (steps + more)[0] == steps[0] && (steps + more)[1..] == steps[1..] + more;
      LastStoreSplits(steps[1..], more, a, if steps[0].Store? && steps[0].a == a then steps[0].v else v);
    }
  }

  /** The byte with the node that is to store it next, as far as it has been drained. */
  lemma NextHolds(owner: map<Addr, PeerId>, next: map<Addr, PeerId>, zero: Contents, s: State, a: Addr)
    requires a in zero && a in owner && HeldBy(s, a, owner[a]) && Handed(owner, next, zero, s)
    ensures a in next && HeldBy(s, a, next[a]) && a in s.nodes[owner[a]].mem && a in s.nodes[next[a]].mem
    ensures s.nodes[next[a]].mem[a] == s.nodes[owner[a]].mem[a]
  {
    assert SoundAt(s, a, owner[a], owner[a]);
    if next[a] != owner[a] {
      HandsOver(s, a, owner[a], next[a]);
    }
  }

  lemma {:induction false} PhasesHold(owner: map<Addr, PeerId>, zero: Contents, s: State, phases: seq<Phase>, t: State, a: Addr)
                           returns (q: PeerId)
    requires a in zero && a in owner && HeldBy(s, a, owner[a]) && Phases(owner, zero, s, phases, t)
    ensures HeldBy(t, a, q) && a in s.nodes[owner[a]].mem && a in t.nodes[q].mem
    ensures t.nodes[q].mem[a] == LastStore(StepsOf(phases), a, s.nodes[owner[a]].mem[a])
    decreases |phases|
  {
    q := owner[a];
    assert SoundAt(s, a, q, q);
    if |phases| > 0 {
      var next, steps := phases[0].owner, phases[0].steps;
      var m := Run(next, s, steps).value;
      NextHolds(owner, next, zero, s, a);
      RunKeepsHeld(next, s, steps, m, a, next[a]);
      q := PhasesHold(next, zero, m, phases[1..], t, a);
      LastStoreSplits(steps, StepsOf(phases[1..]), a, s.nodes[owner[a]].mem[a]);
    }
  }

  /**
    However often bytes are handed over after they have been drained, at rest every copy has at
    every byte what the last store of all phases put there.
   */
  lemma HandoversConverge(owner: map<Addr, PeerId>, members: set<PeerId>, zero: Contents, o: State, phases: seq<Phase>, t: State)
    requires Reaches(owner, members, zero, o, [], o) && Phases(owner, zero, o, phases, t) && AtRest(t)
    ensures forall a, i | a in zero && i in t.nodes ::
              a in t.nodes[i].mem && t.nodes[i].mem[a] == LastStore(StepsOf(phases), a, zero[a])
  {
    InitialInv(owner, members, zero, o);
    forall a, i | a in zero && i in t.nodes
      ensures a in t.nodes[i].mem && t.nodes[i].mem[a] == LastStore(StepsOf(phases), a, zero[a])
    {
      OwnerHolds(owner, zero, o, a);
      var q := PhasesHold(owner, zero, o, phases, t, a);
      RestAgrees(t, a, q);
    }
  }
}

/** What happens to a byte that is handed over too early, and so exactly when it may be. */
module HandoverLimits {
  import opened Options
  import opened Bytes
  import opened Addresses
  import opened SharedMemory
  import opened Handover

  ghost predicate Leads(owner: map<Addr, PeerId>, s: State, t: State) {
    exists steps :: Run(owner, s, steps) == Some(t)
  }

  /** Wherever a run from s comes to rest, all copies have the same value of a. */
  ghost predicate AlwaysAgrees(owner: map<Addr, PeerId>, s: State, a: Addr) {
    forall t | Leads(owner, s, t) && AtRest(t) :: Agree(t, a)
  }

  lemma {:induction false} RunThenStep(owner: map<Addr, PeerId>, s: State, steps: seq<Step>, t: State, step: Step)
    requires Run(owner, s, steps) == Some(t) && Enabled(owner, t, step)
    ensures Run(owner, s, steps + [step]) == Some(Apply(owner, t, step))
    decreases |steps|
  {
    if |steps| == 0 {
      assert (steps + [step])[1..] == [];
    } else {
      assert (steps + [step])[1..] == steps[1..] + [step];
      RunThenStep(owner, Apply(owner, s, steps[0]), steps[1..], t, step);
    }
  }

  /** A set of states that no step leaves. */
  ghost predicate Closed(owner: map<Addr, PeerId>, r: iset<State>) {
    forall s, step {:trigger Apply(owner, s, step)} | s in r && Enabled(owner, s, step) :: Apply(owner, s, step) in r
  }

  lemma ReachedIsClosed(owner: map<Addr, PeerId>, s: State)
    ensures var r := iset t | Leads(owner, s, t); s in r && Closed(owner, r)
  {
    var r := iset t | Leads(owner, s, t);
    assert Run(owner, s, []) == Some(s);
    forall t, step | t in r && Enabled(owner, t, step)
      ensures Apply(owner, t, step) in r
    {
      var steps :| Run(owner, s, steps) == Some(t);
      RunThenStep(owner, s, steps, t, step);
    }
  }

  // ---- draining ----

  ghost predicate SameLink(s: State, t: State, c: Channel) {
    OnTheWay(t, c) == OnTheWay(s, c)
  }

  ghost predicate SameNode(s: State, t: State, i: PeerId) {
    i in s.nodes && i in t.nodes && t.nodes[i] == s.nodes[i]
  }

  ghost predicate Untwinned(s: State) {
    forall i {:trigger s.nodes[i]} | i in s.nodes :: !s.nodes[i].twinned
  }

  /** From s to t the receiver of c has handled all that was on its way to it there. */
  ghost predicate Emptied(s: State, t: State, c: Channel, a: Addr) {
    && Bounded(t) && t.nodes.Keys == s.nodes.Keys && t.sent.Keys == s.sent.Keys && c.1 in s.nodes
    && OnTheWay(t, c) == [] && (forall d {:trigger SameLink(s, t, d)} | d != c :: SameLink(s, t, d))
    && (forall i {:trigger SameNode(s, t, i)} | i in s.nodes && i != c.1 :: SameNode(s, t, i))
    && t.nodes[c.1].twinned == s.nodes[c.1].twinned
    && (a in s.nodes[c.1].mem ==>
          a in t.nodes[c.1].mem && t.nodes[c.1].mem[a] == Replay(OnTheWay(s, c), a, s.nodes[c.1].mem[a]))
  }

  lemma EmptiesOne(owner: map<Addr, PeerId>, s: State, m: State, t: State, c: Channel, a: Addr)
    requires Bounded(s) && Enabled(owner, s, Recv(c.0, c.1)) && m == Apply(owner, s, Recv(c.0, c.1)) && Emptied(m, t, c, a)
    ensures Emptied(s, t, c, a)
  {
    RecvMovesItems(owner, s, c);
    StepKeepsBounds(owner, s, Recv(c.0, c.1));
    if a in s.nodes[c.1].mem {
      ReplayFirst(OnTheWay(s, c), a, s.nodes[c.1].mem[a]);
    }
    forall d | d != c
      ensures SameLink(s, t, d)
    {
      assert SameLink(m, t, d);
    }
    forall i | i in s.nodes && i != c.1
      ensures SameNode(s, t, i)
    {
      assert SameNode(m, t, i);
    }
  }

  lemma {:induction false} Empties(owner: map<Addr, PeerId>, r: iset<State>, s: State, c: Channel, a: Addr) returns (t: State)
    requires Closed(owner, r) && s in r && Bounded(s) && c in s.sent
    ensures t in r && Emptied(s, t, c, a)
    decreases |OnTheWay(s, c)|
  {
    assert c == (c.0, c.1);
    t := s;
    if |OnTheWay(s, c)| > 0 {
      var m := Apply(owner, s, Recv(c.0, c.1));
      RecvMovesItems(owner, s, c);
      StepKeepsBounds(owner, s, Recv(c.0, c.1));
      t := Empties(owner, r, m, c, a);
      EmptiesOne(owner, s, m, t, c, a);
    }
  }

  ghost predicate SilentAt(t: State, a: Addr, c: Channel) {
    c in t.sent && !Mentions(OnTheWay(t, c), a)
  }

  /** With what is on its way x will have v at a; nobody but o has sent it any change of a. */
  ghost predicate Ends(t: State, a: Addr, x: PeerId, v: Byte, o: PeerId) {
    && x in t.nodes && a in t.nodes[x].mem && Replay(OnTheWay(t, (o, x)), a, t.nodes[x].mem[a]) == v
    && forall c {:trigger SilentAt(t, a, c)} | c in t.sent && c.1 == x && c.0 != o :: SilentAt(t, a, c)
  }

  lemma EmptyingKeepsEnds(s: State, t: State, c: Channel, a: Addr, x: PeerId, v: Byte, o: PeerId)
    requires Ends(s, a, x, v, o) && Emptied(s, t, c, a) && c in s.sent
    ensures Ends(t, a, x, v, o)
  {
    assert c == (c.0, c.1);
    if c.1 != x {
      assert SameNode(s, t, x) && SameLink(s, t, (o, x));
    } else if c.0 != o {
      assert SilentAt(s, a, c) && SameLink(s, t, (o, x));
      ReplayUnmentioned(OnTheWay(s, c), a, s.nodes[x].mem[a]);
    }
    forall d | d in t.sent && d.1 == x && d.0 != o
      ensures SilentAt(t, a, d)
    {
      assert SilentAt(s, a, d) && (d != c ==> SameLink(s, t, d));
    }
  }

  /** p and k have, or will have, different values of a when all has been handled. */
  ghost predicate Diverged(t: State, a: Addr, p: PeerId, q: PeerId, k: PeerId, v: Byte, w: Byte) {
    && Bounded(t) && Untwinned(t)
    && v != w && Ends(t, a, k, v, p) && Ends(t, a, p, w, q)
  }

  lemma EmptyingKeepsDiverged(s: State, t: State, c: Channel, a: Addr, p: PeerId, q: PeerId, k: PeerId, v: Byte, w: Byte)
    requires Diverged(s, a, p, q, k, v, w) && Emptied(s, t, c, a) && c in s.sent
    ensures Diverged(t, a, p, q, k, v, w)
  {
    EmptyingKeepsEnds(s, t, c, a, k, v, p);
    EmptyingKeepsEnds(s, t, c, a, p, w, q);
    EmptyingKeepsUntwinned(s, t, c, a);
  }

  lemma EmptyingKeepsUntwinned(s: State, t: State, c: Channel, a: Addr)
    requires Emptied(s, t, c, a) && Untwinned(s)
    ensures Untwinned(t)
  {
    forall i | i in t.nodes
      ensures !t.nodes[i].twinned
    {
      assert i != c.1 ==> SameNode(s, t, i);
      assert !s.nodes[i].twinned;
    }
  }

  lemma {:induction false} AllEmpty(owner: map<Addr, PeerId>, r: iset<State>, s: State, todo: set<Channel>,
                                    a: Addr, p: PeerId, q: PeerId, k: PeerId, v: Byte, w: Byte) returns (t: State)
    requires Closed(owner, r) && s in r && Diverged(s, a, p, q, k, v, w) && todo <= s.sent.Keys
    requires forall c | c in s.sent && c !in todo :: OnTheWay(s, c) == []
    ensures t in r && Diverged(t, a, p, q, k, v, w) && forall c | c in t.sent :: OnTheWay(t, c) == []
    decreases todo
  {
    t := s;
    if c :| c in todo {
      var m := Empties(owner, r, s, c, a);
      EmptyingKeepsDiverged(s, m, c, a, p, q, k, v, w);
      assert forall d | d in m.sent && d !in todo - {c} :: d != c ==> SameLink(s, m, d);
      t := AllEmpty(owner, r, m, todo - {c}, a, p, q, k, v, w);
    }
  }

  lemma DivergedDisagrees(t: State, a: Addr, p: PeerId, q: PeerId, k: PeerId, v: Byte, w: Byte)
    requires Diverged(t, a, p, q, k, v, w) && forall c | c in t.sent :: OnTheWay(t, c) == []
    ensures AtRest(t) && !Agree(t, a)
  {
    assert OnTheWay(t, (q, p)) == [] && OnTheWay(t, (p, k)) == [];
    forall c | c in t.sent && c in t.got
      ensures t.got[c] == |t.sent[c]|
    {
      assert OnTheWay(t, c) == [];
    }
  }

  // ---- the bad run ----

  /** A change of p's at a is on its way to k. */
  ghost predicate Pending(s: State, a: Addr, p: PeerId, k: PeerId) {
    HeldBy(s, a, p) && (p, k) in s.sent && Mentions(OnTheWay(s, (p, k)), a)
  }

  lemma TxEndKeepsPending(owner: map<Addr, PeerId>, s: State, a: Addr, p: PeerId, k: PeerId, i: PeerId)
    requires Pending(s, a, p, k) && i in s.nodes
    ensures Pending(Apply(owner, s, TxEnd(i)), a, p, k)
  {
    StepKeepsHeld(owner, s, TxEnd(i), a, p);
    LocalMovesItems(owner, s, TxEnd(i), (p, k));
    if i == p {
      MentionsParts(OnTheWay(s, (p, k)), Output(s.nodes[i], TxEnd(i)), a);
    }
  }

  /** What p has stored at a gets on its way, to q if it is still pending at p. */
  lemma GetsOnItsWay(owner: map<Addr, PeerId>, r: iset<State>, s: State, a: Addr, p: PeerId, q: PeerId)
    returns (t: State, k: PeerId)
    requires Closed(owner, r) && s in r && HeldBy(s, a, p) && !Drained(s, p, a) && q in s.nodes && q != p
    ensures t in r && t.nodes.Keys == s.nodes.Keys && Pending(t, a, p, k)
  {
    if c :| c in s.sent && c.0 == p && Mentions(OnTheWay(s, c), a) {
      assert c == (c.0, c.1);
      t, k := s, c.1;
    } else {
      t, k := Apply(owner, s, TxEnd(p)), q;
      StepKeepsHeld(owner, s, TxEnd(p), a, p);
      assert SoundAt(s, a, p, p) && (p, q) in s.sent;
      LocalMovesItems(owner, s, TxEnd(p), (p, q));
      LocalNode(owner, s, TxEnd(p), a, true);
      MentionsParts(OnTheWay(s, (p, q)), Output(s.nodes[p], TxEnd(p)), a);
    }
  }

  lemma {:induction false} AllPublish(owner: map<Addr, PeerId>, r: iset<State>, s: State, todo: set<PeerId>,
                                      a: Addr, p: PeerId, k: PeerId) returns (t: State)
    requires Closed(owner, r) && s in r && Pending(s, a, p, k) && todo <= s.nodes.Keys
    requires forall i | i in s.nodes && i !in todo :: !s.nodes[i].twinned
    ensures t in r && t.nodes.Keys == s.nodes.Keys && Pending(t, a, p, k) && Untwinned(t)
    decreases todo
  {
    t := s;
    if i :| i in todo {
      TxEndKeepsPending(owner, s, a, p, k, i);
      StepKeepsBounds(owner, s, TxEnd(i));
      t := AllPublish(owner, r, Apply(owner, s, TxEnd(i)), todo - {i}, a, p, k);
    }
  }

  /** q has published w at a, and before that nothing was pending but p's v on its way to k. */
  ghost predicate Contested(s: State, t: State, a: Addr, p: PeerId, q: PeerId, k: PeerId, w: Byte) {
    && Bounded(t) && t.nodes.Keys == s.nodes.Keys && t.sent.Keys == s.sent.Keys && q in s.nodes
    && Untwinned(t) && (forall i {:trigger SameNode(s, t, i)} | i in t.nodes && i != q :: SameNode(s, t, i))
    && a in t.nodes[q].mem
    && (forall c {:trigger SameLink(s, t, c)} | c in s.sent && c.0 != q :: SameLink(s, t, c))
    && (forall c {:trigger AlwaysEnds(t, a, c, w)} | c in s.sent && c.0 == q :: AlwaysEnds(t, a, c, w))
  }

  /** What is on its way there leaves w at a. */
  ghost predicate AlwaysEnds(t: State, a: Addr, c: Channel, w: Byte) {
    forall v :: Replay(OnTheWay(t, c), a, v) == w
  }

  lemma Overwrites(owner: map<Addr, PeerId>, r: iset<State>, s: State, a: Addr, p: PeerId, q: PeerId, k: PeerId, w: Byte)
                   returns (t: State)
    requires Closed(owner, r) && s in r && Pending(s, a, p, k) && q in s.nodes && q != p && a in owner && owner[a] == q
    requires Untwinned(s) && a in s.nodes[q].pub && w != s.nodes[q].pub[a]
    ensures t in r && Contested(s, t, a, p, q, k, w)
  {
    assert SoundAt(s, a, p, q);
    var m := Apply(owner, s, Store(q, a, w));
    t := Apply(owner, m, TxEnd(q));
    StepKeepsBounds(owner, s, Store(q, a, w));
    StepKeepsBounds(owner, m, TxEnd(q));
    LocalNode(owner, m, TxEnd(q), a, true);
    assert forall i | i in t.nodes && i != q :: SameNode(s, t, i);
    forall c | c in s.sent
      ensures if c.0 == q then AlwaysEnds(t, a, c, w) else SameLink(s, t, c)
    {
      LocalMovesItems(owner, s, Store(q, a, w), c);
      NewestIsLast(owner, m, a, q, w, c);
    }
  }

  lemma NewestIsLast(owner: map<Addr, PeerId>, m: State, a: Addr, q: PeerId, w: Byte, c: Channel)
    requires Bounded(m) && c in m.sent && q in m.nodes && a in m.nodes[q].pub && a in m.nodes[q].mem
    requires Mentions(Output(m.nodes[q], TxEnd(q)), a) && Replay(Output(m.nodes[q], TxEnd(q)), a, m.nodes[q].pub[a]) == w
    ensures var t := Apply(owner, m, TxEnd(q)); if c.0 == q then AlwaysEnds(t, a, c, w) else SameLink(m, t, c)
  {
    LocalMovesItems(owner, m, TxEnd(q), c);
    if c.0 == q {
      EndsWithOutput(OnTheWay(m, c), Output(m.nodes[q], TxEnd(q)), a, m.nodes[q].pub[a], w);
    }
  }

  lemma EndsWithOutput(items: seq<Item>, out: seq<Item>, a: Addr, v: Byte, w: Byte)
    requires Mentions(out, a) && Replay(out, a, v) == w
    ensures forall u :: Replay(items + out, a, u) == w
  {
    forall u
      ensures Replay(items + out, a, u) == w
    {
      ReplaySplits(items, out, a, u);
      ReplayMentioned(out, a, Replay(items, a, u), v);
    }
  }

  /** What p will have, and k when it has handled what q sent it. */
  lemma ContestedEnds(s: State, u: State, a: Addr, p: PeerId, q: PeerId, k: PeerId, w: Byte)
    requires Pending(s, a, p, k) && Contested(s, u, a, p, q, k, w) && q != p
    ensures a in s.nodes[p].pub && Ends(u, a, p, w, q)
    ensures k == q ==> Ends(u, a, k, s.nodes[p].pub[a], p)
  {
    assert SoundAt(s, a, p, p) && SoundAt(s, a, p, k) && LinkAt(s, a, p, (p, k));
    assert (q, p) in s.sent && AlwaysEnds(u, a, (q, p), w) && SameNode(s, u, p) && SameLink(s, u, (p, k));
    forall c | c in u.sent && c.0 != p && c.0 != q
      ensures SilentAt(u, a, c)
    {
      assert LinkAt(s, a, p, c) && SameLink(s, u, c);
    }
    if k == q {
      ReplayMentioned(OnTheWay(s, (p, k)), a, s.nodes[k].mem[a], u.nodes[k].mem[a]);
    }
  }

  /** k has handled what q sent it, and will end with the older value. */
  lemma OlderWillCome(s: State, u: State, t: State, a: Addr, p: PeerId, q: PeerId, k: PeerId, w: Byte)
    requires Pending(s, a, p, k) && Contested(s, u, a, p, q, k, w) && q != p && k != q && Emptied(u, t, (q, k), a)
    ensures a in s.nodes[p].pub && Ends(t, a, k, s.nodes[p].pub[a], p)
  {
    assert SoundAt(s, a, p, p) && SoundAt(s, a, p, k) && LinkAt(s, a, p, (p, k));
    assert SameLink(s, u, (p, k)) && SameLink(u, t, (p, k)) && SameNode(s, u, k);
    forall c | c in t.sent && c.1 == k && c.0 != p
      ensures SilentAt(t, a, c)
    {
      assert c == (c.0, c.1);
      if c.0 != q {
        assert LinkAt(s, a, p, c) && SameLink(s, u, c) && SameLink(u, t, c);
      }
    }
    ReplayMentioned(OnTheWay(s, (p, k)), a, s.nodes[k].mem[a], t.nodes[k].mem[a]);
  }

  lemma OlderComesLast(owner: map<Addr, PeerId>, r: iset<State>, s: State, u: State, a: Addr, p: PeerId, q: PeerId,
                       k: PeerId, w: Byte)
                       returns (t: State)
    requires Closed(owner, r) && u in r && Pending(s, a, p, k) && Contested(s, u, a, p, q, k, w) && q != p
    requires a in s.nodes[p].pub && w != s.nodes[p].pub[a]
    ensures t in r && Diverged(t, a, p, q, k, s.nodes[p].pub[a], w)
  {
    ContestedEnds(s, u, a, p, q, k, w);
    t := u;
    if k != q {
      t := Empties(owner, r, u, (q, k), a);
      OlderWillCome(s, u, t, a, p, q, k, w);
      EmptyingKeepsEnds(u, t, (q, k), a, p, w, q);
      EmptyingKeepsUntwinned(u, t, (q, k), a);
    }
  }

  lemma Third(x: Byte, y: Byte) returns (w: Byte)
    ensures w != x && w != y
  {
    w := if x != 0 && y != 0 then 0 else if x != 1 && y != 1 then 1 else 2;
  }

  lemma TooEarly(owner: map<Addr, PeerId>, r: iset<State>, s: State, a: Addr, p: PeerId, q: PeerId) returns (t: State)
    requires Closed(owner, r) && s in r && HeldBy(s, a, p) && !Drained(s, p, a) && q in s.nodes && q != p
    requires a in owner && owner[a] == q
    ensures t in r && AtRest(t) && !Agree(t, a)
  {
    var m, k := GetsOnItsWay(owner, r, s, a, p, q);
    var n := AllPublish(owner, r, m, m.nodes.Keys, a, p, k);
    assert SoundAt(n, a, p, p) && SoundAt(n, a, p, q);
    var v := n.nodes[p].pub[a];
    var w := Third(v, n.nodes[q].pub[a]);
    var u := Overwrites(owner, r, n, a, p, q, k, w);
    var d := OlderComesLast(owner, r, n, u, a, p, q, k, w);
    t := AllEmpty(owner, r, d, d.sent.Keys, a, p, q, k, v, w);
    DivergedDisagrees(t, a, p, q, k, v, w);
  }

  /**
    A byte may be handed to another node, with all copies equal at rest whatever follows, if
    and only if its old owner has published it and no diff with it is on its way from there.
   */
  lemma HandoverExactlyWhenDrained(owner: map<Addr, PeerId>, members: set<PeerId>, zero: Contents, s: State, a: Addr, q: PeerId)
    requires Reachable(owner, members, zero, s) && a in zero && q in s.nodes && a in owner && q != owner[a]
    ensures Drained(s, owner[a], a) <==> AlwaysAgrees(owner[a := q], s, a)
  {
    ReachableInv(owner, members, zero, s);
    OwnerHolds(owner, zero, s, a);
    if Drained(s, owner[a], a) {
      InTime(owner, s, a, q);
    } else {
      var next := owner[a := q];
      ReachedIsClosed(next, s);
      var t := TooEarly(next, (iset u | Leads(next, s, u)), s, a, owner[a], q);
    }
  }

  lemma InTime(owner: map<Addr, PeerId>, s: State, a: Addr, q: PeerId)
    requires a in owner && HeldBy(s, a, owner[a]) && Drained(s, owner[a], a) && q in s.nodes
    ensures AlwaysAgrees(owner[a := q], s, a)
  {
    HandsOver(s, a, owner[a], q);
    var next := owner[a := q];
    forall t | Leads(next, s, t) && AtRest(t)
      ensures Agree(t, a)
    {
      var steps :| Run(next, s, steps) == Some(t);
      RunKeepsHeld(next, s, steps, t, a, q);
      RestAgrees(t, a, q);
    }
  }
}
