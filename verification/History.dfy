/**
  What is on a stream of SharedMemory, in terms of the steps that were taken: each part of it
  from its beginning on gives its receiver the sender's bytes as they were at one moment, and
  no notice comes before what was stored before it.
 */
module StreamHistory {
  import opened Options
  import opened Bytes
  import opened Addresses
  import opened SharedMemory

  lemma {:induction false} LastStoreOne(done: seq<Step>, step: Step, a: Addr, v: Byte)
    ensures LastStore(done + [step], a, v) == if step.Store? && step.a == a then step.v else LastStore(done, a, v)
  {
    if |done| == 0 {
      assert done + [step] == [step] && [step][1..] == [];
    } else {
      assert (done + [step])[1..] == done[1..] + [step];
      LastStoreOne(done[1..], step, a, if done[0].Store? && done[0].a == a then done[0].v else v);
    }
  }

  lemma {:induction false} NotifiesOne(done: seq<Step>, step: Step, p: PeerId)
    ensures Notifies(done + [step], p) == Notifies(done, p) + if step == Notify(p) then 1 else 0
  {
    if |done| == 0 {
      assert done + [step] == [step] && [step][1..] == [];
    } else {
      assert (done + [step])[1..] == done[1..] + [step];
      NotifiesOne(done[1..], step, p);
    }
  }

  lemma {:induction false} NoticesSplit(q: seq<Item>, r: seq<Item>)
    ensures Notices(q + r) == Notices(q) + Notices(r)
    decreases |r|
  {
    if |r| == 0 {
      assert q + r == q;
    } else {
      assert q + r == (q + r[..|r| - 1]) + [r[|r| - 1]];
      NoticesOne(q + r[..|r| - 1], r[|r| - 1]);
      NoticesSplit(q, r[..|r| - 1]);
    }
  }

  /** Who has handled q has p's bytes as they were after these steps, and not more of its notices. */
  ghost predicate AsOf(owner: map<Addr, PeerId>, zero: Contents, q: seq<Item>, p: PeerId, done: seq<Step>) {
    && Notices(q) <= Notifies(done, p)
    && forall a | a in zero && a in owner && owner[a] == p :: Replay(q, a, zero[a]) == LastStore(done, a, zero[a])
  }

  /** The first j items of q show p as it was at some moment. */
  ghost predicate CutAt(owner: map<Addr, PeerId>, zero: Contents, q: seq<Item>, p: PeerId, done: seq<Step>, j: nat)
    requires j <= |q|
  {
    exists k: nat :: k <= |done| && AsOf(owner, zero, q[..j], p, done[..k])
  }

  ghost predicate Cuts(owner: map<Addr, PeerId>, zero: Contents, q: seq<Item>, p: PeerId, done: seq<Step>) {
    forall j: nat | j <= |q| :: CutAt(owner, zero, q, p, done, j)
  }

  /** p's copy has what p stored, and its stream tells of that and of its notices. */
  ghost predicate Told(owner: map<Addr, PeerId>, zero: Contents, n: Node, q: seq<Item>, p: PeerId, done: seq<Step>) {
    && Cuts(owner, zero, q, p, done) && Notices(q) == Notifies(done, p)
    && forall a | a in zero && a in owner && owner[a] == p :: a in n.mem && n.mem[a] == LastStore(done, a, zero[a])
  }

  ghost predicate ToldAt(owner: map<Addr, PeerId>, zero: Contents, s: State, p: PeerId, i: PeerId, done: seq<Step>) {
    (p, i) in s.sent && p in s.nodes && Told(owner, zero, s.nodes[p], s.sent[(p, i)], p, done)
  }

  /** A cut stays a cut when more is done and more is sent. */
  lemma CutStays(owner: map<Addr, PeerId>, zero: Contents, q: seq<Item>, out: seq<Item>, p: PeerId, done: seq<Step>,
                 step: Step, j: nat)
    requires j <= |q| && CutAt(owner, zero, q, p, done, j)
    ensures CutAt(owner, zero, q + out, p, done + [step], j)
  {
    var k: nat :| k <= |done| && AsOf(owner, zero, q[..j], p, done[..k]);
    assert (done + [step])[..k] == done[..k] && (q + out)[..j] == q[..j];
  }

  /** The diff, if any, comes first: behind any part of the output the bytes are p's. */
  lemma OutputCatchesUp(n: Node, step: Step, q: seq<Item>, j: nat, a: Addr, v: Byte)
    requires a in n.mem && a in n.pub && (!n.twinned ==> n.mem == n.pub) && Replay(q, a, v) == n.pub[a]
    requires 0 < j <= |Output(n, step)|
    ensures Replay(q + Output(n, step)[..j], a, v) == n.mem[a]
  {
    var out := Output(n, step);
    ReplayOne(q, out[0], a, v);
    if j == 1 {
      assert out[..1] == [out[0]];
    } else {
      assert q + out[..2] == (q + [out[0]]) + [out[1]];
      ReplayOne(q + [out[0]], out[1], a, v);
    }
  }

  lemma OutputNotices(n: Node, step: Step)
    ensures Notices(Output(n, step)) == if step.Notify? then 1 else 0
  {
    var out := Publish(n).1;
    if n.twinned {
      assert out == [] + [out[0]];
      NoticesOne([], out[0]);
    }
    NoticesOne(out, Notice);
  }

  /** A new part of the stream shows p as it is now. */
  lemma NewCut(owner: map<Addr, PeerId>, zero: Contents, n: Node, q: seq<Item>, p: PeerId, done: seq<Step>, step: Step, j: nat)
    requires Told(owner, zero, n, q, p, done) && (!n.twinned ==> n.mem == n.pub)
    requires forall a | a in zero && a in owner && owner[a] == p :: a in n.pub && n.pub[a] == Replay(q, a, zero[a])
    requires (step == TxEnd(p) || step == Notify(p)) && 0 < j <= |Output(n, step)|
    ensures CutAt(owner, zero, q + Output(n, step), p, done + [step], |q| + j)
  {
    var out, now := Output(n, step), done + [step];
    assert (q + out)[..|q| + j] == q + out[..j] && now[..|now|] == now && out == out[..j] + out[j..];
    NoticesSplit(q, out[..j]);
    NoticesSplit(out[..j], out[j..]);
    OutputNotices(n, step);
    NotifiesOne(done, step, p);
    forall a | a in zero && a in owner && owner[a] == p
      ensures Replay(q + out[..j], a, zero[a]) == LastStore(now, a, zero[a])
    {
      OutputCatchesUp(n, step, q, j, a, zero[a]);
      LastStoreOne(done, step, a, zero[a]);
    }
    assert AsOf(owner, zero, (q + out)[..|q| + j], p, now[..|now|]);
  }

  /** Whatever is done, the stream goes on telling of p. */
  lemma ToldGoesOn(owner: map<Addr, PeerId>, zero: Contents, n: Node, n': Node, q: seq<Item>, p: PeerId,
                   done: seq<Step>, step: Step)
    requires Told(owner, zero, n, q, p, done) && (!n.twinned ==> n.mem == n.pub)
    requires forall a | a in zero && a in owner && owner[a] == p :: a in n.pub && n.pub[a] == Replay(q, a, zero[a])
    requires forall a | a in zero && a in owner && owner[a] == p ::
               a in n'.mem && n'.mem[a] == if step.Store? && step.a == a then step.v else n.mem[a]
    ensures var out := if step == TxEnd(p) || step == Notify(p) then Output(n, step) else [];
            Told(owner, zero, n', q + out, p, done + [step])
  {
    var out := if step == TxEnd(p) || step == Notify(p) then Output(n, step) else [];
    forall j: nat | j <= |q + out|
      ensures CutAt(owner, zero, q + out, p, done + [step], j)
    {
      if j <= |q| {
        CutStays(owner, zero, q, out, p, done, step, j);
      } else {
        NewCut(owner, zero, n, q, p, done, step, j - |q|);
      }
    }
    NoticesSplit(q, out);
    OutputNotices(n, step);
    NotifiesOne(done, step, p);
    forall a | a in zero && a in owner && owner[a] == p
      ensures n'.mem[a] == LastStore(done + [step], a, zero[a])
    {
      LastStoreOne(done, step, a, zero[a]);
    }
  }

  lemma StepKeepsTold(owner: map<Addr, PeerId>, zero: Contents, s: State, step: Step, p: PeerId, i: PeerId, done: seq<Step>)
    requires Inv(owner, zero, s) && Enabled(owner, s, step) && ToldAt(owner, zero, s, p, i, done)
    ensures ToldAt(owner, zero, Apply(owner, s, step), p, i, done + [step])
  {
    var n, q := s.nodes[p], s.sent[(p, i)];
    assert StreamAt(owner, zero, s, p, i) && NodeAt(owner, zero, s, p);
    forall a | a in zero && a in owner && owner[a] == p
      ensures a in n.pub && n.pub[a] == Replay(q, a, zero[a])
    {
      assert ByteInv(zero, a, n, s.nodes[i], q, s.got[(p, i)]);
    }
    forall a | a in zero && a in owner && owner[a] == p
      ensures var n' := Apply(owner, s, step).nodes[p];
              a in n'.mem && n'.mem[a] == if step.Store? && step.a == a then step.v else n.mem[a]
    {
      OwnerStores(owner, zero, s, step, a);
    }
    ToldGoesOn(owner, zero, n, Apply(owner, s, step).nodes[p], q, p, done, step);
    StreamGrows(owner, s, step, p, i);
  }

  lemma StreamGrows(owner: map<Addr, PeerId>, s: State, step: Step, p: PeerId, i: PeerId)
    requires Shape(s) && Enabled(owner, s, step) && (p, i) in s.sent
    ensures var t := Apply(owner, s, step);
            var out := if step == TxEnd(p) || step == Notify(p) then Output(s.nodes[p], step) else [];
            (p, i) in t.sent && p in t.nodes && t.sent[(p, i)] == s.sent[(p, i)] + out
  {
    assert s.sent[(p, i)] + [] == s.sent[(p, i)];
  }

  lemma {:induction false} RunKeepsTold(owner: map<Addr, PeerId>, zero: Contents, s: State, steps: seq<Step>, t: State,
                                        p: PeerId, i: PeerId, done: seq<Step>)
    requires Inv(owner, zero, s) && Run(owner, s, steps) == Some(t) && ToldAt(owner, zero, s, p, i, done)
    ensures ToldAt(owner, zero, t, p, i, done + steps)
    decreases |steps|
  {
    if |steps| == 0 {
      assert done + steps == done;
    } else {
      assert done + steps == (done + [steps[0]]) + steps[1..];
      StepKeepsTold(owner, zero, s, steps[0], p, i, done);
      StepKeepsInv(owner, zero, s, steps[0]);
      RunKeepsTold(owner, zero, Apply(owner, s, steps[0]), steps[1..], t, p, i, done + [steps[0]]);
    }
  }

  lemma StartTold(owner: map<Addr, PeerId>, members: set<PeerId>, zero: Contents, o: State, p: PeerId, i: PeerId)
    requires Initial(members, zero, o) && (p, i) in o.sent
    ensures ToldAt(owner, zero, o, p, i, [])
  {
    assert (p, i).0 == p;
    assert AsOf(owner, zero, o.sent[(p, i)][..0], p, [][..0]);
  }

  /** In every run each stream tells of its sender's steps, and of each notify exactly once. */
  lemma StreamsTell(owner: map<Addr, PeerId>, members: set<PeerId>, zero: Contents, o: State, steps: seq<Step>, s: State,
                    p: PeerId, i: PeerId)
    requires Reaches(owner, members, zero, o, steps, s) && p in s.nodes && i in s.nodes && p != i
    ensures ToldAt(owner, zero, s, p, i, steps)
  {
    InitialInv(owner, members, zero, o);
    RunKeepsShape(owner, o, steps, s);
    StartTold(owner, members, zero, o, p, i);
    RunKeepsTold(owner, zero, o, steps, s, p, i, []);
    assert [] + steps == steps;
  }

  lemma {:induction false} RunKeepsShape(owner: map<Addr, PeerId>, s: State, steps: seq<Step>, t: State)
    requires Shape(s) && Run(owner, s, steps) == Some(t)
    ensures Shape(t) && t.nodes.Keys == s.nodes.Keys
    decreases |steps|
  {
    if |steps| > 0 {
      StepKeepsShape(owner, s, steps[0]);
      RunKeepsShape(owner, Apply(owner, s, steps[0]), steps[1..], t);
    }
  }
}
