/**
  One round of a barrier: from the moment it is armed to the moment its wait may return.
  Notices handled before it was armed are forgotten, so only those handled since count.
 */
module BarrierRounds {
  import opened Options
  import opened Addresses
  import opened SharedMemory
  import opened StreamHistory

  /** edsm_barrier_wait returns (src/dobj/barrier.c:38-42). */
  ghost predicate CanPass(n: Node) {
    n.awaited == multiset{}
  }

  /** i does not arm its barrier again. */
  ghost predicate NotArmed(steps: seq<Step>, i: PeerId) {
    forall k | 0 <= k < |steps| :: !(steps[k].Arm? && steps[k].i == i)
  }

  /** What i has counted of o in a round that began when it had handled `base` items of o's stream. */
  ghost predicate RoundAt(t: State, i: PeerId, o: PeerId, base: nat, ids: multiset<PeerId>) {
    && (o, i) in t.sent && (o, i) in t.got && i in t.nodes && t.nodes[i].armed == ids
    && base <= t.got[(o, i)] <= |t.sent[(o, i)]|
    && t.nodes[i].counted[o] == Notices(t.sent[(o, i)][base..t.got[(o, i)]])
  }

  /** Of i itself it has counted `own`, and of strangers nothing. */
  ghost predicate CountsNoOther(t: State, i: PeerId, own: nat, ids: multiset<PeerId>) {
    && i in t.nodes && t.nodes[i].counted[i] == own && t.nodes[i].armed == ids
    && forall o | o !in t.nodes :: t.nodes[i].counted[o] == 0
  }

  /** The next item of o reaches i. */
  lemma RecvKeepsRound(owner: map<Addr, PeerId>, t: State, i: PeerId, o: PeerId, base: nat, ids: multiset<PeerId>)
    requires Shape(t) && Enabled(owner, t, Recv(o, i)) && RoundAt(t, i, o, base, ids)
    ensures RoundAt(Apply(owner, t, Recv(o, i)), i, o, base, ids)
  {
    var q, got := t.sent[(o, i)], t.got[(o, i)];
    assert q[base..got + 1] == q[base..got] + [q[got]];
    NoticesOne(q[base..got], q[got]);
  }

  lemma StepKeepsRound(owner: map<Addr, PeerId>, t: State, step: Step, i: PeerId, o: PeerId, base: nat, ids: multiset<PeerId>)
    requires Shape(t) && Enabled(owner, t, step) && !(step.Arm? && step.i == i) && RoundAt(t, i, o, base, ids)
    ensures RoundAt(Apply(owner, t, step), i, o, base, ids)
  {
    if step == Recv(o, i) {
      RecvKeepsRound(owner, t, i, o, base, ids);
    } else {
      OtherKeepsCount(owner, t, step, i, o);
      var q', got := Apply(owner, t, step).sent[(o, i)], t.got[(o, i)];
      assert q'[base..got] == t.sent[(o, i)][base..got];
    }
  }

  /** What i has counted of o is the same, and o's stream may have grown. */
  ghost predicate SameCount(t: State, t': State, i: PeerId, o: PeerId) {
    && t'.got.Keys == t.got.Keys && ((o, i) in t.got ==> t'.got[(o, i)] == t.got[(o, i)])
    && i in t.nodes && i in t'.nodes && t'.nodes[i].counted[o] == t.nodes[i].counted[o] && t'.nodes[i].armed == t.nodes[i].armed
    && (o, i) in t.sent && (o, i) in t'.sent && t.sent[(o, i)] <= t'.sent[(o, i)]
  }

  lemma OtherRecvKeepsCount(owner: map<Addr, PeerId>, t: State, x: PeerId, y: PeerId, i: PeerId, o: PeerId)
    requires Shape(t) && Enabled(owner, t, Recv(x, y)) && (x, y) != (o, i) && (o, i) in t.sent
    ensures SameCount(t, Apply(owner, t, Recv(x, y)), i, o)
  {
  }

  /** Nothing else changes what i has counted of o. */
  lemma OtherKeepsCount(owner: map<Addr, PeerId>, t: State, step: Step, i: PeerId, o: PeerId)
    requires Shape(t) && Enabled(owner, t, step) && !(step.Arm? && step.i == i) && step != Recv(o, i) && (o, i) in t.sent
    ensures SameCount(t, Apply(owner, t, step), i, o)
  {
    if step.Recv? {
      OtherRecvKeepsCount(owner, t, step.from, step.to, i, o);
    }
  }

  lemma StepCountsNoOther(owner: map<Addr, PeerId>, t: State, step: Step, i: PeerId, own: nat, ids: multiset<PeerId>)
    requires Shape(t) && Enabled(owner, t, step) && !(step.Arm? && step.i == i) && CountsNoOther(t, i, own, ids)
    ensures CountsNoOther(Apply(owner, t, step), i, if step == Notify(i) then own + 1 else own, ids)
  {
    if step.Recv? {
      assert (step.from, step.to) in t.sent;
    }
  }

  lemma {:induction false} RunKeepsRound(owner: map<Addr, PeerId>, t: State, steps: seq<Step>, u: State, i: PeerId, o: PeerId,
                                         base: nat, ids: multiset<PeerId>)
    requires Shape(t) && Run(owner, t, steps) == Some(u) && NotArmed(steps, i) && RoundAt(t, i, o, base, ids)
    ensures RoundAt(u, i, o, base, ids)
    decreases |steps|
  {
    if |steps| > 0 {
      StepKeepsShape(owner, t, steps[0]);
      StepKeepsRound(owner, t, steps[0], i, o, base, ids);
      RunKeepsRound(owner, Apply(owner, t, steps[0]), steps[1..], u, i, o, base, ids);
    }
  }

  lemma {:induction false} RunCountsNoOther(owner: map<Addr, PeerId>, t: State, steps: seq<Step>, u: State, i: PeerId,
                                            own: nat, ids: multiset<PeerId>)
    requires Shape(t) && Run(owner, t, steps) == Some(u) && NotArmed(steps, i) && CountsNoOther(t, i, own, ids)
    ensures Shape(u) && u.nodes.Keys == t.nodes.Keys && CountsNoOther(u, i, own + Notifies(steps, i), ids)
    decreases |steps|
  {
    if |steps| > 0 {
      StepKeepsShape(owner, t, steps[0]);
      StepCountsNoOther(owner, t, steps[0], i, own, ids);
      RunCountsNoOther(owner, Apply(owner, t, steps[0]), steps[1..], u, i,
                       if steps[0] == Notify(i) then own + 1 else own, ids);
    }
  }

  /**
    A round: the steps `before` lead from the start to s, i arms its barrier with ids there, and
    the steps lead on to t without arming it again.
   */
  ghost predicate Round(owner: map<Addr, PeerId>, members: set<PeerId>, zero: Contents, start: State, before: seq<Step>,
                        s: State, i: PeerId, ids: multiset<PeerId>, steps: seq<Step>, t: State) {
    && Reaches(owner, members, zero, start, before, s) && i in s.nodes && NotArmed(steps, i)
    && Run(owner, Apply(owner, s, Arm(i, ids)), steps) == Some(t)
  }

  /** The notices of o that i has handled since it armed its barrier in s. */
  ghost function Since(s: State, t: State, i: PeerId, steps: seq<Step>, o: PeerId): nat {
    if o == i then Notifies(steps, i)
    else if (o, i) in t.sent && (o, i) in s.got && (o, i) in t.got && s.got[(o, i)] <= t.got[(o, i)] <= |t.sent[(o, i)]|
    then Notices(t.sent[(o, i)][s.got[(o, i)]..t.got[(o, i)]])
    else 0
  }

  lemma RoundCounts(owner: map<Addr, PeerId>, members: set<PeerId>, zero: Contents, start: State,
                    before: seq<Step>, s: State, i: PeerId, ids: multiset<PeerId>, steps: seq<Step>, t: State, o: PeerId)
    requires Round(owner, members, zero, start, before, s, i, ids, steps, t)
    ensures i in t.nodes && t.nodes[i].armed == ids && t.nodes[i].counted[o] == Since(s, t, i, steps, o)
    ensures o in t.nodes && o != i ==> (o, i) in s.got && RoundAt(t, i, o, s.got[(o, i)], ids)
  {
    assert Reachable(owner, members, zero, s);
    ReachableInv(owner, members, zero, s);
    var armed := Apply(owner, s, Arm(i, ids));
    StepKeepsShape(owner, s, Arm(i, ids));
    RunCountsNoOther(owner, armed, steps, t, i, 0, ids);
    if o in t.nodes && o != i {
      assert StreamAt(owner, zero, s, o, i);
      var base := s.got[(o, i)];
      assert s.sent[(o, i)][base..base] == [];
      RunKeepsRound(owner, armed, steps, t, i, o, base, ids);
    } else if o != i {
      assert (o, i) !in t.sent;
    }
  }

  lemma RoundInv(owner: map<Addr, PeerId>, members: set<PeerId>, zero: Contents, start: State,
                 before: seq<Step>, s: State, i: PeerId, ids: multiset<PeerId>, steps: seq<Step>, t: State)
    requires Round(owner, members, zero, start, before, s, i, ids, steps, t)
    ensures Inv(owner, zero, t)
  {
    assert Reachable(owner, members, zero, s);
    ReachableInv(owner, members, zero, s);
    StepKeepsInv(owner, zero, s, Arm(i, ids));
    RunKeepsInv(owner, zero, Apply(owner, s, Arm(i, ids)), steps);
  }

  /**
    The wait may return if and only if, since the barrier was armed, each id has been
    heard of as often as it was armed with. What was handled before is of no use.
   */
  lemma PassesExactly(owner: map<Addr, PeerId>, members: set<PeerId>, zero: Contents, start: State,
                      before: seq<Step>, s: State, i: PeerId, ids: multiset<PeerId>, steps: seq<Step>, t: State)
    requires Round(owner, members, zero, start, before, s, i, ids, steps, t)
    ensures i in t.nodes
    ensures CanPass(t.nodes[i]) <==> forall o :: ids[o] <= Since(s, t, i, steps, o)
  {
    RoundCounts(owner, members, zero, start, before, s, i, ids, steps, t, i);
    RoundInv(owner, members, zero, start, before, s, i, ids, steps, t);
    assert NodeAt(owner, zero, t, i);
    var n := t.nodes[i];
    forall o: PeerId
      ensures n.counted[o] == Since(s, t, i, steps, o)
              && n.awaited[o] == if ids[o] > n.counted[o] then ids[o] - n.counted[o] else 0
    {
      RoundCounts(owner, members, zero, start, before, s, i, ids, steps, t, o);
    }
    if forall o :: ids[o] <= Since(s, t, i, steps, o) {
      assert forall o :: n.awaited[o] == 0;
    } else {
      var o: PeerId :| ids[o] > Since(s, t, i, steps, o);
      assert n.awaited[o] > 0;
    }
  }

  // ---- what the waiter's copy is then ----

  lemma {:induction false} RunJoins(owner: map<Addr, PeerId>, s: State, steps: seq<Step>, m: State, more: seq<Step>, t: State)
    requires Run(owner, s, steps) == Some(m) && Run(owner, m, more) == Some(t)
    ensures Run(owner, s, steps + more) == Some(t)
    decreases |steps|
  {
    if |steps| == 0 {
      assert steps + more == more;
    } else {
      assert (steps + more)[0] == steps[0] && (steps + more)[1..] == steps[1..] + more;
      RunJoins(owner, Apply(owner, s, steps[0]), steps[1..], m, more, t);
    }
  }

  /** All the steps up to the end of the round. */
  ghost function AllSteps(before: seq<Step>, i: PeerId, ids: multiset<PeerId>, steps: seq<Step>): seq<Step> {
    before + ([Arm(i, ids)] + steps)
  }

  lemma RoundReaches(owner: map<Addr, PeerId>, members: set<PeerId>, zero: Contents, start: State, before: seq<Step>,
                     s: State, i: PeerId, ids: multiset<PeerId>, steps: seq<Step>, t: State)
    requires Round(owner, members, zero, start, before, s, i, ids, steps, t)
    ensures Reaches(owner, members, zero, start, AllSteps(before, i, ids, steps), t) && t.nodes.Keys == s.nodes.Keys
  {
    var arm := [Arm(i, ids)] + steps;
    assert arm[0] == Arm(i, ids) && arm[1..] == steps;
    RunJoins(owner, start, before, s, arm, t);
    RunKeepsShape(owner, start, before, s);
    RunKeepsShape(owner, s, arm, t);
  }

  /** The notices of o that i had handled before. */
  ghost function Heard(s: State, i: PeerId, o: PeerId): nat {
    if (o, i) in s.sent && (o, i) in s.got && s.got[(o, i)] <= |s.sent[(o, i)]|
    then Notices(s.sent[(o, i)][..s.got[(o, i)]]) else 0
  }

  /** mem has o's bytes as they were after these steps. */
  ghost predicate BytesAsOf(owner: map<Addr, PeerId>, zero: Contents, mem: Contents, o: PeerId, done: seq<Step>) {
    forall a | a in zero && a in owner && owner[a] == o :: a in mem && mem[a] == LastStore(done, a, zero[a])
  }

  /** mem has o's bytes as they all were at one moment, by which o had notified so often. */
  ghost predicate MergedFrom(owner: map<Addr, PeerId>, zero: Contents, mem: Contents, o: PeerId, all: seq<Step>, notices: nat) {
    exists k: nat :: k <= |all| && notices <= Notifies(all[..k], o) && BytesAsOf(owner, zero, mem, o, all[..k])
  }

  /** i's copy of o's bytes is as the part of the stream that it has handled tells. */
  lemma CopyIsMoment(owner: map<Addr, PeerId>, members: set<PeerId>, zero: Contents, start: State, all: seq<Step>, t: State,
                     i: PeerId, o: PeerId)
    requires Reaches(owner, members, zero, start, all, t) && i in t.nodes && o in t.nodes && o != i
    ensures MergedFrom(owner, zero, t.nodes[i].mem, o, all, Heard(t, i, o))
  {
    assert Reachable(owner, members, zero, t);
    ReachableInv(owner, members, zero, t);
    StreamsTell(owner, members, zero, start, all, t, o, i);
    assert StreamAt(owner, zero, t, o, i);
    var q, got := t.sent[(o, i)], t.got[(o, i)];
    assert CutAt(owner, zero, q, o, all, got);
    var k: nat :| k <= |all| && AsOf(owner, zero, q[..got], o, all[..k]);
    forall a | a in zero && a in owner && owner[a] == o
      ensures a in t.nodes[i].mem && t.nodes[i].mem[a] == LastStore(all[..k], a, zero[a])
    {
      assert ByteInv(zero, a, t.nodes[o], t.nodes[i], q, got);
    }
  }

  lemma {:induction false} RunGrowsStream(owner: map<Addr, PeerId>, s: State, steps: seq<Step>, t: State, c: Channel)
    requires Shape(s) && Run(owner, s, steps) == Some(t) && c in s.sent
    ensures c in t.sent && s.sent[c] <= t.sent[c]
    decreases |steps|
  {
    if |steps| > 0 {
      StepKeepsShape(owner, s, steps[0]);
      StreamGrows(owner, s, steps[0], c.0, c.1);
      assert c == (c.0, c.1);
      RunGrowsStream(owner, Apply(owner, s, steps[0]), steps[1..], t, c);
    }
  }

  /** What i has handled of o is what it had handled before and what it has handled since. */
  lemma HeardSince(owner: map<Addr, PeerId>, members: set<PeerId>, zero: Contents, start: State, before: seq<Step>,
                   s: State, i: PeerId, ids: multiset<PeerId>, steps: seq<Step>, t: State, o: PeerId)
    requires Round(owner, members, zero, start, before, s, i, ids, steps, t) && o in t.nodes && o != i
    ensures Heard(t, i, o) == Heard(s, i, o) + Since(s, t, i, steps, o)
  {
    RoundCounts(owner, members, zero, start, before, s, i, ids, steps, t, o);
    RunKeepsShape(owner, start, before, s);
    StepKeepsShape(owner, s, Arm(i, ids));
    RunKeepsShape(owner, Apply(owner, s, Arm(i, ids)), steps, t);
    RunGrowsStream(owner, Apply(owner, s, Arm(i, ids)), steps, t, (o, i));
    assert Reachable(owner, members, zero, s);
    ReachableInv(owner, members, zero, s);
    assert StreamAt(owner, zero, s, o, i);
    var q, base, got := t.sent[(o, i)], s.got[(o, i)], t.got[(o, i)];
    assert q[..got] == q[..base] + q[base..got] && q[..base] == s.sent[(o, i)][..base];
    NoticesSplit(q[..base], q[base..got]);
  }

  /**
    A waiter that may pass has, of every other node it armed with, all bytes as they were at one
    moment; and by that moment the node had notified as often as the waiter had heard of
    before it armed and, on top of that, as often as it armed with.
   */
  lemma BarrierMerges(owner: map<Addr, PeerId>, members: set<PeerId>, zero: Contents, start: State, before: seq<Step>,
                      s: State, i: PeerId, ids: multiset<PeerId>, steps: seq<Step>, t: State)
    requires Round(owner, members, zero, start, before, s, i, ids, steps, t) && i in t.nodes && CanPass(t.nodes[i])
    ensures forall o | o in ids && o != i ::
              MergedFrom(owner, zero, t.nodes[i].mem, o, AllSteps(before, i, ids, steps), Heard(s, i, o) + ids[o])
  {
    PassesExactly(owner, members, zero, start, before, s, i, ids, steps, t);
    RoundReaches(owner, members, zero, start, before, s, i, ids, steps, t);
    var all := AllSteps(before, i, ids, steps);
    forall o | o in ids && o != i
      ensures MergedFrom(owner, zero, t.nodes[i].mem, o, all, Heard(s, i, o) + ids[o])
    {
      assert ids[o] <= Since(s, t, i, steps, o) && (o, i) in t.sent;
      RunKeepsShape(owner, start, all, t);
      HeardSince(owner, members, zero, start, before, s, i, ids, steps, t, o);
      CopyIsMoment(owner, members, zero, start, all, t, i, o);
      MergedEarlier(owner, zero, t.nodes[i].mem, o, all, Heard(t, i, o), Heard(s, i, o) + ids[o]);
    }
  }

  lemma MergedEarlier(owner: map<Addr, PeerId>, zero: Contents, mem: Contents, o: PeerId, all: seq<Step>, m: nat, n: nat)
    requires MergedFrom(owner, zero, mem, o, all, m) && n <= m
    ensures MergedFrom(owner, zero, mem, o, all, n)
  {
    var k: nat :| k <= |all| && m <= Notifies(all[..k], o) && BytesAsOf(owner, zero, mem, o, all[..k]);
    assert n <= Notifies(all[..k], o);
  }

  lemma {:induction false} NotifiesSplit(a: seq<Step>, b: seq<Step>, p: PeerId)
    ensures Notifies(a + b, p) == Notifies(a, p) + Notifies(b, p)
  {
    if |a| == 0 {
      assert a + b == b;
    } else {
      assert (a + b)[0] == a[0] && (a + b)[1..] == a[1..] + b;
      NotifiesSplit(a[1..], b, p);
    }
  }

  /** Of o's notices i has handled at most all, and all of them when everything has been handled. */
  lemma HeardOf(owner: map<Addr, PeerId>, members: set<PeerId>, zero: Contents, start: State, done: seq<Step>, s: State,
                i: PeerId, o: PeerId)
    requires Reaches(owner, members, zero, start, done, s) && i in s.nodes && o in s.nodes && o != i
    ensures Heard(s, i, o) <= Notifies(done, o) && (Quiet(s) ==> Heard(s, i, o) == Notifies(done, o))
  {
    StreamsTell(owner, members, zero, start, done, s, o, i);
    assert Reachable(owner, members, zero, s);
    ReachableInv(owner, members, zero, s);
    assert StreamAt(owner, zero, s, o, i);
    var q, got := s.sent[(o, i)], s.got[(o, i)];
    assert q == q[..got] + q[got..];
    NoticesSplit(q[..got], q[got..]);
  }

  lemma StepsAfter(before: seq<Step>, i: PeerId, ids: multiset<PeerId>, steps: seq<Step>, o: PeerId)
    ensures Notifies(AllSteps(before, i, ids, steps), o) == Notifies(before, o) + Notifies(steps, o)
  {
    NotifiesSplit(before, [Arm(i, ids)] + steps, o);
    assert ([Arm(i, ids)] + steps)[1..] == steps;
  }

  /** When everything that was sent has been handled, every notify since arming has been counted. */
  lemma QuietCounts(owner: map<Addr, PeerId>, members: set<PeerId>, zero: Contents, start: State, before: seq<Step>,
                    s: State, i: PeerId, ids: multiset<PeerId>, steps: seq<Step>, t: State, o: PeerId)
    requires Round(owner, members, zero, start, before, s, i, ids, steps, t) && o in t.nodes && Quiet(t)
    ensures Since(s, t, i, steps, o) >= Notifies(steps, o)
  {
    if o != i {
      RoundReaches(owner, members, zero, start, before, s, i, ids, steps, t);
      HeardOf(owner, members, zero, start, before, s, i, o);
      HeardOf(owner, members, zero, start, AllSteps(before, i, ids, steps), t, i, o);
      HeardSince(owner, members, zero, start, before, s, i, ids, steps, t, o);
      StepsAfter(before, i, ids, steps, o);
    }
  }

  /** A barrier does let its waiter go: when all ids have notified often enough and all is handled, the wait returns. */
  lemma PassesInTheEnd(owner: map<Addr, PeerId>, members: set<PeerId>, zero: Contents, start: State, before: seq<Step>,
                       s: State, i: PeerId, ids: multiset<PeerId>, steps: seq<Step>, t: State)
    requires Round(owner, members, zero, start, before, s, i, ids, steps, t) && Quiet(t)
    requires forall o | o in ids :: o in t.nodes && ids[o] <= Notifies(steps, o)
    ensures i in t.nodes && CanPass(t.nodes[i])
  {
    PassesExactly(owner, members, zero, start, before, s, i, ids, steps, t);
    forall o: PeerId
      ensures ids[o] <= Since(s, t, i, steps, o)
    {
      if o in ids {
        QuietCounts(owner, members, zero, start, before, s, i, ids, steps, t, o);
      }
    }
  }
}
