/**
  What every run of the mutex keeps, for any number of nodes, when a reply is
  received by its addressee only: mutual exclusion and conservation of requests.
 */
module MutexSafety {
  import opened Options
  import opened Sorting
  import opened MutexNode
  import opened MutexNetwork

  /** j has answered the pending request of a, whether or not the reply has arrived. */
  ghost predicate Granted(a: Node, j: PeerId, back: seq<Msg>) {
    a.request.Some? && (a.waitOn[j] == 0 || ReplyCount(back) > 0)
  }

  ghost predicate NodeInv(members: set<PeerId>, i: PeerId, n: Node) {
    && (n.request.Some? ==> n.request.value.peer == i)
    && (n.request.None? || n.inside ==> n.waitOn == multiset{})
    && (n.inside ==> n.request.Some?)
    && n.waitOn <= multiset(members - {i})
    && (forall e | e in n.deferred :: e.peer in members && e.peer != i)
  }

  /**
    What has become of i's request at j: a and b are the two nodes, `out` is the
    channel from i to j and `back` the channel from j to i.
   */
  ghost predicate PairInv(i: PeerId, j: PeerId, a: Node, b: Node, out: seq<Msg>, back: seq<Msg>) {
    // conservation: it is in the channel, deferred at j, or answered in the channel back
    && Requests(out) + Entries(b.deferred, i) + ReplyCount(back) == a.waitOn[j]
    && (forall m | m in out :: !m.Unknown? && (m.Req? ==> a.request == Some(Request(m.time, i))))
    // j defers only what its own request precedes
    && (forall e | e in b.deferred && e.peer == i ::
          a.request == Some(e) && b.request.Some? && Before(b.request.value, e) && e.time < b.time)
    // once j has answered, i precedes whatever j requests
    && (Granted(a, j, back) ==>
          && a.request.value.time < b.time
          && (b.request.Some? ==> Before(a.request.value, b.request.value)))
  }

  ghost predicate NodeAt(s: State, i: PeerId) {
    i in s.nodes && NodeInv(s.nodes.Keys, i, s.nodes[i])
  }

  ghost predicate PairAt(s: State, i: PeerId, j: PeerId) {
    && i in s.nodes && j in s.nodes && (i, j) in s.chan && (j, i) in s.chan
    && PairInv(i, j, s.nodes[i], s.nodes[j], s.chan[(i, j)], s.chan[(j, i)])
  }

  ghost predicate Inv(s: State) {
    && Shape(s)
    && (forall i {:trigger NodeAt(s, i)} | i in s.nodes :: NodeAt(s, i))
    && (forall i, j {:trigger PairAt(s, i, j)} | (i, j) in s.chan :: PairAt(s, i, j))
  }

  lemma InitialInv(members: set<PeerId>, o: State)
    requires Initial(members, o)
    ensures Inv(o)
  {
  }

  /** A node inside precedes every other request. */
  lemma InsidePrecedes(s: State, i: PeerId, j: PeerId)
    requires Inv(s) && i in s.nodes && j in s.nodes && i != j
    requires s.nodes[i].inside
    ensures s.nodes[i].request.Some?
    ensures s.nodes[j].request.Some? ==> Before(s.nodes[i].request.value, s.nodes[j].request.value)
  {
    assert NodeAt(s, i) && PairAt(s, i, j);
  }

  lemma InvExcludes(s: State)
    requires Inv(s)
    ensures MutualExclusion(s)
  {
    forall i, j | i in s.nodes && j in s.nodes && i != j && s.nodes[i].inside
      ensures !s.nodes[j].inside
    {
      assert NodeAt(s, j);
      InsidePrecedes(s, i, j);
      if s.nodes[j].inside {
        InsidePrecedes(s, j, i);
      }
    }
  }

  // ---- counting lemmas ----

  lemma {:induction false} NoRequests(q: seq<Msg>)
    requires Requests(q) == 0
    ensures forall m | m in q :: !m.Req?
  {
    if |q| > 0 {
      NoRequests(q[1..]);
    }
  }

  lemma {:induction false} NoEntries(d: seq<Request>, i: PeerId)
    ensures Entries(d, i) == 0 <==> forall e | e in d :: e.peer != i
  {
    if |d| > 0 {
      NoEntries(d[1..], i);
      assert forall e :: e in d <==> e == d[0] || e in d[1..];
    }
  }

  lemma {:induction false} EntriesAppend(d: seq<Request>, x: Request, i: PeerId)
    ensures Entries(d + [x], i) == Entries(d, i) + if x.peer == i then 1 else 0
  {
    if |d| > 0 {
      assert (d + [x])[1..] == d[1..] + [x];
      EntriesAppend(d[1..], x, i);
    }
  }

  lemma {:induction false} EntriesInsert(x: Request, d: seq<Request>, i: PeerId)
    ensures Entries(Insert(RequestComp, x, d), i) == Entries([x] + d, i)
  {
    if |d| > 0 && RequestComp(x, d[0]) > 0 {
      EntriesInsert(x, d[1..], i);
      var r := Insert(RequestComp, x, d[1..]);
      assert ([d[0]] + r)[1..] == r;
      assert ([x] + d)[1..] == d && ([x] + d[1..])[1..] == d[1..];
    }
  }

  lemma {:induction false} EntriesSort(d: seq<Request>, i: PeerId)
    ensures Entries(StableSort(RequestComp, d), i) == Entries(d, i)
  {
    if |d| > 0 {
      EntriesSort(d[1..], i);
      var r := StableSort(RequestComp, d[1..]);
      EntriesInsert(d[0], r, i);
      assert ([d[0]] + r)[1..] == r;
    }
  }

  /** Deferring a request adds that entry and no other. */
  lemma DeferAdds(d: seq<Request>, x: Request, i: PeerId)
    ensures var d' := StableSort(RequestComp, d + [x]);
            && Entries(d', i) == Entries(d, i) + (if x.peer == i then 1 else 0)
            && forall e :: e in d' <==> e in d || e == x
  {
    EntriesAppend(d, x, i);
    EntriesSort(d + [x], i);
    StableSortPermutes(RequestComp, d + [x]);
    var d' := StableSort(RequestComp, d + [x]);
    forall e
      ensures e in d' <==> e in d || e == x
    {
      assert e in d' <==> e in multiset(d');
      assert e in d + [x] <==> e in multiset(d + [x]);
    }
  }

  /** Unlock answers each deferred entry once. */
  lemma {:induction false} StreamOfReplies(time: nat, d: seq<Request>, k: PeerId)
    decreases |d|
    ensures var q := Stream(Addressed, Replies(time, d), k);
            && Requests(q) == 0
            && ReplyCount(q) == Entries(d, k)
            && forall m | m in q :: m.Rep?
  {
    if |d| > 0 {
      var e := Envelope(Peer(d[0].peer), Rep(time + 1));
      assert Replies(time, d)[1..] == Replies(time + 1, d[1..]);
      StreamOfReplies(time + 1, d[1..], k);
      var q := Stream(Addressed, Replies(time + 1, d[1..]), k);
      if d[0].peer == k {
        assert ([e.msg] + q)[1..] == q;
      } else {
        assert [] + q == q;
      }
    }
  }

  lemma StreamOfOne(mode: Addressing, e: Envelope, k: PeerId)
    ensures Stream(mode, [e], k) == if Reaches(mode, e.dest, k) then [e.msg] else []
  {
    assert [e][1..] == [];
  }

  // ---- every step keeps the invariant ----

  /** A node that locks: its requests are now in every channel out of it. */
  lemma LockRequester(i: PeerId, j: PeerId, a: Node, b: Node, out: seq<Msg>, back: seq<Msg>, peers: multiset<PeerId>)
    requires PairInv(i, j, a, b, out, back) && a.request.None? && a.waitOn == multiset{} && peers[j] == 1
    ensures var (a', envs) := OnLock(a, i, peers);
            PairInv(i, j, a', b, out + Stream(Addressed, envs, j), back)
  {
    var (a', envs) := OnLock(a, i, peers);
    var q := Stream(Addressed, envs, j);
    StreamOfOne(Addressed, envs[0], j);
    assert q == [envs[0].msg];
    assert q[1..] == [];
    CountsAppend(out, q);
    NoRequests(out);
    NoEntries(b.deferred, i);
  }

  /** A node that locks after it has answered i is behind i. */
  lemma LockGranter(i: PeerId, j: PeerId, a: Node, b: Node, out: seq<Msg>, back: seq<Msg>, peers: multiset<PeerId>)
    requires PairInv(i, j, a, b, out, back) && b.request.None?
    ensures var (b', envs) := OnLock(b, j, peers);
            PairInv(i, j, a, b', out, back + Stream(Addressed, envs, i))
  {
    var (b', envs) := OnLock(b, j, peers);
    var q := Stream(Addressed, envs, i);
    StreamOfOne(Addressed, envs[0], i);
    assert q == [envs[0].msg];
    assert q[1..] == [];
    CountsAppend(back, q);
  }

  lemma StepKeepsShape(mode: Addressing, s: State, step: Step)
    requires Shape(s) && Enabled(s, step)
    ensures Shape(Apply(mode, s, step)) && Apply(mode, s, step).nodes.Keys == s.nodes.Keys
  {
  }

  lemma LockKeepsPairs(s: State, x: PeerId, i: PeerId, j: PeerId)
    requires Inv(s) && Enabled(s, Lock(x)) && (i, j) in s.chan
    ensures var s' := Apply(Addressed, s, Lock(x));
            PairAt(s', i, j)
  {
    assert PairAt(s, i, j) && NodeAt(s, i) && NodeAt(s, j);
    var out, back := s.chan[(i, j)], s.chan[(j, i)];
    if i == x {
      LockRequester(i, j, s.nodes[i], s.nodes[j], out, back, Others(s, x));
    } else if j == x {
      LockGranter(i, j, s.nodes[i], s.nodes[j], out, back, Others(s, x));
    }
  }

  lemma LockKeepsInv(s: State, x: PeerId)
    requires Inv(s) && Enabled(s, Lock(x))
    ensures Inv(Apply(Addressed, s, Lock(x)))
  {
    var s' := Apply(Addressed, s, Lock(x));
    StepKeepsShape(Addressed, s, Lock(x));
    forall i | i in s'.nodes
      ensures NodeAt(s', i)
    {
      assert NodeAt(s, i);
    }
    forall i, j | (i, j) in s'.chan
      ensures PairAt(s', i, j)
    {
      LockKeepsPairs(s, x, i, j);
    }
  }

  /** The requester hears from j itself. */
  lemma RecvRequester(i: PeerId, j: PeerId, a: Node, b: Node, out: seq<Msg>, back: seq<Msg>)
    requires PairInv(i, j, a, b, out, back) && |back| > 0
    ensures var (a', envs) := OnMessage(a, j, back[0]);
            PairInv(i, j, a', b, out + Stream(Addressed, envs, j), back[1..])
  {
    var envs := OnMessage(a, j, back[0]).1;
    if |envs| == 1 {
      RequesterAnswers(i, j, a, b, out, back);
    } else {
      assert out + [] == out;
    }
  }

  lemma RequesterAnswers(i: PeerId, j: PeerId, a: Node, b: Node, out: seq<Msg>, back: seq<Msg>)
    requires PairInv(i, j, a, b, out, back) && |back| > 0 && |OnMessage(a, j, back[0]).1| == 1
    ensures var (a', envs) := OnMessage(a, j, back[0]);
            PairInv(i, j, a', b, out + Stream(Addressed, envs, j), back[1..])
  {
    var envs := OnMessage(a, j, back[0]).1;
    var q := Stream(Addressed, envs, j);
    StreamOfOne(Addressed, envs[0], j);
    assert q == [envs[0].msg];
    assert q[1..] == [];
    CountsAppend(out, q);
  }

  /** The requester hears from a third node. */
  lemma RecvRequesterOther(i: PeerId, j: PeerId, a: Node, b: Node, out: seq<Msg>, back: seq<Msg>, from: PeerId, m: Msg)
    requires PairInv(i, j, a, b, out, back) && from != j
    ensures var (a', envs) := OnMessage(a, from, m);
            PairInv(i, j, a', b, out + Stream(Addressed, envs, j), back)
  {
    var (a', envs) := OnMessage(a, from, m);
    if |envs| == 1 {
      StreamOfOne(Addressed, envs[0], j);
    }
    assert out + [] == out;
  }

  /** The granter takes the next message of i: it answers or defers a request. */
  lemma RecvGranter(i: PeerId, j: PeerId, a: Node, b: Node, out: seq<Msg>, back: seq<Msg>)
    requires PairInv(i, j, a, b, out, back) && |out| > 0 && i != j
    requires b.request.Some? ==> b.request.value.peer == j
    ensures var (b', envs) := OnMessage(b, i, out[0]);
            PairInv(i, j, a, b', out[1..], back + Stream(Addressed, envs, i))
  {
    var m := out[0];
    if m.Req? && !MustDefer(b, Request(m.time, i)) {
      GranterAnswers(i, j, a, b, out, back);
    } else {
      assert back + [] == back;
      if m.Req? {
        DeferAdds(b.deferred, Request(m.time, i), i);
      }
    }
  }

  lemma GranterAnswers(i: PeerId, j: PeerId, a: Node, b: Node, out: seq<Msg>, back: seq<Msg>)
    requires PairInv(i, j, a, b, out, back) && |out| > 0 && i != j && out[0].Req? && !MustDefer(b, Request(out[0].time, i))
    requires b.request.Some? ==> b.request.value.peer == j
    ensures var (b', envs) := OnMessage(b, i, out[0]);
            PairInv(i, j, a, b', out[1..], back + Stream(Addressed, envs, i))
  {
    var (b', envs) := OnMessage(b, i, out[0]);
    var q := Stream(Addressed, envs, i);
    StreamOfOne(Addressed, envs[0], i);
    assert q == [envs[0].msg];
    assert q[1..] == [];
    CountsAppend(back, q);
  }

  /** The granter hears from a third node. */
  lemma RecvGranterOther(i: PeerId, j: PeerId, a: Node, b: Node, out: seq<Msg>, back: seq<Msg>, from: PeerId, m: Msg)
    requires PairInv(i, j, a, b, out, back) && from != i
    ensures var (b', envs) := OnMessage(b, from, m);
            PairInv(i, j, a, b', out, back + Stream(Addressed, envs, i))
  {
    var (b', envs) := OnMessage(b, from, m);
    if |envs| == 1 {
      StreamOfOne(Addressed, envs[0], i);
    } else if m.Req? {
      DeferAdds(b.deferred, Request(m.time, from), i);
    }
    assert back + [] == back;
  }

  lemma RecvKeepsPairs(s: State, y: PeerId, x: PeerId, i: PeerId, j: PeerId)
    requires Inv(s) && Enabled(s, Recv(y, x)) && (i, j) in s.chan
    ensures var s' := Apply(Addressed, s, Recv(y, x));
            PairAt(s', i, j)
  {
    assert PairAt(s, i, j) && NodeAt(s, i) && NodeAt(s, j);
    var out, back := s.chan[(i, j)], s.chan[(j, i)];
    var m := s.chan[(y, x)][0];
    if i == x && j == y {
      RecvRequester(i, j, s.nodes[i], s.nodes[j], out, back);
    } else if i == x {
      RecvRequesterOther(i, j, s.nodes[i], s.nodes[j], out, back, y, m);
    } else if j == x && i == y {
      RecvGranter(i, j, s.nodes[i], s.nodes[j], out, back);
    } else if j == x {
      RecvGranterOther(i, j, s.nodes[i], s.nodes[j], out, back, y, m);
    }
  }

  lemma RecvKeepsNode(members: set<PeerId>, y: PeerId, x: PeerId, n: Node, m: Msg)
    requires NodeInv(members, x, n) && y in members && x != y
    ensures NodeInv(members, x, OnMessage(n, y, m).0)
  {
    if m.Req? && MustDefer(n, Request(m.time, y)) {
      DeferAdds(n.deferred, Request(m.time, y), y);
    }
  }

  lemma RecvKeepsNodes(s: State, y: PeerId, x: PeerId)
    requires Inv(s) && Enabled(s, Recv(y, x))
    ensures var s' := Apply(Addressed, s, Recv(y, x));
            forall i | i in s'.nodes :: NodeAt(s', i)
  {
    var s' := Apply(Addressed, s, Recv(y, x));
    StepKeepsShape(Addressed, s, Recv(y, x));
    assert NodeAt(s, x);
    RecvKeepsNode(s.nodes.Keys, y, x, s.nodes[x], s.chan[(y, x)][0]);
    forall i | i in s'.nodes
      ensures NodeAt(s', i)
    {
      assert NodeAt(s, i);
    }
  }

  lemma RecvKeepsInv(s: State, y: PeerId, x: PeerId)
    requires Inv(s) && Enabled(s, Recv(y, x))
    ensures Inv(Apply(Addressed, s, Recv(y, x)))
  {
    var s' := Apply(Addressed, s, Recv(y, x));
    StepKeepsShape(Addressed, s, Recv(y, x));
    RecvKeepsNodes(s, y, x);
    forall i, j | (i, j) in s'.chan
      ensures PairAt(s', i, j)
    {
      RecvKeepsPairs(s, y, x, i, j);
    }
  }

  /** The request of a node that leaves has been answered everywhere. */
  lemma UnlockRequester(i: PeerId, j: PeerId, a: Node, b: Node, out: seq<Msg>, back: seq<Msg>)
    requires PairInv(i, j, a, b, out, back) && a.waitOn == multiset{}
    ensures var (a', envs) := OnUnlock(a);
            PairInv(i, j, a', b, out + Stream(Addressed, envs, j), back)
  {
    var q := Stream(Addressed, Replies(a.time, a.deferred), j);
    StreamOfReplies(a.time, a.deferred, j);
    CountsAppend(out, q);
    NoRequests(out);
    NoEntries(b.deferred, i);
  }

  /** A node that leaves answers what it deferred. */
  lemma UnlockGranter(i: PeerId, j: PeerId, a: Node, b: Node, out: seq<Msg>, back: seq<Msg>)
    requires PairInv(i, j, a, b, out, back)
    ensures var (b', envs) := OnUnlock(b);
            PairInv(i, j, a, b', out, back + Stream(Addressed, envs, i))
  {
    var q := Stream(Addressed, Replies(b.time, b.deferred), i);
    StreamOfReplies(b.time, b.deferred, i);
    CountsAppend(back, q);
    NoEntries(b.deferred, i);
  }

  lemma UnlockKeepsPairs(s: State, x: PeerId, i: PeerId, j: PeerId)
    requires Inv(s) && Enabled(s, Unlock(x)) && (i, j) in s.chan
    ensures var s' := Apply(Addressed, s, Unlock(x));
            PairAt(s', i, j)
  {
    assert PairAt(s, i, j) && NodeAt(s, i) && NodeAt(s, j);
    var out, back := s.chan[(i, j)], s.chan[(j, i)];
    if i == x {
      UnlockRequester(i, j, s.nodes[i], s.nodes[j], out, back);
    } else if j == x {
      UnlockGranter(i, j, s.nodes[i], s.nodes[j], out, back);
    }
  }

  lemma UnlockKeepsInv(s: State, x: PeerId)
    requires Inv(s) && Enabled(s, Unlock(x))
    ensures Inv(Apply(Addressed, s, Unlock(x)))
  {
    var s' := Apply(Addressed, s, Unlock(x));
    StepKeepsShape(Addressed, s, Unlock(x));
    forall i | i in s'.nodes
      ensures NodeAt(s', i)
    {
      assert NodeAt(s, i);
    }
    forall i, j | (i, j) in s'.chan
      ensures PairAt(s', i, j)
    {
      UnlockKeepsPairs(s, x, i, j);
    }
  }

  lemma EnterKeepsInv(s: State, x: PeerId)
    requires Inv(s) && Enabled(s, Enter(x))
    ensures Inv(Apply(Addressed, s, Enter(x)))
  {
    var s' := Apply(Addressed, s, Enter(x));
    forall i | i in s'.nodes
      ensures NodeAt(s', i)
    {
      assert NodeAt(s, i);
    }
    forall i, j | (i, j) in s'.chan
      ensures PairAt(s', i, j)
    {
      assert PairAt(s, i, j);
    }
  }

  lemma StepKeepsInv(s: State, step: Step)
    requires Inv(s) && Enabled(s, step)
    ensures Inv(Apply(Addressed, s, step))
  {
    match step
    case Lock(i) => LockKeepsInv(s, i);
    case Recv(from, to) => RecvKeepsInv(s, from, to);
    case Enter(i) => EnterKeepsInv(s, i);
    case Unlock(i) => UnlockKeepsInv(s, i);
  }

  // ---- whole runs ----

  lemma {:induction false} RunKeepsInv(s: State, steps: seq<Step>)
    requires Inv(s)
    ensures var r := Run(Addressed, s, steps); r.Some? ==> Inv(r.value)
    decreases |steps|
  {
    if |steps| > 0 && Enabled(s, steps[0]) {
      StepKeepsInv(s, steps[0]);
      RunKeepsInv(Apply(Addressed, s, steps[0]), steps[1..]);
    }
  }

  /** No run of any number of nodes ever has two of them past the lock. */
  lemma MutualExclusionHolds(members: set<PeerId>, o: State, steps: seq<Step>)
    requires Initial(members, o)
    ensures var r := Run(Addressed, o, steps); r.Some? ==> MutualExclusion(r.value)
  {
    InitialInv(members, o);
    RunKeepsInv(o, steps);
    var r := Run(Addressed, o, steps);
    if r.Some? {
      InvExcludes(r.value);
    }
  }
}
