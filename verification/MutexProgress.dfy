/**
  Nothing is lost and nobody waits for ever: conservation of requests, the order
  of the deferred queue, absence of deadlock, and the end of every run that makes
  no new request. Replies are received by their addressee.
 */
module MutexProgress {
  import opened Options
  import opened Sorting
  import opened Sums
  import opened MutexNode
  import opened MutexNetwork
  import opened MutexSafety

  ghost predicate Reachable(members: set<PeerId>, s: State) {
    exists o, steps :: Initial(members, o) && Run(Addressed, o, steps) == Some(s)
  }

  lemma ReachableInv(members: set<PeerId>, s: State)
    requires Reachable(members, s)
    ensures Inv(s)
  {
    var o, steps :| Initial(members, o) && Run(Addressed, o, steps) == Some(s);
    InitialInv(members, o);
    RunKeepsInv(o, steps);
  }

  /**
    While i awaits j exactly one of these exists: i's request on its way to j,
    an entry for it in j's queue, j's reply on its way back. Otherwise none does.
   */
  lemma Conservation(members: set<PeerId>, s: State, i: PeerId, j: PeerId)
    requires Reachable(members, s) && i in s.nodes && j in s.nodes && i != j
    ensures (i, j) in s.chan && (j, i) in s.chan
    ensures Requests(s.chan[(i, j)]) + Entries(s.nodes[j].deferred, i) + ReplyCount(s.chan[(j, i)])
         == if j in s.nodes[i].waitOn then 1 else 0
  {
    ReachableInv(members, s);
    assert PairAt(s, i, j) && NodeAt(s, i);
    assert s.nodes[i].waitOn[j] <= multiset(s.nodes.Keys - {i})[j];
  }

  // ---- the deferred queue ----

  ghost predicate QueuesSorted(s: State) {
    forall i | i in s.nodes :: SortedBy(RequestComp, s.nodes[i].deferred)
  }

  lemma StepKeepsQueuesSorted(s: State, step: Step)
    requires Inv(s) && Enabled(s, step) && QueuesSorted(s)
    ensures QueuesSorted(Apply(Addressed, s, step))
  {
    RequestCompIsTotalOrder();
    if step.Recv? {
      var n, m := s.nodes[step.to], s.chan[(step.from, step.to)][0];
      if m.Req? {
        StableSortSorts(RequestComp, n.deferred + [Request(m.time, step.from)]);
      }
    }
  }

  lemma {:induction false} RunKeepsQueuesSorted(s: State, steps: seq<Step>)
    requires Inv(s) && QueuesSorted(s)
    ensures var r := Run(Addressed, s, steps); r.Some? ==> QueuesSorted(r.value)
    decreases |steps|
  {
    if |steps| > 0 && Enabled(s, steps[0]) {
      StepKeepsInv(s, steps[0]);
      StepKeepsQueuesSorted(s, steps[0]);
      RunKeepsQueuesSorted(Apply(Addressed, s, steps[0]), steps[1..]);
    }
  }

  /** Two entries of one peer are counted twice. */
  lemma {:induction false} TwoEntries(d: seq<Request>, k: nat, l: nat)
    requires k < l < |d| && d[k].peer == d[l].peer
    ensures Entries(d, d[k].peer) >= 2
  {
    if k == 0 {
      NoEntries(d[1..], d[0].peer);
      assert d[l] in d[1..];
    } else {
      TwoEntries(d[1..], k - 1, l - 1);
    }
  }

  /** The deferred queue ascends by time and then by id, and holds a peer at most once. */
  lemma DeferredQueue(members: set<PeerId>, s: State, j: PeerId)
    requires Reachable(members, s) && j in s.nodes
    ensures var d := s.nodes[j].deferred;
            forall k, l | 0 <= k < l < |d| :: Before(d[k], d[l]) && d[k].peer != d[l].peer
  {
    var o, steps :| Initial(members, o) && Run(Addressed, o, steps) == Some(s);
    InitialInv(members, o);
    RunKeepsQueuesSorted(o, steps);
    ReachableInv(members, s);
    var d := s.nodes[j].deferred;
    assert NodeAt(s, j);
    RequestCompIsTotalOrder();
    forall k, l | 0 <= k < l < |d|
      ensures Before(d[k], d[l]) && d[k].peer != d[l].peer
    {
      if d[k].peer == d[l].peer {
        TwoEntries(d, k, l);
        assert d[k] in d;
        Conservation(members, s, d[k].peer, j);
      }
    }
  }

  // ---- no deadlock ----

  ghost predicate Pending(s: State, i: PeerId) {
    i in s.nodes && s.nodes[i].request.Some?
  }

  /**
    A node can ask for the lock whenever it has not asked, is let in exactly when nobody is
    awaited, can always leave, and takes any message at any time.
   */
  lemma NothingIsRefused(members: set<PeerId>, s: State, i: PeerId)
    requires Reachable(members, s) && i in s.nodes
    ensures Enabled(s, Lock(i)) <==> !Pending(s, i)
    ensures Enabled(s, Enter(i)) <==> Pending(s, i) && !s.nodes[i].inside && forall j :: s.nodes[i].waitOn[j] == 0
    ensures Enabled(s, Unlock(i)) <==> s.nodes[i].inside
    ensures forall j | (j, i) in s.chan :: Enabled(s, Recv(j, i)) <==> s.chan[(j, i)] != []
  {
    if forall j :: s.nodes[i].waitOn[j] == 0 {
      assert s.nodes[i].waitOn == multiset{};
    }
  }

  /** Of the requests of a set of nodes one comes first. */
  lemma {:induction false} FirstRequest(s: State, who: set<PeerId>) returns (f: PeerId)
    requires who != {} && forall i | i in who :: Pending(s, i)
    ensures f in who && Pending(s, f)
    ensures forall i | i in who :: Pending(s, i) && !Before(s.nodes[i].request.value, s.nodes[f].request.value)
  {
    var x :| x in who;
    f := x;
    if who != {x} {
      var g := FirstRequest(s, who - {x});
      if Before(s.nodes[g].request.value, s.nodes[x].request.value) {
        f := g;
      }
    }
  }

  ghost predicate Quiet(s: State) {
    forall c | c in s.chan :: |s.chan[c]| == 0
  }

  /** With nothing in flight and nobody inside, the first request can go ahead. */
  lemma FirstCanEnter(s: State, f: PeerId)
    requires Inv(s) && Quiet(s) && Pending(s, f)
    requires forall i | i in s.nodes :: !s.nodes[i].inside
    requires forall i | Pending(s, i) :: !Before(s.nodes[i].request.value, s.nodes[f].request.value)
    ensures CanEnter(s.nodes[f])
  {
    var a := s.nodes[f];
    assert NodeAt(s, f);
    forall j
      ensures a.waitOn[j] == 0
    {
      if j in s.nodes && j != f {
        assert PairAt(s, f, j);
        NoEntries(s.nodes[j].deferred, f);
      } else {
        assert multiset(s.nodes.Keys - {f})[j] == 0;
      }
    }
  }

  /** A reachable state with a pending request always has a step that is not a new lock. */
  lemma NoDeadlock(s: State, i: PeerId) returns (step: Step)
    requires Inv(s) && Pending(s, i)
    ensures Enabled(s, step) && !step.Lock?
  {
    if !Quiet(s) {
      var c :| c in s.chan && |s.chan[c]| > 0;
      step := Recv(c.0, c.1);
      assert (c.0, c.1) == c;
    } else if j :| j in s.nodes && s.nodes[j].inside {
      step := Unlock(j);
    } else {
      var who := set k | k in s.nodes && s.nodes[k].request.Some?;
      assert i in who;
      var f := FirstRequest(s, who);
      FirstCanEnter(s, f);
      step := Enter(f);
    }
  }

  // ---- without new requests every run ends, and ends with nobody waiting ----

  /** What is still to be done for i's request at j. */
  ghost function PairWork(b: Node, i: PeerId, out: seq<Msg>, back: seq<Msg>): nat {
    3 * Requests(out) + 2 * Entries(b.deferred, i) + ReplyCount(back)
  }

  ghost function NodeWork(n: Node): nat {
    if n.request.None? then 0 else if n.inside then 1 else 2
  }

  ghost function PairWorkAt(s: State, c: Channel): nat {
    if c in s.chan && (c.1, c.0) in s.chan && c.1 in s.nodes
    then PairWork(s.nodes[c.1], c.0, s.chan[c], s.chan[(c.1, c.0)]) else 0
  }

  ghost function PairWorks(s: State): map<Channel, nat> {
    map c | c in s.chan :: PairWorkAt(s, c)
  }

  ghost function NodeWorks(s: State): map<PeerId, nat> {
    map i | i in s.nodes :: NodeWork(s.nodes[i])
  }

  ghost function Work(s: State): nat {
    Sum(PairWorks(s)) + Sum(NodeWorks(s))
  }

  lemma PairWorkLowers(s: State, s': State, c: Channel)
    requires c in s.chan && s'.chan.Keys == s.chan.Keys && s'.nodes.Keys == s.nodes.Keys
    requires forall d | d in s.chan :: PairWorkAt(s', d) <= PairWorkAt(s, d)
    requires PairWorkAt(s', c) < PairWorkAt(s, c)
    requires forall i | i in s.nodes :: NodeWork(s'.nodes[i]) == NodeWork(s.nodes[i])
    ensures Work(s') < Work(s)
  {
    SumDecreases(PairWorks(s), PairWorks(s'), c);
    assert NodeWorks(s') == NodeWorks(s);
  }

  lemma NodeWorkLowers(s: State, s': State, x: PeerId)
    requires x in s.nodes && s'.chan.Keys == s.chan.Keys && s'.nodes.Keys == s.nodes.Keys
    requires forall d | d in s.chan :: PairWorkAt(s', d) <= PairWorkAt(s, d)
    requires forall i | i in s.nodes :: NodeWork(s'.nodes[i]) <= NodeWork(s.nodes[i])
    requires NodeWork(s'.nodes[x]) < NodeWork(s.nodes[x])
    ensures Work(s') < Work(s)
  {
    assert PairWorks(s).Keys == s.chan.Keys && PairWorks(s').Keys == s.chan.Keys;
    SumMonotone(s.chan.Keys, PairWorks(s), PairWorks(s'));
    SumDecreases(NodeWorks(s), NodeWorks(s'), x);
  }

  /** A granter that handles a message: a request of i is one step further, others' are nothing to i. */
  lemma GranterWork(b: Node, i: PeerId, y: PeerId, m: Msg, out: seq<Msg>, back: seq<Msg>)
    requires y == i ==> |out| > 0 && out[0] == m
    ensures var (b', envs) := OnMessage(b, y, m);
            var out' := if y == i then out[1..] else out;
            var work', work := PairWork(b', i, out', back + Stream(Addressed, envs, i)), PairWork(b, i, out, back);
            work' <= work && (m.Req? && y == i ==> work' < work)
  {
    var envs := OnMessage(b, y, m).1;
    if |envs| == 1 {
      StreamOfOne(Addressed, envs[0], i);
    }
    if m.Req? {
      DeferAdds(b.deferred, Request(m.time, y), i);
    }
    CountsAppend(back, Stream(Addressed, envs, i));
  }

  /** A requester that handles a message: a reply of j is work done, and what it sends is no request. */
  lemma RequesterWork(a: Node, b: Node, i: PeerId, j: PeerId, y: PeerId, m: Msg, out: seq<Msg>, back: seq<Msg>)
    requires y == j ==> |back| > 0 && back[0] == m
    ensures var envs := OnMessage(a, y, m).1;
            var back' := if y == j then back[1..] else back;
            var work', work := PairWork(b, i, out + Stream(Addressed, envs, j), back'), PairWork(b, i, out, back);
            work' <= work && (m.Rep? && y == j ==> work' < work)
  {
    var envs := OnMessage(a, y, m).1;
    if |envs| == 1 {
      StreamOfOne(Addressed, envs[0], j);
      assert [envs[0].msg][1..] == [];
    }
    CountsAppend(out, Stream(Addressed, envs, j));
  }

  /** Receiving moves the work of one pair forward and no other back. */
  lemma RecvPairWork(s: State, y: PeerId, x: PeerId, i: PeerId, j: PeerId)
    requires Inv(s) && Enabled(s, Recv(y, x)) && (i, j) in s.chan
    ensures var s' := Apply(Addressed, s, Recv(y, x));
            var m := s.chan[(y, x)][0];
            && PairWorkAt(s', (i, j)) <= PairWorkAt(s, (i, j))
            && ((m.Req? && i == y && j == x) || (m.Rep? && i == x && j == y) ==>
                  PairWorkAt(s', (i, j)) < PairWorkAt(s, (i, j)))
  {
    StepKeepsShape(Addressed, s, Recv(y, x));
    var m, out, back := s.chan[(y, x)][0], s.chan[(i, j)], s.chan[(j, i)];
    if x == j {
      GranterWork(s.nodes[j], i, y, m, out, back);
    } else if x == i {
      RequesterWork(s.nodes[i], s.nodes[j], i, j, y, m, out, back);
    }
  }

  /** Unlocking turns entries into replies, which are less work. */
  lemma UnlockPairWork(s: State, x: PeerId, i: PeerId, j: PeerId)
    requires Inv(s) && Enabled(s, Unlock(x)) && (i, j) in s.chan
    ensures var s' := Apply(Addressed, s, Unlock(x));
            PairWorkAt(s', (i, j)) <= PairWorkAt(s, (i, j))
  {
    StepKeepsShape(Addressed, s, Unlock(x));
    var n := s.nodes[x];
    StreamOfReplies(n.time, n.deferred, i);
    StreamOfReplies(n.time, n.deferred, j);
    CountsAppend(s.chan[(j, i)], Stream(Addressed, Replies(n.time, n.deferred), i));
    CountsAppend(s.chan[(i, j)], Stream(Addressed, Replies(n.time, n.deferred), j));
  }

  lemma RecvRaisesNoWork(s: State, y: PeerId, x: PeerId)
    requires Inv(s) && Enabled(s, Recv(y, x))
    ensures var s' := Apply(Addressed, s, Recv(y, x)); forall d | d in s.chan :: PairWorkAt(s', d) <= PairWorkAt(s, d)
  {
    forall d | d in s.chan
      ensures PairWorkAt(Apply(Addressed, s, Recv(y, x)), d) <= PairWorkAt(s, d)
    {
      assert d == (d.0, d.1);
      RecvPairWork(s, y, x, d.0, d.1);
    }
  }

  lemma RecvKeepsNodeWork(n: Node, y: PeerId, m: Msg)
    ensures NodeWork(OnMessage(n, y, m).0) == NodeWork(n)
  {
  }

  lemma RecvLowersSome(s: State, y: PeerId, x: PeerId) returns (c: Channel)
    requires Inv(s) && Enabled(s, Recv(y, x))
    ensures c in s.chan && PairWorkAt(Apply(Addressed, s, Recv(y, x)), c) < PairWorkAt(s, c)
  {
    assert PairAt(s, y, x);
    var m := s.chan[(y, x)][0];
    assert m in s.chan[(y, x)];
    c := if m.Req? then (y, x) else (x, y);
    RecvPairWork(s, y, x, c.0, c.1);
  }

  lemma RecvLowersWork(s: State, y: PeerId, x: PeerId)
    requires Inv(s) && Enabled(s, Recv(y, x))
    ensures Work(Apply(Addressed, s, Recv(y, x))) < Work(s)
  {
    var s', m := Apply(Addressed, s, Recv(y, x)), s.chan[(y, x)][0];
    StepKeepsShape(Addressed, s, Recv(y, x));
    RecvRaisesNoWork(s, y, x);
    RecvKeepsNodeWork(s.nodes[x], y, m);
    var c := RecvLowersSome(s, y, x);
    PairWorkLowers(s, s', c);
  }

  lemma EnterLowersWork(s: State, x: PeerId)
    requires Inv(s) && Enabled(s, Enter(x))
    ensures Work(Apply(Addressed, s, Enter(x))) < Work(s)
  {
    NodeWorkLowers(s, Apply(Addressed, s, Enter(x)), x);
  }

  lemma UnlockLowersWork(s: State, x: PeerId)
    requires Inv(s) && Enabled(s, Unlock(x))
    ensures Work(Apply(Addressed, s, Unlock(x))) < Work(s)
  {
    var s' := Apply(Addressed, s, Unlock(x));
    StepKeepsShape(Addressed, s, Unlock(x));
    assert NodeAt(s, x);
    forall d | d in s.chan
      ensures PairWorkAt(s', d) <= PairWorkAt(s, d)
    {
      assert d == (d.0, d.1);
      UnlockPairWork(s, x, d.0, d.1);
    }
    NodeWorkLowers(s, s', x);
  }

  lemma StepLowersWork(s: State, step: Step)
    requires Inv(s) && Enabled(s, step) && !step.Lock?
    ensures Work(Apply(Addressed, s, step)) < Work(s)
  {
    match step {
      case Recv(from, to) => RecvLowersWork(s, from, to);
      case Enter(i) => EnterLowersWork(s, i);
      case Unlock(i) => UnlockLowersWork(s, i);
    }
  }

  /** A run without new locks is no longer than the work there was. */
  lemma {:induction false} RunsWithoutLocksEnd(s: State, steps: seq<Step>)
    requires Inv(s) && forall k | 0 <= k < |steps| :: !steps[k].Lock?
    requires Run(Addressed, s, steps).Some?
    ensures |steps| <= Work(s)
    decreases |steps|
  {
    if |steps| > 0 {
      StepLowersWork(s, steps[0]);
      StepKeepsInv(s, steps[0]);
      RunsWithoutLocksEnd(Apply(Addressed, s, steps[0]), steps[1..]);
    }
  }

  /** Where such a run cannot go on, every request has been granted and given back. */
  lemma StuckMeansServed(members: set<PeerId>, s: State)
    requires Reachable(members, s)
    requires forall step: Step | !step.Lock? :: !Enabled(s, step)
    ensures forall i | i in s.nodes :: s.nodes[i].request.None?
    ensures Quiet(s)
  {
    ReachableInv(members, s);
    forall i | i in s.nodes
      ensures s.nodes[i].request.None?
    {
      if s.nodes[i].request.Some? {
        var step := NoDeadlock(s, i);
      }
    }
    forall c | c in s.chan
      ensures |s.chan[c]| == 0
    {
      assert c == (c.0, c.1) && c.1 in s.nodes;
      assert !Enabled(s, Recv(c.0, c.1));
    }
  }
}
