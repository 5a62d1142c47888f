/**
  Every join ends: but for new joins each step of the exchange leaves less to do, and when
  nothing is left every node that asked has been answered by all and has returned.
 */
module JoinProgress {
  import opened Options
  import opened Sums
  import opened JoinNode
  import opened JoinNetwork
  import opened JoinSymmetry

  /** What is still to be done for i's GET to j. */
  ghost function PairWork(i: PeerId, mi: Member, j: PeerId, mj: Member, out: seq<Msg>, back: seq<Msg>): nat {
    (if mi.phase.Added? then 5 else if NotYetSent(mi, j) then 4 else 0)
    + 3 * Gets(out) + (if LooksFor(mj, i) then 2 else 0) + Reps(back)
  }

  ghost function NodeWork(m: Member): nat {
    match m.phase
    case Added => 2
    case Asking(_) => 1
    case _ => 0
  }

  ghost function PairWorkAt(s: State, c: Channel): nat {
    if c in s.chan && (c.1, c.0) in s.chan && c.0 in s.nodes && c.1 in s.nodes
    then PairWork(c.0, s.nodes[c.0], c.1, s.nodes[c.1], s.chan[c], s.chan[(c.1, c.0)]) else 0
  }

  ghost function PairWorks(s: State): map<Channel, nat> {
    map c | c in s.chan :: PairWorkAt(s, c)
  }

  ghost function NodeWorks(s: State): map<PeerId, nat> {
    map i | i in s.nodes :: NodeWork(s.nodes[i])
  }

  ghost function Work(s: State): nat {
    Sum(PairWorks(s)) + Sum(NodeWorks(s))
  }

  lemma PairWorkLowers(s: State, t: State, c: Channel)
    requires c in s.chan && t.chan.Keys == s.chan.Keys && t.nodes.Keys == s.nodes.Keys
    requires forall d | d in s.chan :: PairWorkAt(t, d) <= PairWorkAt(s, d)
    requires PairWorkAt(t, c) < PairWorkAt(s, c)
    requires forall i | i in s.nodes :: NodeWork(t.nodes[i]) == NodeWork(s.nodes[i])
    ensures Work(t) < Work(s)
  {
    SumDecreases(PairWorks(s), PairWorks(t), c);
    assert NodeWorks(t) == NodeWorks(s);
  }

  lemma NodeWorkLowers(s: State, t: State, x: PeerId)
    requires x in s.nodes && t.chan.Keys == s.chan.Keys && t.nodes.Keys == s.nodes.Keys
    requires forall d | d in s.chan :: PairWorkAt(t, d) <= PairWorkAt(s, d)
    requires forall i | i in s.nodes :: NodeWork(t.nodes[i]) <= NodeWork(s.nodes[i])
    requires NodeWork(t.nodes[x]) < NodeWork(s.nodes[x])
    ensures Work(t) < Work(s)
  {
    assert PairWorks(s).Keys == s.chan.Keys && PairWorks(t).Keys == s.chan.Keys;
    SumMonotone(s.chan.Keys, PairWorks(s), PairWorks(t));
    SumDecreases(NodeWorks(s), NodeWorks(t), x);
  }

  // ---- what a step does to the work of one pair ----

  lemma SendGetWork(s: State, x: PeerId, to: PeerId, i: PeerId, j: PeerId)
    requires Inv(s) && Enabled(s, SendGet(x, to)) && (i, j) in s.chan
    ensures var t := Apply(s, SendGet(x, to));
            PairWorkAt(t, (i, j)) <= PairWorkAt(s, (i, j))
            && ((i, j) == (x, to) ==> PairWorkAt(t, (i, j)) < PairWorkAt(s, (i, j)))
  {
    CountsAppend(s.chan[(x, to)], Get);
  }

  lemma RecvGetWork(s: State, x: PeerId, y: PeerId, i: PeerId, j: PeerId)
    requires Inv(s) && Enabled(s, Recv(x, y)) && s.chan[(x, y)][0].Get? && (i, j) in s.chan
    ensures var t := Apply(s, Recv(x, y));
            PairWorkAt(t, (i, j)) <= PairWorkAt(s, (i, j)) && ((i, j) == (x, y) ==> PairWorkAt(t, (i, j)) < PairWorkAt(s, (i, j)))
  {
  }

  lemma RecvReplyWork(s: State, x: PeerId, y: PeerId, i: PeerId, j: PeerId)
    requires Inv(s) && Enabled(s, Recv(x, y)) && s.chan[(x, y)][0].GetReply? && (i, j) in s.chan
    ensures var t := Apply(s, Recv(x, y));
            PairWorkAt(t, (i, j)) <= PairWorkAt(s, (i, j)) && ((i, j) == (y, x) ==> PairWorkAt(t, (i, j)) < PairWorkAt(s, (i, j)))
  {
  }

  lemma AnswerWork(s: State, x: PeerId, i: PeerId, j: PeerId)
    requires Inv(s) && Enabled(s, Answer(x)) && (i, j) in s.chan
    ensures var t := Apply(s, Answer(x));
            && PairWorkAt(t, (i, j)) <= PairWorkAt(s, (i, j))
            && ((i, j) == (s.nodes[x].looking.value.peer, x) ==> PairWorkAt(t, (i, j)) < PairWorkAt(s, (i, j)))
  {
    var l := s.nodes[x].looking.value;
    CountsAppend(s.chan[(x, l.peer)], GetReply(l.found));
  }

  // ---- every step but a new join leaves less ----

  lemma AskLowersWork(s: State, x: PeerId)
    requires Inv(s) && Enabled(s, Ask(x))
    ensures Work(Apply(s, Ask(x))) < Work(s)
  {
    var t := Apply(s, Ask(x));
    StepKeepsShape(s, Ask(x));
    forall d | d in s.chan
      ensures PairWorkAt(t, d) <= PairWorkAt(s, d)
    {
      assert d == (d.0, d.1);
    }
    NodeWorkLowers(s, t, x);
  }

  lemma FinishLowersWork(s: State, x: PeerId)
    requires Inv(s) && Enabled(s, Finish(x))
    ensures Work(Apply(s, Finish(x))) < Work(s)
  {
    var t := Apply(s, Finish(x));
    StepKeepsShape(s, Finish(x));
    forall d | d in s.chan
      ensures PairWorkAt(t, d) <= PairWorkAt(s, d)
    {
      assert d == (d.0, d.1);
    }
    NodeWorkLowers(s, t, x);
  }

  lemma SendGetRaisesNoWork(s: State, x: PeerId, to: PeerId)
    requires Inv(s) && Enabled(s, SendGet(x, to))
    ensures var t := Apply(s, SendGet(x, to)); forall d | d in s.chan :: PairWorkAt(t, d) <= PairWorkAt(s, d)
  {
    forall d | d in s.chan
      ensures PairWorkAt(Apply(s, SendGet(x, to)), d) <= PairWorkAt(s, d)
    {
      assert d == (d.0, d.1);
      SendGetWork(s, x, to, d.0, d.1);
    }
  }

  lemma SendGetLowersWork(s: State, x: PeerId, to: PeerId)
    requires Inv(s) && Enabled(s, SendGet(x, to))
    ensures Work(Apply(s, SendGet(x, to))) < Work(s)
  {
    StepKeepsShape(s, SendGet(x, to));
    SendGetRaisesNoWork(s, x, to);
    SendGetWork(s, x, to, x, to);
    assert NodeWork(Apply(s, SendGet(x, to)).nodes[x]) == NodeWork(s.nodes[x]);
    PairWorkLowers(s, Apply(s, SendGet(x, to)), (x, to));
  }

  lemma RecvLowersWork(s: State, x: PeerId, y: PeerId)
    requires Inv(s) && Enabled(s, Recv(x, y))
    ensures Work(Apply(s, Recv(x, y))) < Work(s)
  {
    var t := Apply(s, Recv(x, y));
    StepKeepsShape(s, Recv(x, y));
    assert PairAt(s, x, y);
    var get := s.chan[(x, y)][0].Get?;
    forall d | d in s.chan
      ensures PairWorkAt(t, d) <= PairWorkAt(s, d)
    {
      assert d == (d.0, d.1);
      if get {
        RecvGetWork(s, x, y, d.0, d.1);
      } else {
        RecvReplyWork(s, x, y, d.0, d.1);
      }
    }
    if get {
      RecvGetWork(s, x, y, x, y);
      PairWorkLowers(s, t, (x, y));
    } else {
      RecvReplyWork(s, x, y, y, x);
      PairWorkLowers(s, t, (y, x));
    }
  }

  lemma AnswerLowersWork(s: State, x: PeerId)
    requires Inv(s) && Enabled(s, Answer(x))
    ensures Work(Apply(s, Answer(x))) < Work(s)
  {
    var t, p := Apply(s, Answer(x)), s.nodes[x].looking.value.peer;
    StepKeepsShape(s, Answer(x));
    assert PairAt(s, x, p);
    forall d | d in s.chan
      ensures PairWorkAt(t, d) <= PairWorkAt(s, d)
    {
      assert d == (d.0, d.1);
      AnswerWork(s, x, d.0, d.1);
    }
    AnswerWork(s, x, p, x);
    PairWorkLowers(s, t, (p, x));
  }

  lemma StepLowersWork(s: State, step: Step)
    requires Inv(s) && Enabled(s, step) && !step.Add?
    ensures Work(Apply(s, step)) < Work(s)
  {
    match step {
      case Ask(x) => AskLowersWork(s, x);
      case Finish(x) => FinishLowersWork(s, x);
      case SendGet(x, to) => SendGetLowersWork(s, x, to);
      case Recv(x, y) => RecvLowersWork(s, x, y);
      case Answer(x) => AnswerLowersWork(s, x);
    }
  }

  /** A join can begin at any time, goes on whenever it can, and no message has to wait but for an answer in hand. */
  lemma NothingIsRefused(s: State, i: PeerId)
    requires Inv(s) && i in s.nodes
    ensures Enabled(s, Add(i)) <==> s.nodes[i].phase.Absent?
    ensures Enabled(s, Ask(i)) <==> s.nodes[i].phase.Added?
    ensures s.nodes[i].phase.Asking? ==> forall j | j in s.nodes[i].phase.unsent :: Enabled(s, SendGet(i, j))
    ensures Enabled(s, Finish(i)) <==> s.nodes[i].phase == Asking({}) && s.nodes[i].waitOn == multiset{}
    ensures Enabled(s, Answer(i)) <==> s.nodes[i].looking.Some?
    ensures forall j | (j, i) in s.chan :: Enabled(s, Recv(j, i)) <==> s.nodes[i].looking.None? && s.chan[(j, i)] != []
  {
    assert NodeAt(s, i);
    assert forall j | j in s.nodes && j != i :: (i, j) in s.chan;
  }

  /** A run in which nobody starts to join is no longer than the work there was. */
  lemma {:induction false} RunsWithoutAddsEnd(s: State, steps: seq<Step>)
    requires Inv(s) && (forall k | 0 <= k < |steps| :: !steps[k].Add?) && Run(s, steps).Some?
    ensures |steps| <= Work(s)
    decreases |steps|
  {
    if |steps| > 0 {
      StepLowersWork(s, steps[0]);
      StepKeepsInv(s, steps[0]);
      RunsWithoutAddsEnd(Apply(s, steps[0]), steps[1..]);
    }
  }

  /** Where it cannot go on, every node that joins has returned, with an answer from all. */
  lemma StuckMeansJoined(members: set<PeerId>, o: State, steps: seq<Step>, s: State)
    requires Initial(members, o) && Run(o, steps) == Some(s)
    requires forall step: Step | !step.Add? :: !Enabled(s, step)
    ensures forall i | i in s.nodes :: s.nodes[i].phase.Absent? || s.nodes[i].phase.Holding?
    ensures forall i | i in s.nodes :: s.nodes[i].waitOn == multiset{} && s.nodes[i].looking.None?
    ensures forall c | c in s.chan :: s.chan[c] == []
  {
    InitialInv(members, o);
    RunKeepsInv(o, steps);
    forall i | i in s.nodes
      ensures s.nodes[i].phase.Absent? || s.nodes[i].phase.Holding?
      ensures s.nodes[i].waitOn == multiset{} && s.nodes[i].looking.None?
    {
      StuckNode(s, i);
    }
    forall c | c in s.chan
      ensures s.chan[c] == []
    {
      assert c == (c.0, c.1) && c.1 in s.nodes;
      assert !Enabled(s, Recv(c.0, c.1));
    }
  }

  lemma StuckNode(s: State, i: PeerId)
    requires Inv(s) && i in s.nodes
    requires forall step: Step | !step.Add? :: !Enabled(s, step)
    ensures s.nodes[i].phase.Absent? || s.nodes[i].phase.Holding?
    ensures s.nodes[i].waitOn == multiset{} && s.nodes[i].looking.None?
  {
    assert NodeAt(s, i);
    assert !Enabled(s, Answer(i)) && !Enabled(s, Ask(i));
    if s.nodes[i].phase.Asking? {
      var step := AskingProceeds(s, i);
    }
    forall k: PeerId
      ensures s.nodes[i].waitOn[k] == 0
    {
      assert (i, k) in s.chan ==> PairAt(s, i, k);
    }
  }
}
