/**
  How a node joins a shared object: the GET / GET_REPLY exchange of edsm_dobj_get
  (src/dobj/dobj.c:57-157), as values. One object id; fixed group membership.

  The listener looks the object up before it takes local_lock (src/dobj/dobj.c:110-111),
  so a GET is handled in two steps with the local edsm_dobj_get free to run between them.
 */
module JoinNode {
  import opened Options

  type PeerId = nat

  datatype Phase =
    | Absent                          // no object in the table
    | Added                           // in the table, nothing sent yet
    | Asking(unsent: set<PeerId>)     // waiter armed; GETs still to be written
    | Holding                         // edsm_dobj_get has returned

  /** A GET under way in the listener: who sent it and whether the lookup found the object. */
  datatype Look = Look(peer: PeerId, found: bool)

  datatype Member = Member(phase: Phase, peers: seq<PeerId>, waitOn: multiset<PeerId>, looking: Option<Look>)

  datatype Msg = Get | GetReply(have: bool)

  const FRESH := Member(Absent, [], multiset{}, None)

  /** _add_peer_reference (src/dobj/dobj.c:57-66). */
  function WithPeer(peers: seq<PeerId>, p: PeerId): seq<PeerId> {
    if p in peers then peers else peers + [p]
  }

  /** edsm_dobj_handle_get_reply (src/dobj/dobj.c:79-95). */
  function OnGetReply(m: Member, from: PeerId, have: bool): Member {
    if m.phase.Absent? then m
    else m.(peers := if have then WithPeer(m.peers, from) else m.peers, waitOn := m.waitOn - multiset{from})
  }

  /** The lookup of edsm_dobj_handle_get (src/dobj/dobj.c:109-110). */
  function OnGet(m: Member, from: PeerId): Member {
    m.(looking := Some(Look(from, !m.phase.Absent?)))
  }

  /** The rest of it, under local_lock (src/dobj/dobj.c:111-122). */
  function OnAnswer(m: Member): (Member, Msg)
    requires m.looking.Some?
  {
    var l := m.looking.value;
    (m.(peers := if l.found then WithPeer(m.peers, l.peer) else m.peers, looking := None), GetReply(l.found))
  }
}

/** The nodes joined by one FIFO channel per ordered pair. */
module JoinNetwork {
  import opened Options
  import opened JoinNode

  type Channel = (PeerId, PeerId)

  /** `answers[(j, i)]` remembers what j's lookup for i's GET found; no step reads it. */
  datatype State = State(nodes: map<PeerId, Member>, chan: map<Channel, seq<Msg>>, answers: map<Channel, bool>)

  datatype Step =
    | Add(i: PeerId)
    | Ask(i: PeerId)
    | SendGet(i: PeerId, to: PeerId)
    | Finish(i: PeerId)
    | Recv(from: PeerId, to: PeerId)
    | Answer(i: PeerId)

  /** No node has the object, nothing is on its way. */
  ghost predicate Initial(members: set<PeerId>, s: State) {
    && s.nodes.Keys == members && Shape(s) && s.answers == map[]
    && (forall i | i in s.nodes :: s.nodes[i] == FRESH)
    && (forall c | c in s.chan :: s.chan[c] == [])
  }

  function Init(members: set<PeerId>): (s: State)
    ensures Initial(members, s)
  {
    State(map i | i in members :: FRESH,
          map i, j | i in members && j in members && i != j :: (i, j) := [],
          map[])
  }

  ghost predicate Shape(s: State) {
    forall i, j {:trigger (i, j) in s.chan} :: (i, j) in s.chan <==> i in s.nodes && j in s.nodes && i != j
  }

  predicate Enabled(s: State, step: Step) {
    match step
    case Add(i) => i in s.nodes && s.nodes[i].phase.Absent?
    case Ask(i) => i in s.nodes && s.nodes[i].phase.Added?
    case SendGet(i, to) => (i, to) in s.chan && i in s.nodes && s.nodes[i].phase.Asking? && to in s.nodes[i].phase.unsent
    case Finish(i) => i in s.nodes && s.nodes[i].phase == Asking({}) && s.nodes[i].waitOn == multiset{}
    case Recv(from, to) => (from, to) in s.chan && to in s.nodes && s.nodes[to].looking.None? && |s.chan[(from, to)]| > 0
    case Answer(i) => i in s.nodes && s.nodes[i].looking.Some? && (i, s.nodes[i].looking.value.peer) in s.chan
  }

  function Apply(s: State, step: Step): State
    requires Enabled(s, step)
  {
    match step
    case Add(i) => s.(nodes := s.nodes[i := s.nodes[i].(phase := Added)])
    case Ask(i) =>
      var others := s.nodes.Keys - {i};
      s.(nodes := s.nodes[i := s.nodes[i].(phase := Asking(others), waitOn := multiset(others))])
    case SendGet(i, to) =>
      var rest := s.nodes[i].phase.unsent - {to};
      s.(nodes := s.nodes[i := s.nodes[i].(phase := Asking(rest))], chan := s.chan[(i, to) := s.chan[(i, to)] + [Get]])
    case Finish(i) => s.(nodes := s.nodes[i := s.nodes[i].(phase := Holding)])
    case Recv(from, to) =>
      var q := s.chan[(from, to)];
      var popped := s.chan[(from, to) := q[1..]];
      (match q[0]
       case Get => State(s.nodes[to := OnGet(s.nodes[to], from)], popped,
                         s.answers[(to, from) := !s.nodes[to].phase.Absent?])
       case GetReply(have) => s.(nodes := s.nodes[to := OnGetReply(s.nodes[to], from, have)], chan := popped))
    case Answer(i) =>
      var (m, reply) := OnAnswer(s.nodes[i]);
      var c := (i, s.nodes[i].looking.value.peer);
      s.(nodes := s.nodes[i := m], chan := s.chan[c := s.chan[c] + [reply]])
  }

  function Run(s: State, steps: seq<Step>): Option<State>
    decreases |steps|
  {
    if |steps| == 0 then Some(s)
    else if Enabled(s, steps[0]) then Run(Apply(s, steps[0]), steps[1..])
    else None
  }
}

/** Join symmetry: two nodes that hold the object list each other, once; and every GET is answered once. */
module JoinSymmetry {
  import opened Options
  import opened JoinNode
  import opened JoinNetwork
  import opened Sequences

  function Gets(q: seq<Msg>): nat {
    if |q| == 0 then 0 else (if q[0].Get? then 1 else 0) + Gets(q[1..])
  }

  function Reps(q: seq<Msg>): nat {
    if |q| == 0 then 0 else (if q[0].GetReply? then 1 else 0) + Reps(q[1..])
  }

  lemma {:induction false} CountsAppend(q: seq<Msg>, m: Msg)
    ensures Gets(q + [m]) == Gets(q) + (if m.Get? then 1 else 0)
    ensures Reps(q + [m]) == Reps(q) + (if m.GetReply? then 1 else 0)
  {
    if |q| > 0 {
      assert (q + [m])[1..] == q[1..] + [m];
      CountsAppend(q[1..], m);
    }
  }

  predicate NotYetSent(m: Member, j: PeerId) {
    m.phase.Asking? && j in m.phase.unsent
  }

  /** Has m written its GET to j? */
  predicate HasSent(m: Member, j: PeerId) {
    m.phase.Holding? || (m.phase.Asking? && j !in m.phase.unsent)
  }

  predicate LooksFor(m: Member, i: PeerId) {
    m.looking.Some? && m.looking.value.peer == i
  }

  /** What i awaits of j is in one place only. */
  predicate Conserved(i: PeerId, mi: Member, j: PeerId, mj: Member, out: seq<Msg>, back: seq<Msg>) {
    && mi.waitOn[j] == (if NotYetSent(mi, j) then 1 else 0) + Gets(out) + (if LooksFor(mj, i) then 1 else 0) + Reps(back)
    && mi.waitOn[j] <= 1
    && (mi.phase.Absent? || mi.phase.Added? || mi.phase.Holding? ==> mi.waitOn[j] == 0)
  }

  ghost predicate RepliesSay(q: seq<Msg>, ans: Option<bool>) {
    forall k | 0 <= k < |q| && q[k].GetReply? :: ans == Some(q[k].have)
  }

  /** j's answer to i: decided when j looks, then carried faithfully, then acted on by both. */
  ghost predicate Answered(i: PeerId, mi: Member, j: PeerId, mj: Member, out: seq<Msg>, back: seq<Msg>, ans: Option<bool>) {
    && (ans.Some? <==> HasSent(mi, j) && Gets(out) == 0)
    && (LooksFor(mj, i) ==> ans == Some(mj.looking.value.found))
    && RepliesSay(back, ans)
    && (ans == Some(true) ==>
          && !mj.phase.Absent?
          && (i in mj.peers || LooksFor(mj, i))
          && (mi.waitOn[j] == 0 ==> j in mi.peers))
    && (i in mj.peers ==> !mi.phase.Absent?)
  }

  ghost predicate NodeInv(i: PeerId, m: Member) {
    && Distinct(m.peers) && i !in m.peers
    && (m.phase.Absent? ==> m.peers == [])
  }

  ghost function AnswerOf(s: State, j: PeerId, i: PeerId): Option<bool> {
    if (j, i) in s.answers then Some(s.answers[(j, i)]) else None
  }

  ghost predicate PairAt(s: State, i: PeerId, j: PeerId) {
    && i in s.nodes && j in s.nodes && (i, j) in s.chan && (j, i) in s.chan
    && Conserved(i, s.nodes[i], j, s.nodes[j], s.chan[(i, j)], s.chan[(j, i)])
    && Answered(i, s.nodes[i], j, s.nodes[j], s.chan[(i, j)], s.chan[(j, i)], AnswerOf(s, j, i))
    && (AnswerOf(s, j, i).Some? && AnswerOf(s, i, j).Some? ==> AnswerOf(s, j, i).value || AnswerOf(s, i, j).value)
  }

  ghost predicate NodeAt(s: State, i: PeerId) {
    && i in s.nodes && NodeInv(i, s.nodes[i])
    && (s.nodes[i].looking.Some? ==> (i, s.nodes[i].looking.value.peer) in s.chan)
    && (forall k | k in s.nodes[i].waitOn :: k in s.nodes && k != i)
    && (s.nodes[i].phase.Asking? ==> s.nodes[i].phase.unsent <= s.nodes.Keys - {i})
    && (forall k | k in s.nodes[i].peers :: k in s.nodes && k != i)
  }

  ghost predicate Inv(s: State) {
    && Shape(s)
    && (forall i {:trigger NodeAt(s, i)} | i in s.nodes :: NodeAt(s, i))
    && (forall i, j {:trigger PairAt(s, i, j)} | (i, j) in s.chan :: PairAt(s, i, j))
  }

  lemma InitialInv(members: set<PeerId>, o: State)
    requires Initial(members, o)
    ensures Inv(o)
  {
  }

  lemma StepKeepsShape(s: State, step: Step)
    requires Inv(s) && Enabled(s, step)
    ensures var t := Apply(s, step); Shape(t) && t.nodes.Keys == s.nodes.Keys && t.chan.Keys == s.chan.Keys
  {
    var t := Apply(s, step);
    if step.SendGet? {
      assert PairAt(s, step.i, step.to);
    }
    assert t.nodes.Keys == s.nodes.Keys;
    assert t.chan.Keys == s.chan.Keys;
    forall i, j
      ensures (i, j) in t.chan <==> i in t.nodes && j in t.nodes && i != j
    {
      assert (i, j) in t.chan <==> (i, j) in s.chan;
    }
  }

  lemma StepKeepsNode(s: State, step: Step, i: PeerId)
    requires Inv(s) && Enabled(s, step) && i in s.nodes
    ensures NodeAt(Apply(s, step), i)
  {
    if step.Recv? && step.to == i {
      RecvKeepsNode(s, step.from, i);
    } else if step == Answer(i) {
      AnswerKeepsNode(s, i);
    } else {
      OtherStepKeepsNode(s, step, i);
    }
  }

  lemma OtherStepKeepsNode(s: State, step: Step, i: PeerId)
    requires Inv(s) && Enabled(s, step) && i in s.nodes && !(step.Recv? && step.to == i) && step != Answer(i)
    ensures NodeAt(Apply(s, step), i)
  {
    StepKeepsShape(s, step);
    assert NodeAt(s, i);
    if Apply(s, step).nodes[i] == s.nodes[i] {
      SameNode(s, Apply(s, step), i);
    } else {
      OwnStepKeepsNode(s, step, i);
    }
  }

  lemma SameNode(s: State, t: State, i: PeerId)
    requires NodeAt(s, i) && t.nodes.Keys == s.nodes.Keys && t.chan.Keys == s.chan.Keys && t.nodes[i] == s.nodes[i]
    ensures NodeAt(t, i)
  {
  }

  lemma OwnStepKeepsNode(s: State, step: Step, i: PeerId)
    requires Inv(s) && Enabled(s, step) && i in s.nodes && !step.Recv? && !step.Answer? && step.i == i
    ensures NodeAt(Apply(s, step), i)
  {
    assert NodeAt(s, i);
  }

  lemma RecvKeepsNode(s: State, x: PeerId, y: PeerId)
    requires Inv(s) && Enabled(s, Recv(x, y))
    ensures NodeAt(Apply(s, Recv(x, y)), y)
  {
    if s.chan[(x, y)][0].Get? {
      assert NodeAt(s, y) && PairAt(s, x, y) && (y, x) in s.chan;
    } else {
      RecvReplyKeepsNode(s, x, y);
    }
  }

  lemma RecvReplyKeepsNode(s: State, x: PeerId, y: PeerId)
    requires Inv(s) && Enabled(s, Recv(x, y)) && s.chan[(x, y)][0].GetReply?
    ensures NodeAt(Apply(s, Recv(x, y)), y)
  {
    assert NodeAt(s, y) && PairAt(s, x, y) && (y, x) in s.chan;
    assert forall k | k in s.nodes[y].waitOn - multiset{x} :: k in s.nodes[y].waitOn;
  }

  lemma AnswerKeepsNode(s: State, x: PeerId)
    requires Inv(s) && Enabled(s, Answer(x))
    ensures NodeAt(Apply(s, Answer(x)), x)
  {
    assert NodeAt(s, x);
    var p := s.nodes[x].looking.value.peer;
    assert PairAt(s, x, p) && PairAt(s, p, x);
  }

  /** The two ends of a pair, untouched by a step elsewhere except as it says. */
  lemma AddKeepsPair(s: State, x: PeerId, i: PeerId, j: PeerId)
    requires Inv(s) && Enabled(s, Add(x)) && (i, j) in s.chan
    ensures PairAt(Apply(s, Add(x)), i, j)
  {
    assert PairAt(s, i, j);
  }

  lemma AskKeepsPair(s: State, x: PeerId, i: PeerId, j: PeerId)
    requires Inv(s) && Enabled(s, Ask(x)) && (i, j) in s.chan
    ensures PairAt(Apply(s, Ask(x)), i, j)
  {
    assert PairAt(s, i, j);
  }

  lemma FinishKeepsPair(s: State, x: PeerId, i: PeerId, j: PeerId)
    requires Inv(s) && Enabled(s, Finish(x)) && (i, j) in s.chan
    ensures PairAt(Apply(s, Finish(x)), i, j)
  {
    assert PairAt(s, i, j);
  }

  lemma SaysAppend(q: seq<Msg>, m: Msg, ans: Option<bool>)
    requires RepliesSay(q, ans) && (m.GetReply? ==> ans == Some(m.have))
    ensures RepliesSay(q + [m], ans)
  {
  }

  lemma SaysPop(q: seq<Msg>, ans: Option<bool>)
    requires RepliesSay(q, ans) && |q| > 0
    ensures RepliesSay(q[1..], ans)
  {
  }

  /** Nothing said, nothing to contradict. */
  lemma {:induction false} SilenceSays(q: seq<Msg>, ans: Option<bool>)
    requires Reps(q) == 0
    ensures RepliesSay(q, ans)
  {
    if |q| > 0 {
      SilenceSays(q[1..], ans);
      assert forall k | 0 < k < |q| :: q[k] == q[1..][k - 1];
    }
  }

  lemma SendGetKeepsPair(s: State, x: PeerId, to: PeerId, i: PeerId, j: PeerId)
    requires Inv(s) && Enabled(s, SendGet(x, to)) && (i, j) in s.chan
    ensures PairAt(Apply(s, SendGet(x, to)), i, j)
  {
    assert PairAt(s, i, j);
    if (x, to) == (i, j) {
      CountsAppend(s.chan[(i, j)], Get);
    } else if (x, to) == (j, i) {
      CountsAppend(s.chan[(j, i)], Get);
      SaysAppend(s.chan[(j, i)], Get, AnswerOf(s, j, i));
    }
  }

  /** j's listener looks up i's GET. */
  lemma GetArrives(s: State, i: PeerId, j: PeerId)
    requires Inv(s) && Enabled(s, Recv(i, j)) && s.chan[(i, j)][0].Get?
    ensures PairAt(Apply(s, Recv(i, j)), i, j)
  {
    assert PairAt(s, i, j) && PairAt(s, j, i);
    var t := Apply(s, Recv(i, j));
    assert s.nodes[i].waitOn[j] == 1 && Reps(s.chan[(j, i)]) == 0;
    SilenceSays(s.chan[(j, i)], AnswerOf(t, j, i));
  }

  /** i's listener looks up j's GET; seen from i's own GET to j. */
  lemma GetArrivesBack(s: State, j: PeerId, i: PeerId)
    requires Inv(s) && Enabled(s, Recv(j, i)) && (i, j) in s.chan && s.chan[(j, i)][0].Get?
    ensures PairAt(Apply(s, Recv(j, i)), i, j)
  {
    assert PairAt(s, i, j) && PairAt(s, j, i);
    SaysPop(s.chan[(j, i)], AnswerOf(s, j, i));
  }

  lemma GetArrivesElsewhere(s: State, x: PeerId, y: PeerId, i: PeerId, j: PeerId)
    requires Inv(s) && Enabled(s, Recv(x, y)) && (i, j) in s.chan && s.chan[(x, y)][0].Get?
    requires (x, y) != (i, j) && (x, y) != (j, i)
    ensures PairAt(Apply(s, Recv(x, y)), i, j)
  {
    assert PairAt(s, i, j);
  }

  /** The listener of y looks up x's GET. */
  lemma RecvGetKeepsPair(s: State, x: PeerId, y: PeerId, i: PeerId, j: PeerId)
    requires Inv(s) && Enabled(s, Recv(x, y)) && (i, j) in s.chan && s.chan[(x, y)][0].Get?
    ensures PairAt(Apply(s, Recv(x, y)), i, j)
  {
    if (x, y) == (i, j) {
      GetArrives(s, i, j);
    } else if (x, y) == (j, i) {
      GetArrivesBack(s, j, i);
    } else {
      GetArrivesElsewhere(s, x, y, i, j);
    }
  }

  /** i takes j's reply to its GET. */
  lemma ReplyArrives(s: State, j: PeerId, i: PeerId)
    requires Inv(s) && Enabled(s, Recv(j, i)) && (i, j) in s.chan && s.chan[(j, i)][0].GetReply?
    ensures PairAt(Apply(s, Recv(j, i)), i, j)
  {
    assert PairAt(s, i, j) && PairAt(s, j, i) && NodeAt(s, j);
    var q := s.chan[(j, i)];
    SaysPop(q, AnswerOf(s, j, i));
    assert Reps(q) == 1 + Reps(q[1..]);
    assert AnswerOf(s, j, i) == Some(q[0].have);
  }

  /** The same reply, seen from j's own GET to i. */
  lemma ReplyArrivesBack(s: State, i: PeerId, j: PeerId)
    requires Inv(s) && Enabled(s, Recv(i, j)) && (i, j) in s.chan && s.chan[(i, j)][0].GetReply?
    ensures PairAt(Apply(s, Recv(i, j)), i, j)
  {
    assert PairAt(s, i, j) && PairAt(s, j, i) && NodeAt(s, i);
    var q := s.chan[(i, j)];
    assert Gets(q) == Gets(q[1..]);
    assert AnswerOf(s, i, j) == Some(q[0].have);
  }

  lemma ReplyArrivesElsewhere(s: State, x: PeerId, y: PeerId, i: PeerId, j: PeerId)
    requires Inv(s) && Enabled(s, Recv(x, y)) && (i, j) in s.chan && s.chan[(x, y)][0].GetReply?
    requires (x, y) != (i, j) && (x, y) != (j, i)
    ensures PairAt(Apply(s, Recv(x, y)), i, j)
  {
    assert PairAt(s, i, j);
    var m := s.nodes[y];
    if y == i || y == j {
      ReplyOfThird(m, x, s.chan[(x, y)][0].have, if y == i then j else i);
    }
  }

  /** A reply of x changes nothing with regard to another peer. */
  lemma ReplyOfThird(m: Member, x: PeerId, have: bool, p: PeerId)
    requires p != x
    ensures var n := OnGetReply(m, x, have);
            n.looking == m.looking && n.phase == m.phase && n.waitOn[p] == m.waitOn[p] && (p in n.peers <==> p in m.peers)
  {
  }

  lemma RecvReplyKeepsPair(s: State, x: PeerId, y: PeerId, i: PeerId, j: PeerId)
    requires Inv(s) && Enabled(s, Recv(x, y)) && (i, j) in s.chan && s.chan[(x, y)][0].GetReply?
    ensures PairAt(Apply(s, Recv(x, y)), i, j)
  {
    if (x, y) == (j, i) {
      ReplyArrives(s, j, i);
    } else if (x, y) == (i, j) {
      ReplyArrivesBack(s, i, j);
    } else {
      ReplyArrivesElsewhere(s, x, y, i, j);
    }
  }

  /** j answers i's GET. */
  lemma AnswerGiven(s: State, j: PeerId, i: PeerId)
    requires Inv(s) && Enabled(s, Answer(j)) && (i, j) in s.chan && s.nodes[j].looking.value.peer == i
    ensures PairAt(Apply(s, Answer(j)), i, j)
  {
    assert PairAt(s, i, j);
    var found := s.nodes[j].looking.value.found;
    CountsAppend(s.chan[(j, i)], GetReply(found));
    SaysAppend(s.chan[(j, i)], GetReply(found), AnswerOf(s, j, i));
  }

  /** i answers j's GET; seen from i's own GET to j. */
  lemma AnswerGivenBack(s: State, i: PeerId, j: PeerId)
    requires Inv(s) && Enabled(s, Answer(i)) && (i, j) in s.chan && s.nodes[i].looking.value.peer == j
    ensures PairAt(Apply(s, Answer(i)), i, j)
  {
    assert PairAt(s, i, j) && PairAt(s, j, i);
    CountsAppend(s.chan[(i, j)], GetReply(s.nodes[i].looking.value.found));
  }

  lemma AnswerGivenElsewhere(s: State, x: PeerId, i: PeerId, j: PeerId)
    requires Inv(s) && Enabled(s, Answer(x)) && (i, j) in s.chan
    requires (s.nodes[x].looking.value.peer, x) != (i, j) && (s.nodes[x].looking.value.peer, x) != (j, i)
    ensures PairAt(Apply(s, Answer(x)), i, j)
  {
    assert PairAt(s, i, j);
  }

  lemma AnswerKeepsPair(s: State, x: PeerId, i: PeerId, j: PeerId)
    requires Inv(s) && Enabled(s, Answer(x)) && (i, j) in s.chan
    ensures PairAt(Apply(s, Answer(x)), i, j)
  {
    var p := s.nodes[x].looking.value.peer;
    if (p, x) == (i, j) {
      AnswerGiven(s, j, i);
    } else if (p, x) == (j, i) {
      AnswerGivenBack(s, i, j);
    } else {
      AnswerGivenElsewhere(s, x, i, j);
    }
  }

  lemma StepKeepsPair(s: State, step: Step, i: PeerId, j: PeerId)
    requires Inv(s) && Enabled(s, step) && (i, j) in s.chan
    ensures PairAt(Apply(s, step), i, j)
  {
    match step {
      case Add(x) => AddKeepsPair(s, x, i, j);
      case Ask(x) => AskKeepsPair(s, x, i, j);
      case SendGet(x, to) => SendGetKeepsPair(s, x, to, i, j);
      case Finish(x) => FinishKeepsPair(s, x, i, j);
      case Recv(x, y) =>
        if s.chan[(x, y)][0].Get? {
          RecvGetKeepsPair(s, x, y, i, j);
        } else {
          RecvReplyKeepsPair(s, x, y, i, j);
        }
      case Answer(x) => AnswerKeepsPair(s, x, i, j);
    }
  }

  lemma StepKeepsInv(s: State, step: Step)
    requires Inv(s) && Enabled(s, step)
    ensures Inv(Apply(s, step))
  {
    StepKeepsShape(s, step);
    var t := Apply(s, step);
    forall i | i in t.nodes
      ensures NodeAt(t, i)
    {
      StepKeepsNode(s, step, i);
    }
    forall i, j | (i, j) in t.chan
      ensures PairAt(t, i, j)
    {
      StepKeepsPair(s, step, i, j);
    }
  }

  lemma {:induction false} RunKeepsInv(s: State, steps: seq<Step>)
    requires Inv(s) && Run(s, steps).Some?
    ensures Inv(Run(s, steps).value) && Run(s, steps).value.nodes.Keys == s.nodes.Keys
    decreases |steps|
  {
    if |steps| > 0 {
      StepKeepsInv(s, steps[0]);
      StepKeepsShape(s, steps[0]);
      RunKeepsInv(Apply(s, steps[0]), steps[1..]);
    }
  }

  lemma {:induction false} DistinctOnce(peers: seq<PeerId>, p: PeerId)
    requires Distinct(peers)
    ensures multiset(peers)[p] == if p in peers then 1 else 0
  {
    if |peers| > 0 {
      assert peers == [peers[0]] + peers[1..];
      DistinctOnce(peers[1..], p);
    }
  }

  /** One of two holders found the other, whichever looked first; that is enough for both. */
  lemma BothList(s: State, i: PeerId, j: PeerId)
    requires Inv(s) && (i, j) in s.chan
    ensures i in s.nodes && j in s.nodes
    ensures s.nodes[i].phase.Holding? && s.nodes[j].phase.Holding? ==> j in s.nodes[i].peers && i in s.nodes[j].peers
    ensures i in s.nodes[j].peers ==> !s.nodes[i].phase.Absent?
    ensures j in s.nodes[i].peers ==> !s.nodes[j].phase.Absent?
  {
    assert PairAt(s, i, j) && PairAt(s, j, i);
    if s.nodes[i].phase.Holding? && s.nodes[j].phase.Holding? {
      assert AnswerOf(s, j, i).Some? && AnswerOf(s, i, j).Some?;
    }
  }

  /**
    In every run: two nodes whose edsm_dobj_get has returned list each other exactly once,
    no node lists itself, and whoever is listed has the object.
   */
  lemma JoinIsSymmetric(members: set<PeerId>, o: State, steps: seq<Step>, s: State, i: PeerId, j: PeerId)
    requires Initial(members, o) && Run(o, steps) == Some(s) && i in members && j in members
    ensures i in s.nodes && j in s.nodes
    ensures i != j && s.nodes[i].phase.Holding? && s.nodes[j].phase.Holding? ==>
              multiset(s.nodes[i].peers)[j] == 1 && multiset(s.nodes[j].peers)[i] == 1
    ensures i !in s.nodes[i].peers
    ensures j in s.nodes[i].peers ==> !s.nodes[j].phase.Absent?
  {
    InitialInv(members, o);
    RunKeepsInv(o, steps);
    assert NodeAt(s, i) && NodeAt(s, j);
    if i != j {
      BothList(s, i, j);
      DistinctOnce(s.nodes[i].peers, j);
      DistinctOnce(s.nodes[j].peers, i);
    }
  }

  /**
    Each GET gets exactly one reply: what a node awaits of another is its GET unsent or on
    its way, or the lookup under way, or the reply on its way; never two of them.
   */
  lemma OneReplyPerGet(members: set<PeerId>, o: State, steps: seq<Step>, s: State, i: PeerId, j: PeerId)
    requires Initial(members, o) && Run(o, steps) == Some(s) && i in members && j in members && i != j
    ensures (i, j) in s.chan && (j, i) in s.chan && i in s.nodes && j in s.nodes
    ensures Conserved(i, s.nodes[i], j, s.nodes[j], s.chan[(i, j)], s.chan[(j, i)])
  {
    InitialInv(members, o);
    RunKeepsInv(o, steps);
    assert NodeAt(s, i) && NodeAt(s, j);
    assert PairAt(s, i, j);
  }

  /** No deadlock: while a node asks, some step of the exchange is enabled. */
  lemma AskingProceeds(s: State, i: PeerId) returns (step: Step)
    requires Inv(s) && i in s.nodes && s.nodes[i].phase.Asking?
    ensures Enabled(s, step) && !step.Add?
  {
    assert NodeAt(s, i);
    var unsent := s.nodes[i].phase.unsent;
    if unsent != {} {
      var j: PeerId :| j in unsent;
      assert (i, j) in s.chan;
      return SendGet(i, j);
    } else if s.nodes[i].waitOn == multiset{} {
      return Finish(i);
    }
    var j: PeerId :| j in s.nodes[i].waitOn;
    assert NodeAt(s, j) && PairAt(s, i, j) && (j, i) in s.chan;
    if s.nodes[j].looking.Some? {
      return Answer(j);
    } else if |s.chan[(i, j)]| > 0 {
      return Recv(i, j);
    } else if s.nodes[i].looking.Some? {
      return Answer(i);
    } else {
      return Recv(j, i);
    }
  }
}

/** The object and the handlers of src/dobj/dobj.c; every method implements a step of JoinNode. */
module JoinObjects {
  import opened Options
  import opened LinkedLists
  import opened ReplyWaiters
  import opened JoinNode

  class SharedObject {
    var phase: Phase                 // where edsm_dobj_get stands
    var peers: LinkedList<JoinNode.PeerId>
    var waiter: ReplyWaiter
    var looking: Option<Look>        // the GET in the listener's hands
    ghost var Repr: set<object>

    ghost predicate Valid()
      reads this, Repr
      ensures Valid() ==> this in Repr
    {
      && this in Repr
      && peers in Repr && peers.Repr <= Repr && this !in peers.Repr
      && waiter in Repr && waiter.Repr <= Repr && this !in waiter.Repr
      && peers.Repr !! waiter.Repr
      && peers.Valid() && waiter.Valid()
    }

    ghost function View(): Member
      requires Valid()
      reads this, Repr
    {
      Member(phase, peers.Contents(), waiter.Awaited(), looking)
    }

    constructor ()
      ensures Valid() && fresh(Repr) && View() == FRESH
    {
      phase, looking := Absent, None;
      peers := new LinkedList();
      waiter := new ReplyWaiter();
      new;
      Repr := {this} + peers.Repr + waiter.Repr;
    }

    /** _add_peer_reference (src/dobj/dobj.c:57-66). */
    method AddPeerReference(p: JoinNode.PeerId)
      requires Valid()
      modifies this`Repr, peers.Repr
      ensures Valid() && fresh(Repr - old(Repr))
      ensures View() == old(View()).(peers := WithPeer(old(View()).peers, p))
    {
      var n := peers.head;
      ghost var i := 0;
      while n != null
        invariant 0 <= i <= |peers.nodes| && (if i < |peers.nodes| then n == peers.nodes[i] else n == null)
        invariant p !in peers.Contents()[..i]
        decreases |peers.nodes| - i
      {
        if n.val == p {
          assert peers.Contents()[i] == p;
          return;
        }
        n, i := n.next, i + 1;
      }
      assert peers.Contents()[..i] == peers.Contents();
      peers.Append(p);
      Repr := Repr + peers.Repr;
    }

    /** edsm_dobj_handle_get_reply (src/dobj/dobj.c:79-95). */
    method HandleGetReply(from: JoinNode.PeerId, have: bool)
      requires Valid()
      modifies Repr
      ensures Valid() && fresh(Repr - old(Repr))
      ensures View() == OnGetReply(old(View()), from, have)
    {
      if phase.Absent? {
        return;
      }
      if have {
        AddPeerReference(from);
      }
      CountReply(from);
    }

    /** The waiter counts the reply (src/dobj/dobj.c:93). */
    method CountReply(from: JoinNode.PeerId)
      requires Valid()
      modifies waiter.Repr
      ensures Valid() && Repr == old(Repr) && View() == old(View()).(waitOn := old(View()).waitOn - multiset{from})
    {
      waiter.AddReply(from);
    }

    /** The lookup of edsm_dobj_handle_get (src/dobj/dobj.c:109-110). */
    method LookUp(from: JoinNode.PeerId)
      requires Valid()
      modifies this`looking
      ensures Valid() && View() == OnGet(old(View()), from)
    {
      looking := Some(Look(from, !phase.Absent?));
    }

    /** The rest of edsm_dobj_handle_get (src/dobj/dobj.c:111-122). */
    method AnswerGet() returns (reply: Msg)
      requires Valid() && looking.Some?
      modifies Repr
      ensures Valid() && fresh(Repr - old(Repr))
      ensures (View(), reply) == OnAnswer(old(View()))
    {
      var l := looking.value;
      if l.found {
        AddPeerReference(l.peer);
        reply := GetReply(true);
      } else {
        reply := GetReply(false);
      }
      looking := None;
    }

    /** edsm_reply_waiter_set_wait_on in edsm_dobj_get (src/dobj/dobj.c:145). */
    method Arm(others: seq<JoinNode.PeerId>)
      requires Valid() && phase.Added?
      modifies Repr
      ensures Valid() && fresh(Repr - old(Repr))
      ensures View() == old(View()).(phase := Asking(set p | p in others), waitOn := multiset(others))
    {
      waiter.SetWaitOn(others);
      Repr := Repr + waiter.Repr;
      phase := Asking(set p | p in others);
    }
  }
}
