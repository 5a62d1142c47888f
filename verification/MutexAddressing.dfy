/**
  Who receives a reply. The code hands every reply to edsm_dobj_send, which sends
  to all peers (src/dobj/mutex.c:22, src/dobj/dobj.c:164-187). For two nodes that
  is the addressee and nobody else; for three nodes it breaks mutual exclusion.
 */
module MutexAddressing {
  import opened Options
  import opened MutexNode
  import opened MutexNetwork
  import opened MutexSafety

  // ---- two nodes: the code as written ----

  lemma {:induction false} SameStream(envs: seq<Envelope>, k: PeerId)
    requires forall e | e in envs :: e.dest == Everyone || e.dest == Peer(k)
    ensures Stream(AsWritten, envs, k) == Stream(Addressed, envs, k)
  {
    if |envs| > 0 {
      assert envs[0] in envs;
      SameStream(envs[1..], k);
    }
  }

  lemma {:induction false} RepliesTo(time: nat, d: seq<Request>, k: PeerId)
    requires forall e | e in d :: e.peer == k
    ensures forall e | e in Replies(time, d) :: e.dest == Peer(k)
    decreases |d|
  {
    if |d| > 0 {
      assert d[0] in d;
      RepliesTo(time + 1, d[1..], k);
    }
  }

  ghost function Output(s: State, step: Step): seq<Envelope>
    requires Enabled(s, step)
  {
    match step
    case Lock(i) => OnLock(s.nodes[i], i, Others(s, i)).1
    case Recv(from, to) => OnMessage(s.nodes[to], from, s.chan[(from, to)][0]).1
    case Enter(i) => []
    case Unlock(i) => OnUnlock(s.nodes[i]).1
  }

  ghost function Actor(step: Step): PeerId {
    if step.Recv? then step.to else step.i
  }

  /** With two nodes the addressee of a reply is the only other node. */
  lemma OutputOfTwo(s: State, step: Step, k: PeerId)
    requires Inv(s) && Enabled(s, step) && s.nodes.Keys == {Actor(step), k} && k != Actor(step)
    ensures forall e | e in Output(s, step) :: e.dest == Everyone || e.dest == Peer(k)
  {
    var x := Actor(step);
    assert NodeAt(s, x);
    if step.Unlock? {
      RepliesTo(s.nodes[x].time, s.nodes[x].deferred, k);
    }
  }

  lemma SameOutput(s: State, step: Step, k: PeerId)
    requires Inv(s) && Enabled(s, step) && |s.nodes.Keys| <= 2 && k in s.nodes && k != Actor(step)
    ensures Stream(AsWritten, Output(s, step), k) == Stream(Addressed, Output(s, step), k)
  {
    var x := Actor(step);
    assert s.nodes.Keys == {x, k} by {
      assert {x, k} <= s.nodes.Keys;
      assert |s.nodes.Keys - {x, k}| == |s.nodes.Keys| - |{x, k}|;
    }
    OutputOfTwo(s, step, k);
    SameStream(Output(s, step), k);
  }

  lemma SameStep(s: State, step: Step)
    requires Inv(s) && Enabled(s, step) && |s.nodes.Keys| <= 2
    ensures Apply(AsWritten, s, step) == Apply(Addressed, s, step)
  {
    var x := Actor(step);
    var a, b := Apply(AsWritten, s, step), Apply(Addressed, s, step);
    forall c | c in b.chan
      ensures a.chan[c] == b.chan[c]
    {
      assert c == (c.0, c.1);
      if c.0 == x && !step.Enter? {
        SameOutput(s, step, c.1);
      }
    }
    assert a.chan == b.chan;
  }

  /** Every run of two nodes is the same whichever way replies are sent. */
  lemma {:induction false} TwoNodesSameRun(s: State, steps: seq<Step>)
    requires Inv(s) && |s.nodes.Keys| <= 2
    ensures Run(AsWritten, s, steps) == Run(Addressed, s, steps)
    decreases |steps|
  {
    if |steps| > 0 && Enabled(s, steps[0]) {
      SameStep(s, steps[0]);
      StepKeepsInv(s, steps[0]);
      StepKeepsShape(Addressed, s, steps[0]);
      TwoNodesSameRun(Apply(Addressed, s, steps[0]), steps[1..]);
    }
  }

  /** Mutual exclusion of the code as written, for two nodes. */
  lemma TwoNodesExclude(members: set<PeerId>, o: State, steps: seq<Step>)
    requires Initial(members, o) && |members| <= 2
    ensures var r := Run(AsWritten, o, steps);
            && r == Run(Addressed, o, steps)
            && (r.Some? ==> MutualExclusion(r.value))
  {
    InitialInv(members, o);
    TwoNodesSameRun(o, steps);
    MutualExclusionHolds(members, o, steps);
  }

  // ---- three nodes or more: a run of the code as written with two nodes inside ----

  ghost predicate Leads(s: State, t: State) {
    exists steps :: Run(AsWritten, s, steps) == Some(t)
  }

  lemma {:induction false} RunThenStep(s: State, steps: seq<Step>, step: Step)
    ensures var r := Run(AsWritten, s, steps);
            r.Some? && Enabled(r.value, step) ==>
            Run(AsWritten, s, steps + [step]) == Some(Apply(AsWritten, r.value, step))
    decreases |steps|
  {
    if |steps| == 0 {
      assert ([] + [step])[1..] == [];
    } else {
      assert (steps + [step])[1..] == steps[1..] + [step];
      if Enabled(s, steps[0]) {
        RunThenStep(Apply(AsWritten, s, steps[0]), steps[1..], step);
      }
    }
  }

  /** A set of states that the steps of the code as written do not leave. */
  ghost predicate Closed(r: iset<State>) {
    forall s, step {:trigger Apply(AsWritten, s, step)} | s in r && Enabled(s, step) :: Apply(AsWritten, s, step) in r
  }

  lemma ReachedIsClosed(o: State)
    ensures var r := iset t | Leads(o, t);
            o in r && Closed(r)
  {
    assert Run(AsWritten, o, []) == Some(o);
    forall s, step | Leads(o, s) && Enabled(s, step)
      ensures Leads(o, Apply(AsWritten, s, step))
    {
      var steps :| Run(AsWritten, o, steps) == Some(s);
      RunThenStep(o, steps, step);
    }
  }

  ghost predicate OneReply(q: seq<Msg>) {
    |q| == 1 && q[0].Rep?
  }

  lemma OneAnswers(s: State, c: PeerId, x: PeerId)
    requires Shape(s) && Enabled(s, Recv(c, x)) && s.nodes[x].request.None? && s.chan[(c, x)] == [Req(1)]
    requires forall y | (x, y) in s.chan :: s.chan[(x, y)] == []
    ensures forall y | (x, y) in s.chan :: OneReply(Apply(AsWritten, s, Recv(c, x)).chan[(x, y)])
  {
    forall y | (x, y) in s.chan
      ensures OneReply(Apply(AsWritten, s, Recv(c, x)).chan[(x, y)])
    {
      StreamOfOne(AsWritten, OnMessage(s.nodes[x], c, Req(1)).1[0], y);
    }
  }

  /** The nodes of `from` answer the request that c has sent them; everybody hears the answers. */
  lemma {:induction false} AllAnswer(r: iset<State>, s: State, c: PeerId, from: set<PeerId>) returns (t: State)
    requires Closed(r) && s in r && Shape(s) && c in s.nodes && from <= s.nodes.Keys - {c}
    requires forall x | x in from :: s.nodes[x].request.None? && s.chan[(c, x)] == [Req(1)]
    requires forall x, y | x in from && (x, y) in s.chan :: s.chan[(x, y)] == []
    ensures t in r && Shape(t) && t.nodes.Keys == s.nodes.Keys
    ensures forall x | x in from :: t.nodes[x] == s.nodes[x].(time := t.nodes[x].time) && t.chan[(c, x)] == []
    ensures forall x, y | x in from && (x, y) in s.chan :: OneReply(t.chan[(x, y)])
    ensures forall x | x in s.nodes && x !in from :: t.nodes[x] == s.nodes[x]
    ensures forall x, y | (x, y) in s.chan && x !in from && (x != c || y !in from) :: t.chan[(x, y)] == s.chan[(x, y)]
    decreases from
  {
    t := s;
    if x :| x in from {
      var step := Recv(c, x);
      StepKeepsShape(AsWritten, s, step);
      OneAnswers(s, c, x);
      t := AllAnswer(r, Apply(AsWritten, s, step), c, from - {x});
    }
  }

  /** s and t differ only in what w has taken from the nodes of `from`. */
  ghost predicate Absorbed(s: State, t: State, w: PeerId, from: set<PeerId>)
    requires w in s.nodes
  {
    && Shape(t) && t.nodes.Keys == s.nodes.Keys && t.chan.Keys == s.chan.Keys
    && t.nodes[w] == s.nodes[w].(time := t.nodes[w].time, waitOn := s.nodes[w].waitOn - multiset(from))
    && (forall x | x in s.nodes && x != w :: t.nodes[x] == s.nodes[x])
    && (forall x | x in from && (x, w) in s.chan && |s.chan[(x, w)]| > 0 :: t.chan[(x, w)] == s.chan[(x, w)][1..])
    && (forall x, y | (x, y) in s.chan && (x !in from || y != w) :: t.chan[(x, y)] == s.chan[(x, y)])
  }

  lemma AbsorbOne(s: State, w: PeerId, x: PeerId)
    requires Shape(s) && (x, w) in s.chan && |s.chan[(x, w)]| > 0 && s.chan[(x, w)][0].Rep?
    ensures w in s.nodes && Enabled(s, Recv(x, w)) && Absorbed(s, Apply(AsWritten, s, Recv(x, w)), w, {x})
  {
    StepKeepsShape(AsWritten, s, Recv(x, w));
  }

  lemma AbsorbedBoth(s: State, s': State, t: State, w: PeerId, x: PeerId, from: set<PeerId>)
    requires w in s.nodes && w in s'.nodes && x !in from
    requires Absorbed(s, s', w, {x}) && Absorbed(s', t, w, from)
    ensures Absorbed(s, t, w, from + {x})
  {
    assert multiset(from + {x}) == multiset({x}) + multiset(from);
  }

  /** A reply is the next thing that each of these nodes has sent w. */
  ghost predicate ReplyNext(s: State, w: PeerId, from: set<PeerId>) {
    forall x | x in from :: (x, w) in s.chan && |s.chan[(x, w)]| > 0 && s.chan[(x, w)][0].Rep?
  }

  lemma StillReplies(s: State, s': State, w: PeerId, x: PeerId, from: set<PeerId>)
    requires w in s.nodes && Absorbed(s, s', w, {x}) && ReplyNext(s, w, from)
    ensures ReplyNext(s', w, from - {x})
  {
  }

  lemma AbsorbNothing(s: State, w: PeerId)
    requires Shape(s) && w in s.nodes
    ensures Absorbed(s, s, w, {})
  {
  }

  /** w, which has asked, takes the first message of each node of `from`: replies all. */
  lemma {:induction false} Absorb(r: iset<State>, s: State, w: PeerId, from: set<PeerId>) returns (t: State)
    requires Closed(r) && s in r && Shape(s) && w in s.nodes && ReplyNext(s, w, from)
    ensures t in r && Absorbed(s, t, w, from)
    decreases from
  {
    if from == {} {
      t := s;
      AbsorbNothing(s, w);
    } else {
      var x: PeerId :| x in from;
      AbsorbOne(s, w, x);
      var s' := Apply(AsWritten, s, Recv(x, w));
      StillReplies(s, s', w, x, from);
      t := Absorb(r, s', w, from - {x});
      AbsorbedBoth(s, s', t, w, x, from - {x});
      assert from - {x} + {x} == from;
    }
  }

  /** x has asked and lacks the answers of exactly these nodes. */
  ghost predicate Lacks(n: Node, who: set<PeerId>) {
    n.request.Some? && !n.inside && n.deferred == [] && n.waitOn == multiset(who)
  }

  /** Third node c has asked, everybody has answered it, and a and b have asked in turn. */
  ghost predicate Primed(s: State, a: PeerId, b: PeerId, c: PeerId) {
    && Shape(s) && {a, b, c} <= s.nodes.Keys && a != b && a != c && b != c
    && (forall x | x in {a, b, c} :: Lacks(s.nodes[x], s.nodes.Keys - {x}))
    && (forall x, y | (x, y) in s.chan ::
          if x == c then s.chan[(x, y)] == []
          else if x == a || x == b then |s.chan[(x, y)]| == 2 && s.chan[(x, y)][0].Rep? && s.chan[(x, y)][1].Req?
          else OneReply(s.chan[(x, y)]))
  }

  /** c has asked, everybody has answered it, and nothing else has happened. */
  ghost predicate Answered(s: State, c: PeerId) {
    && Shape(s) && c in s.nodes
    && s.nodes[c] == OnLock(FRESH, c, Others(s, c)).0
    && (forall x | x in s.nodes && x != c :: s.nodes[x] == FRESH.(time := s.nodes[x].time))
    && (forall x, y | (x, y) in s.chan :: if x == c then s.chan[(x, y)] == [] else OneReply(s.chan[(x, y)]))
  }

  lemma AnswerFirst(r: iset<State>, members: set<PeerId>, o: State, c: PeerId) returns (s: State)
    requires Closed(r) && Initial(members, o) && o in r && c in members
    ensures s in r && Answered(s, c) && s.nodes.Keys == members
  {
    var s1 := AskFirst(r, members, o, c);
    s := AllAnswer(r, s1, c, members - {c});
  }

  lemma AskFirst(r: iset<State>, members: set<PeerId>, o: State, c: PeerId) returns (s: State)
    requires Closed(r) && Initial(members, o) && o in r && c in members
    ensures s in r && Shape(s) && s.nodes.Keys == members
    ensures s.nodes[c] == OnLock(FRESH, c, Others(s, c)).0 && forall x | x in members && x != c :: s.nodes[x] == FRESH
    ensures forall x, y | (x, y) in s.chan :: s.chan[(x, y)] == if x == c then [Req(1)] else []
  {
    s := LockAsWritten(r, o, c);
  }

  lemma Prime(r: iset<State>, members: set<PeerId>, o: State, a: PeerId, b: PeerId, c: PeerId) returns (s: State)
    requires Closed(r) && Initial(members, o) && o in r
    requires {a, b, c} <= members && a != b && a != c && b != c
    ensures s in r && Primed(s, a, b, c) && s.nodes.Keys == members
  {
    var s2 := AnswerFirst(r, members, o, c);
    var s3 := LockAsWritten(r, s2, a);
    s := LockAsWritten(r, s3, b);
  }

  lemma LockAsWritten(r: iset<State>, s: State, x: PeerId) returns (t: State)
    requires Closed(r) && s in r && Shape(s) && x in s.nodes && s.nodes[x].request.None?
    ensures t in r && Shape(t) && t.nodes.Keys == s.nodes.Keys && t.chan.Keys == s.chan.Keys
    ensures t.nodes == s.nodes[x := OnLock(s.nodes[x], x, Others(s, x)).0]
    ensures forall y | (x, y) in s.chan :: t.chan[(x, y)] == s.chan[(x, y)] + [Req(s.nodes[x].time + 1)]
    ensures forall y, z | (y, z) in s.chan && y != x :: t.chan[(y, z)] == s.chan[(y, z)]
  {
    StepKeepsShape(AsWritten, s, Lock(x));
    t := Apply(AsWritten, s, Lock(x));
    forall y | (x, y) in s.chan
      ensures t.chan[(x, y)] == s.chan[(x, y)] + [Req(s.nodes[x].time + 1)]
    {
      StreamOfOne(AsWritten, Envelope(Everyone, Req(s.nodes[x].time + 1)), y);
    }
  }

  /** c is out of the way; a and b each lack only c's answer, and a's request has yet to reach c. */
  ghost predicate Ripe(s: State, a: PeerId, b: PeerId, c: PeerId) {
    && Shape(s) && {a, b, c} <= s.nodes.Keys && a != b && a != c && b != c
    && Lacks(s.nodes[a], {c}) && Lacks(s.nodes[b], {c})
    && s.nodes[c].request.None?
    && |s.chan[(a, c)]| == 1 && s.chan[(a, c)][0].Req?
    && s.chan[(c, a)] == [] && s.chan[(c, b)] == []
  }

  /** Every node but c has a reply at the head of its channel to x. */
  ghost predicate RepliesInto(s: State, x: PeerId, c: PeerId) {
    forall y {:trigger ReplyAt(s, y, x)} | y in s.nodes && y != x && y != c :: ReplyAt(s, y, x)
  }

  ghost predicate ReplyAt(s: State, y: PeerId, x: PeerId) {
    (y, x) in s.chan && |s.chan[(y, x)]| > 0 && s.chan[(y, x)][0].Rep?
  }

  /** What x's taking of replies is to another node y, and to what c has sent and is sent. */
  ghost predicate Passed(s: State, t: State, x: PeerId, y: PeerId, c: PeerId) {
    && y in s.nodes && y in t.nodes && t.nodes[y] == s.nodes[y] && (RepliesInto(s, y, c) ==> RepliesInto(t, y, c))
    && (y != c ==> (c, y) in s.chan && (c, y) in t.chan && (y, c) in s.chan && (y, c) in t.chan
                   && t.chan[(c, y)] == s.chan[(c, y)]
                   && (if x == c then |s.chan[(y, c)]| > 0 && t.chan[(y, c)] == s.chan[(y, c)][1..]
                       else t.chan[(y, c)] == s.chan[(y, c)]))
  }

  /** Taking those replies leaves x lacking c alone, or nobody if it is c. */
  lemma AbsorbInto(r: iset<State>, s: State, x: PeerId, c: PeerId) returns (t: State)
    requires Closed(r) && s in r && Shape(s) && x in s.nodes && c in s.nodes
    requires Lacks(s.nodes[x], s.nodes.Keys - {x}) && RepliesInto(s, x, c)
    ensures t in r && Shape(t) && t.nodes.Keys == s.nodes.Keys && Lacks(t.nodes[x], {c} - {x})
    ensures forall y {:trigger Passed(s, t, x, y, c)} | y in s.nodes && y != x :: Passed(s, t, x, y, c)
    ensures x != c ==> t.chan[(c, x)] == s.chan[(c, x)] && t.chan[(x, c)] == s.chan[(x, c)]
  {
    var from := s.nodes.Keys - {x, c};
    RepliesAreNext(s, x, c);
    t := Absorb(r, s, x, from);
    AbsorbedLacks(s, t, x, c);
    forall y | y in s.nodes && y != x
      ensures Passed(s, t, x, y, c)
    {
      AbsorbedPasses(s, t, x, y, c);
    }
    assert x != c ==> (c, x) in s.chan && (x, c) in s.chan;
  }

  lemma RepliesAreNext(s: State, x: PeerId, c: PeerId)
    requires Shape(s) && x in s.nodes && c in s.nodes && RepliesInto(s, x, c)
    ensures ReplyNext(s, x, s.nodes.Keys - {x, c})
  {
    forall y | y in s.nodes.Keys - {x, c}
      ensures (y, x) in s.chan && |s.chan[(y, x)]| > 0 && s.chan[(y, x)][0].Rep?
    {
      assert ReplyAt(s, y, x);
    }
  }

  lemma AbsorbedLacks(s: State, t: State, x: PeerId, c: PeerId)
    requires x in s.nodes && c in s.nodes && Absorbed(s, t, x, s.nodes.Keys - {x, c})
    requires Lacks(s.nodes[x], s.nodes.Keys - {x})
    ensures Lacks(t.nodes[x], {c} - {x})
  {
    assert multiset(s.nodes.Keys - {x}) - multiset(s.nodes.Keys - {x, c}) == multiset({c} - {x});
  }

  lemma AbsorbedPasses(s: State, t: State, x: PeerId, y: PeerId, c: PeerId)
    requires Shape(s) && x in s.nodes && c in s.nodes && Absorbed(s, t, x, s.nodes.Keys - {x, c}) && RepliesInto(s, x, c)
    requires y in s.nodes && y != x
    ensures Passed(s, t, x, y, c)
  {
    assert y != c ==> (c, y) in s.chan && (y, c) in s.chan;
    assert x == c ==> ReplyAt(s, y, c);
    if RepliesInto(s, y, c) {
      forall z | z in t.nodes && z != y && z != c
        ensures ReplyAt(t, z, y)
      {
        assert ReplyAt(s, z, y);
      }
    }
  }

  lemma PrimedHeads(s: State, a: PeerId, b: PeerId, c: PeerId)
    requires Primed(s, a, b, c)
    ensures RepliesInto(s, a, c) && RepliesInto(s, b, c) && RepliesInto(s, c, c)
    ensures |s.chan[(a, c)]| == 2 && s.chan[(a, c)][1].Req? && s.chan[(c, a)] == [] && s.chan[(c, b)] == []
  {
    assert forall y, x | (y, x) in s.chan && y != c :: ReplyAt(s, y, x);
  }

  lemma AbsorbAll(r: iset<State>, s: State, a: PeerId, b: PeerId, c: PeerId) returns (t: State)
    requires Closed(r) && s in r && Shape(s) && {a, b, c} <= s.nodes.Keys && a != b && a != c && b != c
    requires Lacks(s.nodes[a], s.nodes.Keys - {a}) && Lacks(s.nodes[b], s.nodes.Keys - {b})
    requires Lacks(s.nodes[c], s.nodes.Keys - {c})
    requires RepliesInto(s, a, c) && RepliesInto(s, b, c) && RepliesInto(s, c, c)
    ensures t in r && Shape(t) && t.nodes.Keys == s.nodes.Keys
    ensures Lacks(t.nodes[a], {c}) && Lacks(t.nodes[b], {c}) && Lacks(t.nodes[c], {})
    ensures (a, c) in s.chan && (c, a) in s.chan && (c, b) in s.chan && (a, c) in t.chan && (c, a) in t.chan && (c, b) in t.chan
    ensures |s.chan[(a, c)]| > 0 && t.chan[(a, c)] == s.chan[(a, c)][1..] && t.chan[(c, a)] == s.chan[(c, a)]
            && t.chan[(c, b)] == s.chan[(c, b)]
  {
    var s1 := AbsorbInto(r, s, a, c);
    assert Passed(s, s1, a, b, c) && Passed(s, s1, a, c, c);
    var s2 := AbsorbInto(r, s1, b, c);
    assert Passed(s1, s2, b, a, c) && Passed(s1, s2, b, c, c);
    t := AbsorbInto(r, s2, c, c);
    assert Passed(s2, t, c, a, c) && Passed(s2, t, c, b, c);
    assert {c} - {a} == {c} && {c} - {b} == {c} && {c} - {c} == {};
  }

  /** A holder with an empty queue leaves without a word. */
  lemma LeavesSilently(s: State, c: PeerId)
    requires Shape(s) && c in s.nodes && s.nodes[c].inside && s.nodes[c].deferred == []
    ensures Enabled(s, Unlock(c))
    ensures Apply(AsWritten, s, Unlock(c)) == s.(nodes := s.nodes[c := s.nodes[c].(request := None, inside := false)])
  {
    var t := Apply(AsWritten, s, Unlock(c));
    forall z | z in s.chan
      ensures t.chan[z] == s.chan[z]
    {
      assert Stream(AsWritten, [], z.1) == [];
    }
    assert t.chan == s.chan;
  }

  lemma EntersAndLeaves(r: iset<State>, s: State, c: PeerId) returns (t: State)
    requires Closed(r) && s in r && Shape(s) && c in s.nodes && Lacks(s.nodes[c], {})
    ensures t in r && Shape(t) && t == s.(nodes := s.nodes[c := s.nodes[c].(request := None)])
  {
    var s1 := Apply(AsWritten, s, Enter(c));
    LeavesSilently(s1, c);
    t := Apply(AsWritten, s1, Unlock(c));
    assert t.nodes == s.nodes[c := s.nodes[c].(request := None)];
  }

  lemma ThirdLeaves(r: iset<State>, s: State, a: PeerId, b: PeerId, c: PeerId) returns (t: State)
    requires Closed(r) && s in r && Primed(s, a, b, c)
    ensures t in r && Ripe(t, a, b, c) && t.nodes.Keys == s.nodes.Keys
  {
    PrimedHeads(s, a, b, c);
    var s1 := AbsorbAll(r, s, a, b, c);
    t := EntersAndLeaves(r, s1, c);
  }

  /** c answers a; everybody hears the answer. */
  lemma ThirdAnswers(r: iset<State>, s: State, a: PeerId, b: PeerId, c: PeerId) returns (t: State)
    requires Closed(r) && s in r && Ripe(s, a, b, c)
    ensures t in r && Shape(t) && t.nodes.Keys == s.nodes.Keys
    ensures t.nodes[a] == s.nodes[a] && t.nodes[b] == s.nodes[b]
    ensures OneReply(t.chan[(c, a)]) && OneReply(t.chan[(c, b)])
  {
    StepKeepsShape(AsWritten, s, Recv(a, c));
    t := Apply(AsWritten, s, Recv(a, c));
    var envs := OnMessage(s.nodes[c], a, s.chan[(a, c)][0]).1;
    StreamOfOne(AsWritten, envs[0], a);
    StreamOfOne(AsWritten, envs[0], b);
  }

  /** b counts the answer too, and both go in. */
  lemma BothEnter(r: iset<State>, s: State, a: PeerId, b: PeerId, c: PeerId) returns (t: State)
    requires Closed(r) && s in r && Ripe(s, a, b, c)
    ensures t in r && a in t.nodes && b in t.nodes && t.nodes[a].inside && t.nodes[b].inside
  {
    var s1 := ThirdAnswers(r, s, a, b, c);
    var s2 := Absorb(r, s1, a, {c});
    var s3 := Absorb(r, s2, b, {c});
    assert multiset{c} - multiset({c}) == multiset{};
    t := Apply(AsWritten, s3, Enter(a));
    t := Apply(AsWritten, t, Enter(b));
  }

  /**
    From three nodes on, two nodes can get inside: each counts what the others
    have answered a third, and both count that third node's answer to one of them.
   */
  lemma ThreeNodesCollide(members: set<PeerId>, o: State) returns (steps: seq<Step>)
    requires Initial(members, o) && |members| > 2
    ensures var r := Run(AsWritten, o, steps); r.Some? && !MutualExclusion(r.value)
  {
    var a :| a in members;
    assert |members - {a}| > 1;
    var b :| b in members - {a};
    assert |members - {a, b}| > 0 by {
      assert members - {a, b} == members - {a} - {b};
    }
    var c :| c in members - {a, b};
    ReachedIsClosed(o);
    var r := iset t | Leads(o, t);
    var s := Prime(r, members, o, a, b, c);
    s := ThirdLeaves(r, s, a, b, c);
    s := BothEnter(r, s, a, b, c);
    steps :| Run(AsWritten, o, steps) == Some(s);
  }

  /** The code as written excludes exactly when the mutex has at most two nodes. */
  lemma ExclusionAsWritten(members: set<PeerId>, o: State)
    requires Initial(members, o)
    ensures (forall steps :: var r := Run(AsWritten, o, steps); r.Some? ==> MutualExclusion(r.value))
       <==> |members| <= 2
  {
    if |members| <= 2 {
      forall steps
        ensures var r := Run(AsWritten, o, steps); r.Some? ==> MutualExclusion(r.value)
      {
        TwoNodesExclude(members, o, steps);
      }
    } else {
      var steps := ThreeNodesCollide(members, o);
    }
  }
}
