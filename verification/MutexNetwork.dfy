/**
  The nodes of the mutex joined by one FIFO channel per ordered pair.
  Membership is fixed and every node has joined before the first lock.
 */
module MutexNetwork {
  import opened Options
  import opened MutexNode

  /**
    Who receives a reply. The code names an addressee but hands the reply to
    edsm_dobj_send, which sends to every peer (src/dobj/mutex.c:15-25).
   */
  datatype Addressing = Addressed | AsWritten

  type Channel = (PeerId, PeerId)

  datatype State = State(nodes: map<PeerId, Node>, chan: map<Channel, seq<Msg>>)

  datatype Step = Lock(i: PeerId) | Recv(from: PeerId, to: PeerId) | Enter(i: PeerId) | Unlock(i: PeerId)

  /** Every node has joined, nothing has happened. */
  ghost predicate Initial(members: set<PeerId>, s: State) {
    && s.nodes.Keys == members && Shape(s)
    && (forall i | i in s.nodes :: s.nodes[i] == FRESH)
    && (forall c | c in s.chan :: s.chan[c] == [])
  }

  function Init(members: set<PeerId>): (s: State)
    ensures Initial(members, s)
  {
    State(map i | i in members :: FRESH,
          map i, j | i in members && j in members && i != j :: (i, j) := [])
  }

  ghost predicate Shape(s: State) {
    forall i, j {:trigger (i, j) in s.chan} :: (i, j) in s.chan <==> i in s.nodes && j in s.nodes && i != j
  }

  predicate Reaches(mode: Addressing, dest: Dest, k: PeerId) {
    dest.Everyone? || mode.AsWritten? || dest.id == k
  }

  /** What of a node's output travels to k. */
  function Stream(mode: Addressing, envs: seq<Envelope>, k: PeerId): seq<Msg> {
    if |envs| == 0 then []
    else (if Reaches(mode, envs[0].dest, k) then [envs[0].msg] else []) + Stream(mode, envs[1..], k)
  }

  function Send(mode: Addressing, chan: map<Channel, seq<Msg>>, i: PeerId, envs: seq<Envelope>): map<Channel, seq<Msg>> {
    map c | c in chan :: if c.0 == i then chan[c] + Stream(mode, envs, c.1) else chan[c]
  }

  function Others(s: State, i: PeerId): multiset<PeerId> {
    multiset(s.nodes.Keys - {i})
  }

  predicate Enabled(s: State, step: Step) {
    match step
    case Lock(i) => i in s.nodes && s.nodes[i].request.None?
    case Recv(from, to) => (from, to) in s.chan && to in s.nodes && |s.chan[(from, to)]| > 0
    case Enter(i) => i in s.nodes && CanEnter(s.nodes[i])
    case Unlock(i) => i in s.nodes && s.nodes[i].inside
  }

  function Apply(mode: Addressing, s: State, step: Step): State
    requires Enabled(s, step)
  {
    match step
    case Lock(i) =>
      var (n, envs) := OnLock(s.nodes[i], i, Others(s, i));
      State(s.nodes[i := n], Send(mode, s.chan, i, envs))
    case Recv(from, to) =>
      var q := s.chan[(from, to)];
      var (n, envs) := OnMessage(s.nodes[to], from, q[0]);
      State(s.nodes[to := n], Send(mode, s.chan[(from, to) := q[1..]], to, envs))
    case Enter(i) => s.(nodes := s.nodes[i := OnEnter(s.nodes[i])])
    case Unlock(i) =>
      var (n, envs) := OnUnlock(s.nodes[i]);
      State(s.nodes[i := n], Send(mode, s.chan, i, envs))
  }

  /** The state after the steps, if each was enabled. */
  function Run(mode: Addressing, s: State, steps: seq<Step>): Option<State>
    decreases |steps|
  {
    if |steps| == 0 then Some(s)
    else if Enabled(s, steps[0]) then Run(mode, Apply(mode, s, steps[0]), steps[1..])
    else None
  }

  predicate MutualExclusion(s: State) {
    forall i, j | i in s.nodes && j in s.nodes && s.nodes[i].inside && s.nodes[j].inside :: i == j
  }

  // ---- counting ----

  function Requests(q: seq<Msg>): nat {
    if |q| == 0 then 0 else (if q[0].Req? then 1 else 0) + Requests(q[1..])
  }

  function ReplyCount(q: seq<Msg>): nat {
    if |q| == 0 then 0 else (if q[0].Rep? then 1 else 0) + ReplyCount(q[1..])
  }

  function Entries(d: seq<Request>, i: PeerId): nat {
    if |d| == 0 then 0 else (if d[0].peer == i then 1 else 0) + Entries(d[1..], i)
  }

  lemma {:induction false} CountsAppend(a: seq<Msg>, b: seq<Msg>)
    ensures Requests(a + b) == Requests(a) + Requests(b)
    ensures ReplyCount(a + b) == ReplyCount(a) + ReplyCount(b)
  {
    if |a| == 0 {
      assert a + b == b;
    } else {
      assert (a + b)[1..] == a[1..] + b;
      CountsAppend(a[1..], b);
    }
  }
}
