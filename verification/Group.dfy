/**
  How a process joins the group (src/protocol_handshake.c, src/protocol_util.c:84-115):
  it is given an id and a list of peers by one member, then connects to each of them.
  Joins run one at a time and connections succeed; an exchange of init messages is
  one call of the responder.
 */
module Group {
  import opened Options

  type PeerId = nat
  type Address = nat

  /** A struct peer_information in the peers table, under its id. */
  datatype Peer = Peer(addr: Address, connected: bool)

  /** What a process knows: its id and its peers table. */
  datatype Entry = Entry(id: PeerId, peers: map<PeerId, Peer>)

  type Tables = map<Address, Entry>

  datatype InitResponse = InitResponse(id: PeerId, grant: Option<Assignment>)

  datatype Assignment = Assignment(id: PeerId, peers: map<PeerId, Address>)

  class Process {
    const addr: Address
    var myId: PeerId
    var peers: map<PeerId, Peer>

    /** Before it founds or joins a group; my_id is 1 at first (src/protocol.c:9). */
    constructor (addr: Address)
      ensures this.addr == addr && myId == 1 && peers == map[]
    {
      this.addr, myId, peers := addr, 1, map[];
    }

    ghost function View(): Entry
      reads this
    {
      Entry(myId, peers)
    }

    /** get_next_peer_id (src/protocol_handshake.c:14-24): one more than every id known here. */
    method NextPeerId() returns (next: PeerId)
      ensures myId < next && forall k | k in peers :: k < next
      ensures next == myId + 1 || next - 1 in peers
    {
      next := myId;
      var rest := peers.Keys;
      while rest != {}
        invariant rest <= peers.Keys && myId <= next && (next == myId || next in peers)
        invariant forall k | k in peers && k !in rest :: k <= next
      {
        var k :| k in rest;
        if k > next {
          next := k;
        }
        rest := rest - {k};
      }
      next := next + 1;
    }

    /**
      read_and_handle_init_message and the rest of handle_new_connection
      (src/protocol_handshake.c:29-76, 141-155). The list is made before the peer is added.
     */
    method HandleNewConnection(id: PeerId, from: Address) returns (r: InitResponse)
      requires id !in peers
      modifies this`peers
      ensures r.id == myId && (id == 0 <==> r.grant.Some?)
      ensures id == 0 ==>
                && myId < r.grant.value.id && (forall k | k in old(peers) :: k < r.grant.value.id)
                && (r.grant.value.id == myId + 1 || r.grant.value.id - 1 in old(peers))
                && r.grant.value.peers == map k | k in old(peers) :: old(peers)[k].addr
      ensures peers == old(peers)[(if id == 0 then r.grant.value.id else id) := Peer(from, true)]
    {
      var peerId := id;
      r := InitResponse(myId, None);
      if id == 0 {
        peerId := NextPeerId();
        r := InitResponse(myId, Some(Assignment(peerId, map k | k in peers :: peers[k].addr)));
      }
      peers := peers[peerId := Peer(from, true)];
    }

    /** read_peerlist_from_message (src/protocol_util.c:97-115). */
    method ReadPeerList(list: map<PeerId, Address>)
      modifies this`peers
      ensures peers.Keys == old(peers).Keys + list.Keys
      ensures forall k | k in old(peers) :: peers[k] == old(peers)[k]
      ensures forall k | k in list && k !in old(peers) :: peers[k] == Peer(list[k], false)
    {
      var rest := list.Keys;
      while rest != {}
        invariant rest <= list.Keys && peers.Keys == old(peers).Keys + (list.Keys - rest)
        invariant forall k | k in old(peers) :: peers[k] == old(peers)[k]
        invariant forall k | k in list && k !in old(peers) && k !in rest :: peers[k] == Peer(list[k], false)
      {
        var k :| k in rest;
        if k !in peers {
          peers := peers[k := Peer(list[k], false)];
        }
        rest := rest - {k};
      }
    }

    /**
      read_and_handle_init_response (src/protocol_handshake.c:80-120). The peer struct was
      in the table under `id`, or is not in it yet and `id` is 0.
     */
    method HandleInitResponse(r: InitResponse, id: PeerId, to: Address)
      requires id == 0 || id == r.id
      requires id == 0 <==> myId == 0
      requires myId == 0 ==> r.grant.Some? && peers == map[] && r.id !in r.grant.value.peers
      requires myId != 0 ==> id in peers
      modifies this
      ensures myId == if old(myId) == 0 then r.grant.value.id else old(myId)
      ensures old(myId) != 0 ==> peers == old(peers)
      ensures old(myId) == 0 ==>
                && peers.Keys == r.grant.value.peers.Keys + {r.id} && peers[r.id] == Peer(to, true)
                && forall k | k in r.grant.value.peers :: peers[k] == Peer(r.grant.value.peers[k], false)
    {
      if myId == 0 {
        myId := r.grant.value.id;
        ReadPeerList(r.grant.value.peers);
      }
      if r.id !in peers {
        peers := peers[r.id := Peer(to, true)];
      }
    }
  }

  // ---- the mesh ----

  ghost predicate DistinctIds(t: Tables) {
    && (forall a | a in t :: t[a].id > 0)
    && (forall a, b | a in t && b in t && a != b :: t[a].id != t[b].id)
  }

  /** The process at b is in this table, connected, under its id. */
  ghost predicate Knows(e: Entry, id: PeerId, b: Address) {
    id in e.peers && e.peers[id] == Peer(b, true)
  }

  ghost predicate OneOf(t: Tables, id: PeerId) {
    exists a :: a in t && t[a].id == id
  }

  ghost predicate KnowsAt(t: Tables, a: Address, b: Address) {
    a in t && b in t && Knows(t[a], t[b].id, b)
  }

  /** The table at a names members other than a, and perhaps `others`. */
  ghost predicate NamesAt(t: Tables, a: Address, others: set<PeerId>) {
    a in t && forall k | k in t[a].peers :: k != t[a].id && (k in others || OneOf(t, k))
  }

  /** Every member has a connection to every other, and to nobody else. */
  ghost predicate Mesh(t: Tables) {
    && DistinctIds(t)
    && (forall a, b {:trigger KnowsAt(t, a, b)} | a in t && b in t && a != b :: KnowsAt(t, a, b))
    && (forall a {:trigger NamesAt(t, a, {})} | a in t :: NamesAt(t, a, {}))
  }

  /** The member at a is connected to x or neither knows of a connection. */
  ghost predicate Halfway(a: Address, e: Entry, x: Address, xe: Entry) {
    && e.id in xe.peers && xe.peers[e.id].addr == a
    && (xe.id in e.peers <==> xe.peers[e.id].connected)
    && (xe.id in e.peers ==> e.peers[xe.id] == Peer(x, true))
  }

  /** The members t while x, with table xe, joins them: it is connected to some. */
  ghost predicate Joining(t: Tables, x: Address, xe: Entry) {
    x !in t && if xe.id == 0 then Mesh(t) && xe.peers == map[] else Admitted(t, x, xe)
  }

  /** It has an id, and names no others than the members. */
  ghost predicate Admitted(t: Tables, x: Address, xe: Entry) {
    && DistinctIds(t) && (forall a | a in t :: t[a].id != xe.id)
    && (forall a, b {:trigger KnowsAt(t, a, b)} | a in t && b in t && a != b :: KnowsAt(t, a, b))
    && (forall a {:trigger NamesAt(t, a, {xe.id})} | a in t :: NamesAt(t, a, {xe.id}))
    && (forall k | k in xe.peers :: OneOf(t, k))
    && (forall a | a in t :: Halfway(a, t[a], x, xe))
  }

  ghost predicate AllConnected(e: Entry) {
    forall k | k in e.peers :: e.peers[k].connected
  }

  ghost function Unconnected(e: Entry): set<PeerId> {
    set k | k in e.peers && !e.peers[k].connected
  }

  lemma FounderIsMesh(a: Address, id: PeerId)
    requires id > 0
    ensures Mesh(map[a := Entry(id, map[])])
  {
  }

  lemma JoinedIsMesh(t: Tables, x: Address, xe: Entry)
    requires Joining(t, x, xe) && xe.id > 0 && AllConnected(xe)
    ensures Mesh(t[x := xe])
  {
    var u := t[x := xe];
    JoinedKnowAll(t, x, xe);
    forall a | a in u
      ensures NamesAt(u, a, {})
    {
      JoinedNames(t, x, xe, a);
    }
  }

  lemma JoinedKnowAll(t: Tables, x: Address, xe: Entry)
    requires Joining(t, x, xe) && xe.id > 0 && AllConnected(xe)
    ensures var u := t[x := xe]; forall a, b {:trigger KnowsAt(u, a, b)} | a in u && b in u && a != b :: KnowsAt(u, a, b)
  {
    var u := t[x := xe];
    forall a, b | a in u && b in u && a != b
      ensures KnowsAt(u, a, b)
    {
      JoinedKnows(t, x, xe, a, b);
    }
  }

  lemma JoinedKnows(t: Tables, x: Address, xe: Entry, a: Address, b: Address)
    requires Joining(t, x, xe) && xe.id > 0 && AllConnected(xe) && a != b && {a, b} <= t.Keys + {x}
    ensures KnowsAt(t[x := xe], a, b)
  {
    assert a in {a, b} && b in {a, b};
    if a == x {
      assert Halfway(b, t[b], x, xe);
    } else if b == x {
      assert Halfway(a, t[a], x, xe);
    } else {
      assert KnowsAt(t, a, b);
    }
  }

  lemma JoinedNames(t: Tables, x: Address, xe: Entry, a: Address)
    requires Joining(t, x, xe) && xe.id > 0 && a in t.Keys + {x}
    ensures NamesAt(t[x := xe], a, {})
  {
    var u := t[x := xe];
    assert a != x ==> NamesAt(t, a, {xe.id});
    forall k | k in u[a].peers
      ensures k != u[a].id && OneOf(u, k)
    {
      MemberOrNew(t, x, xe, k);
    }
  }

  lemma MemberOrNew(t: Tables, x: Address, xe: Entry, k: PeerId)
    requires x !in t
    ensures OneOf(t, k) || k == xe.id ==> OneOf(t[x := xe], k)
  {
    if k == xe.id {
      assert t[x := xe][x].id == k;
    } else {
      OneOfMore(t, t[x := xe], k);
    }
  }

  lemma OneOfMore(t: Tables, u: Tables, k: PeerId)
    requires forall a | a in t :: a in u && u[a].id == t[a].id
    ensures OneOf(t, k) ==> OneOf(u, k)
  {
    if OneOf(t, k) {
      var a: Address :| a in t && t[a].id == k;
      assert u[a].id == k;
    }
  }

  /** The member at r has put x in its table. */
  ghost function Accepted(t: Tables, r: Address, id: PeerId, x: Address): Tables
    requires r in t
  {
    t[r := Entry(t[r].id, t[r].peers[id := Peer(x, true)])]
  }

  /** That leaves the members as they know each other. */
  lemma AcceptedKeepsMembers(t: Tables, r: Address, id: PeerId, x: Address, others: set<PeerId>)
    requires r in t && others <= {id} && (forall a | a in t :: t[a].id != id)
    requires forall a, b {:trigger KnowsAt(t, a, b)} | a in t && b in t && a != b :: KnowsAt(t, a, b)
    requires forall a {:trigger NamesAt(t, a, others)} | a in t :: NamesAt(t, a, others)
    ensures var u := Accepted(t, r, id, x);
            && (forall a, b {:trigger KnowsAt(u, a, b)} | a in u && b in u && a != b :: KnowsAt(u, a, b))
            && (forall a {:trigger NamesAt(u, a, {id})} | a in u :: NamesAt(u, a, {id}))
            && (forall k :: OneOf(t, k) ==> OneOf(u, k))
  {
    var u := Accepted(t, r, id, x);
    forall k
      ensures OneOf(t, k) ==> OneOf(u, k)
    {
      OneOfMore(t, u, k);
    }
    forall a, b | a in u && b in u && a != b
      ensures KnowsAt(u, a, b)
    {
      assert KnowsAt(t, a, b);
    }
    forall a | a in u
      ensures NamesAt(u, a, {id})
    {
      assert NamesAt(t, a, others);
    }
  }

  /** In a mesh one member's table names them all. */
  lemma TableNamesAll(t: Tables, r: Address, a: Address, k: PeerId)
    requires Mesh(t) && r in t && a in t && k in t[a].peers
    ensures k == t[r].id || k in t[r].peers
  {
    assert NamesAt(t, a, {}) && OneOf(t, k);
    var b: Address :| b in t && t[b].id == k;
    assert b != r ==> KnowsAt(t, r, b);
  }

  /** What x has after its first handshake, with r: the next id, r itself, and r's peers to come. */
  ghost predicate Imported(e: Entry, r: Address, xe: Entry) {
    && xe.id > e.id && (forall k | k in e.peers :: k < xe.id)
    && (xe.id == e.id + 1 || xe.id - 1 in e.peers)
    && xe.peers.Keys == e.peers.Keys + {e.id} && xe.peers[e.id] == Peer(r, true)
    && forall k | k in e.peers :: xe.peers[k] == Peer(e.peers[k].addr, false)
  }

  /** An id above all the members' and one more than the highest. */
  ghost predicate NextId(t: Tables, id: PeerId) {
    (forall a | a in t :: t[a].id < id) && id > 0 && OneOf(t, id - 1)
  }

  ghost predicate SameIds(t: Tables, u: Tables) {
    t.Keys == u.Keys && forall a | a in t :: t[a].id == u[a].id
  }

  /** The first handshake: an id above all, and the whole of r's table to connect to. */
  lemma FirstJoins(t: Tables, r: Address, x: Address, xe: Entry)
    requires Mesh(t) && r in t && x !in t
    requires Imported(t[r], r, xe)
    ensures Joining(Accepted(t, r, xe.id, x), x, xe)
    ensures NextId(t, xe.id)
  {
    FirstIsNext(t, r, x, xe);
    AcceptedKeepsIds(t, r, xe.id, x);
    AcceptedKeepsMembers(t, r, xe.id, x, {});
    FirstAllHalfway(t, r, x, xe);
  }

  lemma AcceptedKeepsIds(t: Tables, r: Address, id: PeerId, x: Address)
    requires r in t && DistinctIds(t)
    ensures DistinctIds(Accepted(t, r, id, x)) && SameIds(t, Accepted(t, r, id, x))
  {
  }

  lemma FirstAllHalfway(t: Tables, r: Address, x: Address, xe: Entry)
    requires Mesh(t) && r in t && x !in t && Imported(t[r], r, xe)
    ensures var u := Accepted(t, r, xe.id, x); forall a | a in t :: Halfway(a, u[a], x, xe)
    ensures forall k | k in xe.peers :: OneOf(t, k)
  {
    forall a | a in t
      ensures Halfway(a, Accepted(t, r, xe.id, x)[a], x, xe)
    {
      FirstHalfway(t, r, x, xe, a);
    }
    forall k | k in xe.peers
      ensures OneOf(t, k)
    {
      FirstNames(t, r, xe, k);
    }
  }

  lemma FirstNames(t: Tables, r: Address, xe: Entry, k: PeerId)
    requires Mesh(t) && r in t && Imported(t[r], r, xe) && k in xe.peers
    ensures OneOf(t, k)
  {
    assert NamesAt(t, r, {});
  }

  lemma FirstIsNext(t: Tables, r: Address, x: Address, xe: Entry)
    requires Mesh(t) && r in t && x !in t && Imported(t[r], r, xe)
    ensures NextId(t, xe.id)
  {
    forall a | a in t
      ensures t[a].id < xe.id
    {
      FirstHalfway(t, r, x, xe, a);
    }
    assert NamesAt(t, r, {});
    assert t[r].id == xe.id - 1 || xe.id - 1 in t[r].peers;
  }

  lemma FirstHalfway(t: Tables, r: Address, x: Address, xe: Entry, a: Address)
    requires Mesh(t) && r in t && x !in t && a in t
    requires Imported(t[r], r, xe)
    ensures t[a].id < xe.id && Halfway(a, Accepted(t, r, xe.id, x)[a], x, xe)
  {
    assert a != r ==> KnowsAt(t, r, a);
    forall k | k in t[a].peers
      ensures k < xe.id
    {
      TableNamesAll(t, r, a, k);
    }
  }

  /** A later handshake: one entry of x's table less to connect to. */
  lemma LaterJoins(t: Tables, r: Address, x: Address, xe: Entry)
    requires Joining(t, x, xe) && xe.id != 0 && r in t
    ensures t[r].id in xe.peers
    ensures Joining(Accepted(t, r, xe.id, x), x, Entry(xe.id, xe.peers[t[r].id := Peer(r, true)]))
  {
    var u := Accepted(t, r, xe.id, x);
    var e := Entry(xe.id, xe.peers[t[r].id := Peer(r, true)]);
    assert Halfway(r, t[r], x, xe);
    forall a | a in t
      ensures Halfway(a, u[a], x, e)
    {
      assert Halfway(a, t[a], x, xe);
    }
    AcceptedKeepsMembers(t, r, xe.id, x, {xe.id});
  }

  /** An unconnected entry of x's table is a member that does not know x yet. */
  lemma EntryIsMember(t: Tables, x: Address, xe: Entry, k: PeerId)
    requires Joining(t, x, xe) && k in xe.peers
    ensures xe.id != 0 && var a := xe.peers[k].addr; a in t && t[a].id == k && (xe.id in t[a].peers <==> xe.peers[k].connected)
  {
    var a: Address :| a in t && t[a].id == k;
    assert Halfway(a, t[a], x, xe);
  }

  /** Connecting an entry leaves one less to connect. */
  lemma OneLess(e: Entry, id: PeerId)
    requires id in e.peers && !e.peers[id].connected
    ensures |Unconnected(Entry(e.id, e.peers[id := Peer(e.peers[id].addr, true)]))| < |Unconnected(e)|
  {
    assert Unconnected(Entry(e.id, e.peers[id := Peer(e.peers[id].addr, true)])) == Unconnected(e) - {id};
    assert id in Unconnected(e);
  }

  // ---- the processes ----

  /** The processes that can be reached, by address; those at `members` are the group. */
  ghost predicate Network(net: map<Address, Process>, members: set<Address>, x: Process) {
    members <= net.Keys && (forall a | a in members :: net[a].addr == a && net[a] != x) && x.addr !in members
  }

  ghost function View(net: map<Address, Process>, members: set<Address>): (t: Tables)
    requires members <= net.Keys
    reads net.Values
  {
    map a | a in members :: net[a].View()
  }

  /** x is joining the members as they are now. */
  ghost predicate Underway(net: map<Address, Process>, members: set<Address>, x: Process)
    requires members <= net.Keys
    reads x, net.Values
  {
    exists t :: t == View(net, members) && Joining(t, x.addr, x.View())
  }

  ghost function Members(net: map<Address, Process>, members: set<Address>): set<Process>
    requires members <= net.Keys
  {
    set a | a in members :: net[a]
  }

  lemma ResponderFits(t: Tables, r: Address)
    requires Mesh(t) && r in t
    ensures 0 !in t[r].peers && t[r].id !in t[r].peers
  {
    assert NamesAt(t, r, {});
  }

  /** One exchange of init messages with the member at r (src/protocol_handshake.c:192-207). */
  method Exchange(net: map<Address, Process>, ghost members: set<Address>, x: Process, r: Address, id: PeerId)
    requires Network(net, members, x) && r in members
    requires x.myId !in net[r].peers && (id == 0 || id == net[r].myId) && (id == 0 <==> x.myId == 0)
    requires if x.myId == 0 then x.peers == map[] && net[r].myId !in net[r].peers else id in x.peers
    modifies x, net[r]
    ensures View(net, members) == Accepted(old(View(net, members)), r, x.myId, x.addr)
    ensures old(x.myId) != 0 ==> x.View() == old(x.View())
    ensures old(x.myId) == 0 ==> Imported(old(net[r].View()), r, x.View())
  {
    ghost var t := View(net, members);
    var response := net[r].HandleNewConnection(x.myId, x.addr);
    x.HandleInitResponse(response, id, r);
    forall a | a in members
      ensures net[a].View() == Accepted(t, r, x.myId, x.addr)[a]
    {
    }
  }

  /** The handshake with a first member, which gives x an id and everybody's address. */
  method FirstHandshake(net: map<Address, Process>, ghost members: set<Address>, x: Process, r: Address)
    requires Network(net, members, x) && r in members && x.myId == 0
    requires Underway(net, members, x)
    modifies x, net[r]
    ensures Underway(net, members, x) && x.myId > 0
    ensures SameIds(View(net, members), old(View(net, members)))
    ensures NextId(old(View(net, members)), x.myId)
  {
    ghost var t := View(net, members);
    ResponderFits(t, r);
    Exchange(net, members, x, r, 0);
    FirstJoins(t, r, x.addr, x.View());
  }

  /** The handshake with the member of an unconnected entry. */
  method LaterHandshake(net: map<Address, Process>, ghost members: set<Address>, x: Process, id: PeerId)
    requires Network(net, members, x) && x.myId != 0 && Underway(net, members, x)
    requires id in x.peers && !x.peers[id].connected
    modifies x, Members(net, members)
    ensures Underway(net, members, x) && SameIds(View(net, members), old(View(net, members)))
    ensures x.View() == Entry(old(x.myId), old(x.peers)[id := Peer(old(x.peers)[id].addr, true)])
  {
    ghost var t, xe, r := View(net, members), x.View(), x.peers[id].addr;
    EntryIsMember(t, x.addr, xe, id);
    LaterJoins(t, r, x.addr, xe);
    ConnectTo(net, members, x, id);
    assert Joining(Accepted(t, r, xe.id, x.addr), x.addr, x.View());
  }

  method ConnectTo(net: map<Address, Process>, ghost members: set<Address>, x: Process, id: PeerId)
    requires Network(net, members, x) && x.myId != 0 && id in x.peers && x.peers[id].addr in members
    requires net[x.peers[id].addr].myId == id && x.myId !in net[x.peers[id].addr].peers && id != 0
    modifies x, Members(net, members)
    ensures View(net, members) == Accepted(old(View(net, members)), old(x.peers)[id].addr, x.myId, x.addr)
    ensures x.View() == Entry(old(x.myId), old(x.peers)[id := Peer(old(x.peers)[id].addr, true)])
  {
    var r := x.peers[id].addr;
    x.peers := x.peers[id := Peer(r, true)];
    assert View(net, members) == old(View(net, members));
    Exchange(net, members, x, r, id);
  }

  /**
    peer_connect (src/protocol_handshake.c:166-220). The peer is the entry for `id`, or,
    when x has no id yet, a member at `to` that is in no table.
   */
  method PeerConnect(net: map<Address, Process>, ghost members: set<Address>, x: Process, id: PeerId, to: Address)
    requires Network(net, members, x) && Underway(net, members, x)
    requires if x.myId == 0 then id == 0 && to in members else id in x.peers && x.peers[id] == Peer(to, false)
    modifies x, Members(net, members)
    ensures Underway(net, members, x) && x.myId > 0 && AllConnected(x.View())
    ensures SameIds(View(net, members), old(View(net, members)))
    ensures old(x.myId) != 0 ==> x.myId == old(x.myId) && x.peers.Keys == old(x.peers.Keys)
    ensures old(x.myId) == 0 ==> NextId(old(View(net, members)), x.myId)
    decreases if x.myId == 0 then 1 else 0, |Unconnected(x.View())|, 0
  {
    ghost var xe := x.View();
    if x.myId == 0 {
      FirstHandshake(net, members, x, to);
    } else {
      OneLess(xe, id);
      LaterHandshake(net, members, x, id);
    }
    ConnectToNewPeers(net, members, x);
  }

  /** The same entries, and what was connected still is. */
  ghost predicate Further(e: Entry, e': Entry) {
    && e'.id == e.id && e'.peers.Keys == e.peers.Keys && |Unconnected(e')| <= |Unconnected(e)|
    && forall k | k in e.peers && e.peers[k].connected :: e'.peers[k].connected
  }

  lemma AllIsFurther(e: Entry, e': Entry)
    requires e'.id == e.id && e'.peers.Keys == e.peers.Keys && AllConnected(e')
    ensures Further(e, e')
  {
    assert Unconnected(e') == {};
  }

  /** An entry of the table is connected unless it is (src/protocol_handshake.c:225-229). */
  method ConnectEntry(net: map<Address, Process>, ghost members: set<Address>, x: Process, k: PeerId)
    requires Network(net, members, x) && Underway(net, members, x) && x.myId > 0 && k in x.peers
    modifies x, Members(net, members)
    ensures Underway(net, members, x) && SameIds(View(net, members), old(View(net, members)))
    ensures Further(old(x.View()), x.View()) && x.peers[k].connected
    decreases 0, |Unconnected(x.View())|, 1
  {
    ghost var e := x.View();
    if !x.peers[k].connected {
      PeerConnect(net, members, x, k, x.peers[k].addr);
      AllIsFurther(e, x.View());
    }
  }

  /** Since tables t and e, x has come further, and of its entries only `rest` may still be unconnected. */
  ghost predicate OnTheWay(net: map<Address, Process>, members: set<Address>, x: Process, t: Tables, e: Entry, rest: set<PeerId>)
    requires members <= net.Keys
    reads x, net.Values
  {
    exists t', e' :: t' == View(net, members) && e' == x.View() && SameIds(t, t') && Further(e, e') && OnlyLeft(e', rest)
  }

  ghost predicate OnlyLeft(e: Entry, rest: set<PeerId>) {
    rest <= e.peers.Keys && forall k | k in e.peers && k !in rest :: e.peers[k].connected
  }

  lemma OnTheWayMore(t: Tables, t': Tables, t'': Tables, e: Entry, e': Entry, e'': Entry, rest: set<PeerId>, k: PeerId)
    requires SameIds(t, t') && SameIds(t', t'') && Further(e, e') && Further(e', e'')
    requires OnlyLeft(e', rest) && k in e''.peers && e''.peers[k].connected
    ensures SameIds(t, t'') && Further(e, e'') && OnlyLeft(e'', rest - {k})
  {
  }

  method ConnectNext(net: map<Address, Process>, ghost members: set<Address>, x: Process, k: PeerId,
                     ghost t: Tables, ghost e: Entry, ghost rest: set<PeerId>)
    requires Network(net, members, x) && Underway(net, members, x) && e.id > 0 && k in rest
    requires OnTheWay(net, members, x, t, e, rest)
    modifies x, Members(net, members)
    ensures Underway(net, members, x) && OnTheWay(net, members, x, t, e, rest - {k})
    decreases 0, |Unconnected(e)|, 2
  {
    ghost var t', e' := View(net, members), x.View();
    ConnectEntry(net, members, x, k);
    OnTheWayMore(t, t', View(net, members), e, e', x.View(), rest, k);
  }

  /** connect_to_new_peers (src/protocol_handshake.c:222-232). */
  method ConnectToNewPeers(net: map<Address, Process>, ghost members: set<Address>, x: Process)
    requires Network(net, members, x) && Underway(net, members, x) && x.myId > 0
    modifies x, Members(net, members)
    ensures Underway(net, members, x) && AllConnected(x.View())
    ensures x.myId == old(x.myId) && x.peers.Keys == old(x.peers.Keys)
    ensures SameIds(View(net, members), old(View(net, members)))
    decreases 0, |Unconnected(x.View())|, 3
  {
    ghost var t, e := View(net, members), x.View();
    var rest := x.peers.Keys;
    assert SameIds(t, t) && Further(e, e) && OnlyLeft(e, rest);
    while rest != {}
      invariant Underway(net, members, x) && OnTheWay(net, members, x, t, e, rest)
      decreases rest
    {
      var k :| k in rest;
      ConnectNext(net, members, x, k, t, e, rest);
      rest := rest - {k};
    }
  }

  /** The members know each other and nobody else. */
  ghost predicate IsMesh(net: map<Address, Process>, members: set<Address>)
    reads net.Values
  {
    members <= net.Keys && exists t :: t == View(net, members) && Mesh(t)
  }

  lemma MeshWith(net: map<Address, Process>, members: set<Address>, x: Process)
    requires members <= net.Keys && x.addr in net && net[x.addr] == x && Underway(net, members, x)
    requires x.myId > 0 && AllConnected(x.View())
    ensures IsMesh(net, members + {x.addr})
  {
    JoinedIsMesh(View(net, members), x.addr, x.View());
    assert View(net, members + {x.addr}) == View(net, members)[x.addr := x.View()];
  }

  /**
    edsm_proto_group_join (src/protocol.c:187-211): the mesh grows by the one who joins.
    Nobody's id changes, and the new one is the next after one of them and above all.
   */
  method GroupJoin(net: map<Address, Process>, ghost members: set<Address>, x: Process, host: Address)
    requires Network(net, members, x) && IsMesh(net, members) && host in members && x.peers == map[]
    requires x.addr in net && net[x.addr] == x
    modifies x, Members(net, members)
    ensures IsMesh(net, members + {x.addr})
    ensures SameIds(View(net, members), old(View(net, members))) && NextId(old(View(net, members)), x.myId)
  {
    x.myId := 0;
    assert View(net, members) == old(View(net, members));
    assert Joining(View(net, members), x.addr, x.View());
    PeerConnect(net, members, x, 0, host);
    MeshWith(net, members, x);
  }

  // ---- the life of a group ----

  /** Where a founder and those who have joined it are. */
  ghost function Addresses(founder: Process, joiners: seq<Process>): set<Address> {
    {founder.addr} + set x | x in joiners :: x.addr
  }

  /** The ids that are given out: the founder has 1, and each who joins the next one. */
  ghost predicate Numbered(founder: Process, joiners: seq<Process>, n: nat)
    requires n <= |joiners|
    reads founder, joiners
  {
    founder.myId == 1 && forall k | 0 <= k < n :: joiners[k].myId == k + 2
  }

  ghost predicate Reachable(net: map<Address, Process>, founder: Process, joiners: seq<Process>) {
    && founder.addr in net && net[founder.addr] == founder
    && (forall k | 0 <= k < |joiners| ::
        joiners[k].addr in net && net[joiners[k].addr] == joiners[k] && joiners[k].addr != founder.addr)
    && (forall k, l | 0 <= k < l < |joiners| :: joiners[k].addr != joiners[l].addr)
  }

  /** In these tables they have those ids. */
  ghost predicate NumbersIn(t: Tables, founder: Process, joiners: seq<Process>, n: nat)
    requires n <= |joiners|
  {
    && founder.addr in t && t[founder.addr].id == 1
    && forall k | 0 <= k < n :: joiners[k].addr in t && t[joiners[k].addr].id == k + 2
  }

  /** The id after the highest is the number of those who have joined plus two. */
  lemma NextIsNumber(net: map<Address, Process>, founder: Process, joiners: seq<Process>, n: nat, t: Tables, id: PeerId)
    requires n < |joiners| && Reachable(net, founder, joiners) && NextId(t, id) && t.Keys == Addresses(founder, joiners[..n])
    requires NumbersIn(t, founder, joiners, n)
    ensures id == n + 2
  {
    if n > 0 {
      assert joiners[n - 1].addr in t;
    }
    var a :| a in t && t[a].id == id - 1;
    assert a == founder.addr || exists k :: 0 <= k < n && joiners[k].addr == a;
  }

  ghost function Who(founder: Process, joiners: seq<Process>, n: nat): set<Process>
    requires n <= |joiners|
  {
    {founder} + set k | 0 <= k < n :: joiners[k]
  }

  lemma AddressesOfNext(net: map<Address, Process>, founder: Process, joiners: seq<Process>, n: nat)
    requires n < |joiners| && Reachable(net, founder, joiners)
    ensures var members := Addresses(founder, joiners[..n]);
            && Network(net, members, joiners[n]) && Addresses(founder, joiners[..n + 1]) == members + {joiners[n].addr}
            && Members(net, members) <= Who(founder, joiners, n + 1) && joiners[n] in Who(founder, joiners, n + 1)
            && founder.addr in members && (forall k | 0 <= k < n :: joiners[k].addr in members)
  {
    assert joiners[..n + 1] == joiners[..n] + [joiners[n]];
    assert forall k | 0 <= k < n :: joiners[k] in joiners[..n];
  }

  /** The first n have joined; the others know nobody yet. */
  ghost predicate Grown(net: map<Address, Process>, founder: Process, joiners: seq<Process>, n: nat)
    reads net.Values, founder, joiners
  {
    && n <= |joiners| && IsMesh(net, Addresses(founder, joiners[..n])) && Numbered(founder, joiners, n)
    && forall k | n <= k < |joiners| :: joiners[k].peers == map[]
  }

  method JoinAmong(net: map<Address, Process>, ghost members: set<Address>, x: Process, host: Address, ghost who: set<Process>)
    requires Network(net, members, x) && IsMesh(net, members) && host in members && x.peers == map[]
    requires x.addr in net && net[x.addr] == x && x in who && Members(net, members) <= who
    modifies who
    ensures IsMesh(net, members + {x.addr})
    ensures SameIds(View(net, members), old(View(net, members))) && NextId(old(View(net, members)), x.myId)
  {
    GroupJoin(net, members, x, host);
  }

  method JoinThrough(net: map<Address, Process>, ghost members: set<Address>, founder: Process, joiners: seq<Process>,
                     n: nat, host: Address)
    requires n < |joiners| && Reachable(net, founder, joiners) && members == Addresses(founder, joiners[..n])
             && IsMesh(net, members)
    requires host in members && joiners[n].peers == map[]
    modifies Who(founder, joiners, n + 1)
    ensures IsMesh(net, members + {joiners[n].addr})
    ensures SameIds(View(net, members), old(View(net, members))) && NextId(old(View(net, members)), joiners[n].myId)
  {
    AddressesOfNext(net, founder, joiners, n);
    JoinAmong(net, members, joiners[n], host, Who(founder, joiners, n + 1));
  }

  /** One more process joins, through any member. */
  method JoinNext(net: map<Address, Process>, founder: Process, joiners: seq<Process>, n: nat, host: Address)
    requires n < |joiners| && Reachable(net, founder, joiners) && Numbered(founder, joiners, n)
    requires IsMesh(net, Addresses(founder, joiners[..n]))
    requires host in Addresses(founder, joiners[..n]) && joiners[n].peers == map[]
    modifies Who(founder, joiners, n + 1)
    ensures IsMesh(net, Addresses(founder, joiners[..n + 1])) && Numbered(founder, joiners, n + 1)
  {
    ghost var members := Addresses(founder, joiners[..n]);
    ghost var t := View(net, members);
    OldNumbers(net, founder, joiners, n);
    JoinThrough(net, members, founder, joiners, n, host);
    StillNumbered(net, founder, joiners, n, t);
  }

  method GrowByOne(net: map<Address, Process>, founder: Process, joiners: seq<Process>, n: nat, host: Address)
    requires n < |joiners| && Reachable(net, founder, joiners) && Grown(net, founder, joiners, n)
    requires host in Addresses(founder, joiners[..n])
    modifies founder, joiners
    ensures Grown(net, founder, joiners, n + 1)
  {
    JoinNext(net, founder, joiners, n, host);
    forall k | n + 1 <= k < |joiners|
      ensures joiners[k].peers == map[]
    {
      assert joiners[k] != founder && forall l | 0 <= l <= n :: joiners[l] != joiners[k];
    }
  }

  lemma OldNumbers(net: map<Address, Process>, founder: Process, joiners: seq<Process>, n: nat)
    requires n < |joiners| && Reachable(net, founder, joiners) && Numbered(founder, joiners, n)
    requires Addresses(founder, joiners[..n]) <= net.Keys
    ensures NumbersIn(View(net, Addresses(founder, joiners[..n])), founder, joiners, n)
  {
    AddressesOfNext(net, founder, joiners, n);
  }

  lemma StillNumbered(net: map<Address, Process>, founder: Process, joiners: seq<Process>, n: nat, t: Tables)
    requires n < |joiners| && Reachable(net, founder, joiners) && NextId(t, joiners[n].myId)
    requires Addresses(founder, joiners[..n]) <= net.Keys && SameIds(View(net, Addresses(founder, joiners[..n])), t)
    requires NumbersIn(t, founder, joiners, n)
    ensures Numbered(founder, joiners, n + 1)
    ensures Addresses(founder, joiners[..n + 1]) == Addresses(founder, joiners[..n]) + {joiners[n].addr}
  {
    AddressesOfNext(net, founder, joiners, n);
    NextIsNumber(net, founder, joiners, n, t, joiners[n].myId);
  }

  lemma FounderAlone(net: map<Address, Process>, founder: Process)
    requires founder.addr in net && net[founder.addr] == founder && founder.myId == 1 && founder.peers == map[]
    ensures IsMesh(net, Addresses(founder, []))
  {
    FounderIsMesh(founder.addr, 1);
    assert View(net, Addresses(founder, [])) == map[founder.addr := Entry(1, map[])];
  }

  /**
    A group from its founding on: whoever joins, in whatever order and through whichever
    member, the group stays a full symmetric mesh, the ids are 1, 2, 3 and so on, and an
    id once given does not change.
   */
  method GrowGroup(net: map<Address, Process>, founder: Process, joiners: seq<Process>, hosts: seq<Address>)
    requires Reachable(net, founder, joiners) && |hosts| == |joiners|
    requires forall k | 0 <= k < |joiners| :: hosts[k] in Addresses(founder, joiners[..k]) && joiners[k].peers == map[]
    requires founder.myId == 1 && founder.peers == map[]
    modifies founder, joiners
    ensures IsMesh(net, Addresses(founder, joiners)) && Numbered(founder, joiners, |joiners|)
  {
    FounderAlone(net, founder);
    assert joiners[..0] == [];
    for n := 0 to |joiners|
      invariant Grown(net, founder, joiners, n)
    {
      GrowByOne(net, founder, joiners, n, hosts[n]);
    }
    assert joiners[..|joiners|] == joiners;
  }
}
