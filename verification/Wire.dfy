/** Messages inside messages and strings (src/message.c:144-191). */
module NestedMessages {
  import opened Options
  import opened Bytes
  import opened ByteStrings
  import opened Messages

  /** None is the NULL message; it goes out as an empty one. */
  function EncodeNested(val: Option<seq<Byte>>): seq<Byte> {
    match val
    case None => U32(0)
    case Some(data) => U32(|data|) + data
  }

  function DecodeNested(s: seq<Byte>): Parsed<Option<seq<Byte>>> {
    match TakeU32(s)
    case None => None
    case Some((size, s1)) =>
      if size == 0 then Some((None, s1))
      else
        match Take(size, s1)
        case None => None
        case Some((data, s2)) => Some((Some(data), s2))
  }

  function EncodeString(str: seq<Byte>): seq<Byte> {
    U32(|str|) + str
  }

  function DecodeString(s: seq<Byte>): Parsed<seq<Byte>> {
    match TakeU32(s)
    case None => None
    case Some((size, s1)) => Take(size, s1)
  }

  /** What is read back is what was written, save that an empty message reads back as NULL. */
  lemma NestedRoundTrip(val: Option<seq<Byte>>, rest: seq<Byte>)
    requires val.Some? ==> |val.value| < 0x1_0000_0000
    ensures DecodeNested(EncodeNested(val) + rest) == Some((if val == Some([]) then None else val, rest))
  {
    var data := if val.Some? then val.value else [];
    assert EncodeNested(val) + rest == U32(|data|) + (data + rest);
    TakesU32(|data|, data + rest);
    assert (data + rest)[..|data|] == data && (data + rest)[|data|..] == rest;
  }

  lemma StringRoundTrip(str: seq<Byte>, rest: seq<Byte>)
    requires |str| < 0x1_0000_0000
    ensures DecodeString(EncodeString(str) + rest) == Some((str, rest))
  {
    assert EncodeString(str) + rest == U32(|str|) + (str + rest);
    TakesU32(|str|, str + rest);
    assert (str + rest)[..|str|] == str && (str + rest)[|str|..] == rest;
  }

  ghost function ContentsOf(m: Message?): Option<seq<Byte>>
    requires m != null ==> m.Valid()
    reads m, if m == null then {} else {m.buffer}
  {
    if m == null then None else Some(m.Contents())
  }

  /** edsm_message_write_message (src/message.c:144-157). */
  method WriteMessage(dst: Message, val: Message?)
    requires dst.Valid() && (val != null ==> val.Valid() && val != dst && val.buffer != dst.buffer)
    modifies dst, dst.buffer
    ensures dst.Valid() && (dst.buffer == old(dst.buffer) || fresh(dst.buffer))
    ensures dst.Contents() == old(dst.Contents()) + EncodeNested(old(ContentsOf(val)))
  {
    if val == null {
      dst.Write(U32(0));
      return;
    }
    var data := val.buffer[val.headSize..val.headSize + val.dataSize];
    Assoc(dst.Contents(), U32(|data|), data);
    dst.Write(U32(|data|));
    dst.Write(data);
  }

  /** A field of a known number of bytes; nothing is taken if they are not all there. */
  method TakeField(msg: Message, size: nat) returns (r: Option<seq<Byte>>)
    requires msg.Valid()
    modifies msg
    ensures msg.Valid() && msg.buffer == old(msg.buffer)
    ensures match Take(size, old(msg.Contents()))
            case None => r == None && msg.Contents() == old(msg.Contents())
            case Some((data, rest)) => r == Some(data) && msg.Contents() == rest
  {
    ghost var c := msg.Contents();
    r := msg.Read(size);
    assert r.Some? ==> c[..size] == r.value && c[size..] == msg.Contents();
  }

  /** A size field. */
  method TakeSize(msg: Message) returns (r: Option<nat>)
    requires msg.Valid()
    modifies msg
    ensures msg.Valid() && msg.buffer == old(msg.buffer)
    ensures match TakeU32(old(msg.Contents()))
            case None => r == None && msg.Contents() == old(msg.Contents())
            case Some((n, rest)) => r == Some(n) && msg.Contents() == rest
  {
    var field := TakeField(msg, 4);
    match field {
      case None => r := None;
      case Some(bytes) => r := Some(FromU32(bytes));
    }
  }

  /** What a read that fails leaves: a size that was there is gone. */
  function AfterSize(s: seq<Byte>): seq<Byte> {
    match TakeU32(s)
    case None => s
    case Some((_, rest)) => rest
  }

  /**
    edsm_message_read_message (src/message.c:158-171). When the size says more than is
    there it fails with the size taken.
   */
  method ReadMessage(msg: Message) returns (ok: bool, dst: Message?)
    requires msg.Valid()
    modifies msg
    ensures msg.Valid() && msg.buffer == old(msg.buffer)
    ensures dst != null ==> dst.Valid() && fresh(dst) && fresh(dst.buffer)
    ensures ok <==> DecodeNested(old(msg.Contents())).Some?
    ensures ok ==> (ContentsOf(dst), msg.Contents()) == DecodeNested(old(msg.Contents())).value
    ensures !ok ==> msg.Contents() == AfterSize(old(msg.Contents()))
  {
    dst := null;
    var size := TakeSize(msg);
    match size {
      case None => ok := false;
      case Some(n) =>
        if n == 0 {
          return true, null;
        }
        var data := TakeField(msg, n);
        ok := data.Some?;
        if ok {
          dst := new Message(0, n);
          dst.Put(data.value);
        }
    }
  }

  /** edsm_message_write_string (src/message.c:173-179), of the bytes before the terminating zero. */
  method WriteString(dst: Message, str: seq<Byte>)
    requires dst.Valid()
    modifies dst, dst.buffer
    ensures dst.Valid() && (dst.buffer == old(dst.buffer) || fresh(dst.buffer))
    ensures dst.Contents() == old(dst.Contents()) + EncodeString(str)
  {
    Assoc(dst.Contents(), U32(|str|), str);
    dst.Write(U32(|str|));
    dst.Write(str);
  }

  /** edsm_message_read_string (src/message.c:180-191), which fails like read_message. */
  method ReadString(msg: Message) returns (r: Option<seq<Byte>>)
    requires msg.Valid()
    modifies msg
    ensures msg.Valid() && msg.buffer == old(msg.buffer)
    ensures match DecodeString(old(msg.Contents()))
            case None => r == None && msg.Contents() == AfterSize(old(msg.Contents()))
            case Some((str, rest)) => r == Some(str) && msg.Contents() == rest
  {
    var size := TakeSize(msg);
    match size {
      case None => r := None;
      case Some(n) => r := TakeField(msg, n);
    }
  }
}

/** Messages on a stream socket (src/protocol_util.c:6-48, src/socket.c:163-176). */
module Frames {
  import opened Options
  import opened Bytes
  import opened ByteStrings
  import opened Messages

  datatype Frame = Frame(kind: nat, body: seq<Byte>)

  /** The receiver holds a size in an int. */
  predicate FrameFits(f: Frame) {
    f.kind < 0x1_0000_0000 && |f.body| + 4 < 0x8000_0000
  }

  function EncodeFrame(f: Frame): seq<Byte> {
    U32(|f.body| + 4) + U32(f.kind) + f.body
  }

  function EncodeFrames(fs: seq<Frame>): seq<Byte> {
    if |fs| == 0 then [] else EncodeFrame(fs[0]) + EncodeFrames(fs[1..])
  }

  function DecodeFrame(s: seq<Byte>): Parsed<Frame> {
    match TakeU32(s)
    case None => None
    case Some((size, s1)) =>
      match Take(size, s1)
      case None => None
      case Some((data, s2)) =>
        match TakeU32(data)
        case None => None
        case Some((kind, body)) => Some((Frame(kind, body), s2))
  }

  lemma FrameRoundTrip(f: Frame, rest: seq<Byte>)
    requires FrameFits(f)
    ensures DecodeFrame(EncodeFrame(f) + rest) == Some((f, rest))
    ensures TakeU32(EncodeFrame(f) + rest) == Some((|f.body| + 4, U32(f.kind) + f.body + rest))
  {
    var data := U32(f.kind) + f.body;
    assert EncodeFrame(f) + rest == U32(|f.body| + 4) + (data + rest);
    TakesU32(|f.body| + 4, data + rest);
    assert (data + rest)[..|data|] == data && (data + rest)[|data|..] == rest;
    TakesU32(f.kind, f.body);
  }

  /** The frames can be told from the bytes: no two sequences of them make the same stream. */
  lemma {:induction false} FramesAreUnambiguous(fs: seq<Frame>, gs: seq<Frame>)
    requires (forall f | f in fs :: FrameFits(f)) && (forall g | g in gs :: FrameFits(g))
    requires EncodeFrames(fs) == EncodeFrames(gs)
    ensures fs == gs
    decreases |fs|
  {
    if |fs| > 0 {
      FrameRoundTrip(fs[0], EncodeFrames(fs[1..]));
      if |gs| > 0 {
        FrameRoundTrip(gs[0], EncodeFrames(gs[1..]));
        FramesAreUnambiguous(fs[1..], gs[1..]);
        assert fs == [fs[0]] + fs[1..] && gs == [gs[0]] + gs[1..];
      }
    }
  }

  function Concat(segments: seq<seq<Byte>>): seq<Byte> {
    if |segments| == 0 then [] else segments[0] + Concat(segments[1..])
  }

  /**
    One end of a connection. The stream arrives in segments of any size, and a read
    never sees past the first of them; what is written leaves whole.
   */
  class Socket {
    var arriving: seq<seq<Byte>>
    var sent: seq<Byte>

    ghost predicate Valid()
      reads this
    {
      forall k | 0 <= k < |arriving| :: |arriving[k]| > 0
    }

    ghost function Pending(): seq<Byte>
      reads this
    {
      Concat(arriving)
    }

    constructor (arriving: seq<seq<Byte>>)
      requires forall k | 0 <= k < |arriving| :: |arriving[k]| > 0
      ensures Valid() && this.arriving == arriving && sent == []
    {
      this.arriving, sent := arriving, [];
    }

    /** read(2): at least one byte and at most n, or none at the end of the stream. */
    method Read(n: nat) returns (chunk: seq<Byte>)
      requires Valid() && n > 0
      modifies this`arriving
      ensures Valid() && |chunk| <= n && chunk + Pending() == old(Pending())
      ensures chunk == [] ==> Pending() == []
    {
      if |arriving| == 0 {
        return [];
      }
      var first := arriving[0];
      if |first| <= n {
        chunk, arriving := first, arriving[1..];
      } else {
        chunk := first[..n];
        ghost var rest := arriving[1..];
        arriving := [first[n..]] + arriving[1..];
        assert arriving[1..] == rest;
        Assoc(chunk, first[n..], Concat(rest));
        assert chunk + first[n..] == first;
      }
    }

    /** edsm_socket_read (src/socket.c:163-176): exactly size bytes, however they arrive. */
    method ReadFully(size: nat) returns (ok: bool, buffer: seq<Byte>)
      requires Valid()
      modifies this`arriving
      ensures Valid()
      ensures ok <==> size <= |old(Pending())|
      ensures ok ==> |buffer| == size && buffer + Pending() == old(Pending())
      ensures !ok ==> Pending() == []
    {
      buffer := [];
      while |buffer| < size
        invariant Valid() && |buffer| <= size && buffer + Pending() == old(Pending())
        decreases size - |buffer|
      {
        var chunk := Read(size - |buffer|);
        Assoc(buffer, chunk, Pending());
        if |chunk| < 1 {
          return false, buffer;
        }
        buffer := buffer + chunk;
      }
      ok := true;
    }

    /**
      fd_send_message (src/protocol_util.c:22-48). The whole frame is written, but with an
      empty body the last write returns 0 and the caller is told that it failed.
     */
    method SendMessage(kind: nat, msg: Message) returns (ok: bool)
      requires msg.Valid()
      modifies this`sent
      ensures sent == old(sent) + EncodeFrame(Frame(kind, msg.Contents()))
      ensures ok <==> |msg.Contents()| > 0
    {
      var size, data := U32(msg.dataSize + 4), msg.buffer[msg.headSize..msg.headSize + msg.dataSize];
      ghost var k := U32(kind);
      Assoc(sent, size, k);
      Assoc(sent, size + k, data);
      sent := sent + size;
      sent := sent + U32(kind);
      sent := sent + data;
      ok := |data| > 0;
    }

    /** read_message_from_socket (src/protocol_util.c:6-20): NULL when the stream ends too soon. */
    method ReceiveMessage() returns (msg: Message?)
      requires Valid()
      modifies this`arriving
      ensures Valid() && (msg != null ==> msg.Valid() && fresh(msg) && fresh(msg.buffer))
      ensures msg == null ==> Pending() == []
      ensures match TakeU32(old(Pending()))
              case None => msg == null
              case Some((size, s1)) =>
                match Take(size, s1)
                case None => msg == null
                case Some((data, s2)) => msg != null && msg.Contents() == data && Pending() == s2
    {
      ghost var stream := Pending();
      var ok, header := ReadFully(4);
      if !ok {
        return null;
      }
      assert stream[..4] == header && stream[4..] == Pending();
      var size := FromU32(header);
      ghost var rest := Pending();
      var data;
      ok, data := ReadFully(size);
      if !ok {
        return null;
      }
      assert rest[..size] == data && rest[size..] == Pending();
      msg := new Message(0, size);
      msg.Put(data);
    }

    /** The next message of the stream, its kind taken off; None at the end (src/protocol.c:102-110). */
    method ReceiveFrame(ghost left: seq<Frame>) returns (got: Option<Frame>)
      requires Valid() && Pending() == EncodeFrames(left) && forall f | f in left :: FrameFits(f)
      modifies this`arriving
      ensures Valid()
      ensures left == [] ==> got == None && Pending() == []
      ensures left != [] ==> got == Some(left[0]) && Pending() == EncodeFrames(left[1..])
    {
      if left != [] {
        FrameRoundTrip(left[0], EncodeFrames(left[1..]));
      }
      var msg := ReceiveMessage();
      if msg == null {
        got := None;
      } else {
        var kind := ReadU32(msg);
        got := Some(Frame(kind, msg.buffer[msg.headSize..msg.headSize + msg.dataSize]));
      }
    }

    /**
      The listener's loop on one connection (src/protocol.c:69-115): it recovers the frames
      that were sent, in order, whatever the segments, and stops at the end of the stream.
     */
    method Listen(ghost fs: seq<Frame>) returns (received: seq<Frame>)
      requires Valid() && Pending() == EncodeFrames(fs) && forall f | f in fs :: FrameFits(f)
      modifies this`arriving
      ensures Valid() && received == fs && Pending() == []
    {
      received := [];
      var running := true;
      ghost var left := fs;
      while running
        invariant Valid() && received + left == fs && Pending() == EncodeFrames(left)
        invariant forall f | f in left :: FrameFits(f)
        invariant !running ==> left == []
        decreases running, |left|
      {
        var got := ReceiveFrame(left);
        match got {
          case None => running := false;
          case Some(f) =>
            assert received + [f] + left[1..] == received + left;
            received, left := received + [f], left[1..];
        }
      }
    }
  }
}

/** The list of peers in an init response (src/protocol_util.c:84-115). */
module PeerLists {
  import opened Options
  import opened Bytes
  import opened ByteStrings
  import opened Messages

  type PeerId = nat

  /** sizeof(struct sockaddr_storage) */
  const ADDR_SIZE := 128

  datatype Entry = Entry(id: PeerId, addr: seq<Byte>)

  predicate EntryFits(e: Entry) {
    e.id < 0x1_0000_0000 && |e.addr| == ADDR_SIZE
  }

  function EncodeEntry(e: Entry): seq<Byte> {
    U32(e.id) + e.addr
  }

  function EncodeEntries(es: seq<Entry>): seq<Byte> {
    if |es| == 0 then [] else EncodeEntry(es[0]) + EncodeEntries(es[1..])
  }

  function EncodePeers(es: seq<Entry>): seq<Byte> {
    U32(|es|) + EncodeEntries(es)
  }

  type Table = map<PeerId, seq<Byte>>

  /** The address of an id that is in the table already is not taken from the message. */
  function TakeEntries(n: nat, s: seq<Byte>, table: Table): Parsed<Table> {
    if n == 0 then Some((table, s))
    else
      match TakeU32(s)
      case None => None
      case Some((id, s1)) =>
        if id in table then TakeEntries(n - 1, s1, table)
        else
          match Take(ADDR_SIZE, s1)
          case None => None
          case Some((addr, s2)) => TakeEntries(n - 1, s2, table[id := addr])
  }

  function TakePeers(s: seq<Byte>, table: Table): Parsed<Table> {
    match TakeU32(s)
    case None => None
    case Some((n, s1)) => TakeEntries(n, s1, table)
  }

  /** No id of the list is in the table or in the list before. */
  ghost predicate AllNew(es: seq<Entry>, table: Table) {
    && (forall k | 0 <= k < |es| :: es[k].id !in table)
    && (forall k, l | 0 <= k < l < |es| :: es[k].id != es[l].id)
  }

  function AddAll(es: seq<Entry>, table: Table): Table {
    if |es| == 0 then table else AddAll(es[1..], table[es[0].id := es[0].addr])
  }

  lemma TakesEntry(e: Entry, more: seq<Byte>)
    requires EntryFits(e)
    ensures TakeU32(EncodeEntry(e) + more) == Some((e.id, e.addr + more))
    ensures Take(ADDR_SIZE, e.addr + more) == Some((e.addr, more))
  {
    assert EncodeEntry(e) + more == U32(e.id) + (e.addr + more);
    TakesU32(e.id, e.addr + more);
    assert (e.addr + more)[..ADDR_SIZE] == e.addr && (e.addr + more)[ADDR_SIZE..] == more;
  }

  lemma EncodedEntries(es: seq<Entry>, rest: seq<Byte>)
    requires |es| > 0
    ensures EncodeEntries(es) + rest == EncodeEntry(es[0]) + (EncodeEntries(es[1..]) + rest)
  {
    Assoc(EncodeEntry(es[0]), EncodeEntries(es[1..]), rest);
  }

  lemma AllNewSplits(es: seq<Entry>, table: Table)
    requires |es| > 0
    ensures AllNew(es, table) <==> es[0].id !in table && AllNew(es[1..], table[es[0].id := es[0].addr])
  {
    var more, table' := es[1..], table[es[0].id := es[0].addr];
    if AllNew(es, table) {
      assert forall k | 0 <= k < |more| :: more[k] == es[k + 1];
    }
    if es[0].id !in table && AllNew(more, table') {
      forall k | 0 < k < |es|
        ensures es[k].id !in table && es[k].id != es[0].id
      {
        assert es[k] == more[k - 1] && more[k - 1].id !in table';
      }
      forall k, l | 0 <= k < l < |es|
        ensures es[k].id != es[l].id
      {
        if k > 0 {
          assert more[k - 1].id != more[l - 1].id;
        }
      }
    }
  }

  lemma {:induction false} NewEntriesReadBack(es: seq<Entry>, table: Table, rest: seq<Byte>)
    requires (forall k | 0 <= k < |es| :: EntryFits(es[k])) && AllNew(es, table)
    ensures TakeEntries(|es|, EncodeEntries(es) + rest, table) == Some((AddAll(es, table), rest))
    decreases |es|
  {
    if |es| == 0 {
      assert [] + rest == rest;
    } else {
      var more := EncodeEntries(es[1..]) + rest;
      EncodedEntries(es, rest);
      TakesEntry(es[0], more);
      AllNewSplits(es, table);
      NewEntriesReadBack(es[1..], table[es[0].id := es[0].addr], rest);
    }
  }

  /** An entry takes at most an id and an address from the message. */
  lemma {:induction false} EntriesTakeAtMost(n: nat, s: seq<Byte>, table: Table)
    requires TakeEntries(n, s, table).Some?
    ensures |TakeEntries(n, s, table).value.1| >= |s| - n * (4 + ADDR_SIZE)
    decreases n
  {
    if n > 0 {
      var (id, s1) := TakeU32(s).value;
      if id in table {
        EntriesTakeAtMost(n - 1, s1, table);
      } else {
        var (addr, s2) := Take(ADDR_SIZE, s1).value;
        EntriesTakeAtMost(n - 1, s2, table[id := addr]);
      }
    }
  }

  lemma {:induction false} EncodedLength(es: seq<Entry>)
    requires forall k | 0 <= k < |es| :: EntryFits(es[k])
    ensures |EncodeEntries(es)| == |es| * (4 + ADDR_SIZE)
  {
    if |es| > 0 {
      EncodedLength(es[1..]);
    }
  }

  lemma {:induction false} OldEntriesLeaveBytes(es: seq<Entry>, table: Table, rest: seq<Byte>)
    requires (forall k | 0 <= k < |es| :: EntryFits(es[k])) && !AllNew(es, table)
    requires TakeEntries(|es|, EncodeEntries(es) + rest, table).Some?
    ensures |TakeEntries(|es|, EncodeEntries(es) + rest, table).value.1| > |rest|
    decreases |es|
  {
    var more := EncodeEntries(es[1..]) + rest;
    EncodedEntries(es, rest);
    TakesEntry(es[0], more);
    AllNewSplits(es, table);
    if es[0].id in table {
      EntriesTakeAtMost(|es| - 1, es[0].addr + more, table);
      EncodedLength(es[1..]);
    } else {
      OldEntriesLeaveBytes(es[1..], table[es[0].id := es[0].addr], rest);
    }
  }

  /**
    A list is read back whole, and exactly its own bytes are taken, if and only if all
    its ids are new; otherwise an address is left in the message and taken for what follows.
   */
  lemma PeersReadBack(es: seq<Entry>, table: Table, rest: seq<Byte>)
    requires |es| < 0x1_0000_0000 && forall k | 0 <= k < |es| :: EntryFits(es[k])
    ensures TakePeers(EncodePeers(es) + rest, table) == Some((AddAll(es, table), rest)) <==> AllNew(es, table)
  {
    assert EncodePeers(es) + rest == U32(|es|) + (EncodeEntries(es) + rest);
    TakesU32(|es|, EncodeEntries(es) + rest);
    if AllNew(es, table) {
      NewEntriesReadBack(es, table, rest);
    } else if TakeEntries(|es|, EncodeEntries(es) + rest, table).Some? {
      OldEntriesLeaveBytes(es, table, rest);
    }
  }

  /** append_peerlist_to_message (src/protocol_util.c:84-94). */
  method AppendPeerList(msg: Message, es: seq<Entry>)
    requires msg.Valid()
    modifies msg, msg.buffer
    ensures msg.Valid() && (msg.buffer == old(msg.buffer) || fresh(msg.buffer))
    ensures msg.Contents() == old(msg.Contents()) + EncodePeers(es)
  {
    ghost var start := msg.Contents();
    ghost var head := start + U32(|es|);
    msg.Write(U32(|es|));
    Assoc(start, U32(|es|), EncodeEntries(es));
    assert es[0..] == es;
    for i := 0 to |es|
      invariant msg.Valid() && (msg.buffer == old(msg.buffer) || fresh(msg.buffer))
      invariant msg.Contents() + EncodeEntries(es[i..]) == head + EncodeEntries(es)
    {
      AppendEntry(msg, es, i);
    }
    assert EncodeEntries(es[|es|..]) == [];
  }

  method AppendEntry(msg: Message, es: seq<Entry>, i: nat)
    requires msg.Valid() && i < |es|
    modifies msg, msg.buffer
    ensures msg.Valid() && (msg.buffer == old(msg.buffer) || fresh(msg.buffer))
    ensures msg.Contents() + EncodeEntries(es[i + 1..]) == old(msg.Contents()) + EncodeEntries(es[i..])
  {
    ghost var c, id := msg.Contents(), U32(es[i].id);
    assert es[i..][1..] == es[i + 1..];
    Assoc(c, id, es[i].addr);
    Assoc(c, id + es[i].addr, EncodeEntries(es[i + 1..]));
    msg.Write(U32(es[i].id));
    msg.Write(es[i].addr);
  }

  lemma TakeEntriesStep(n: nat, s: seq<Byte>, table: Table)
    requires TakeEntries(n, s, table).Some? && n > 0
    ensures TakeU32(s).Some?
    ensures var (id, s1) := TakeU32(s).value;
            if id in table then TakeEntries(n, s, table) == TakeEntries(n - 1, s1, table)
            else && Take(ADDR_SIZE, s1).Some?
                 && var (addr, s2) := Take(ADDR_SIZE, s1).value;
                    TakeEntries(n, s, table) == TakeEntries(n - 1, s2, table[id := addr])
  {
  }

  /** read_peerlist_from_message (src/protocol_util.c:97-115), on a message that holds as much as it asks for. */
  method ReadPeerList(msg: Message, peers: Table) returns (peers': Table)
    requires msg.Valid() && TakePeers(msg.Contents(), peers).Some?
    modifies msg
    ensures msg.Valid() && msg.buffer == old(msg.buffer)
    ensures TakePeers(old(msg.Contents()), peers) == Some((peers', msg.Contents()))
  {
    var n := ReadU32(msg);
    peers' := peers;
    ghost var c := msg.Contents();
    for i := 0 to n
      invariant msg.Valid() && msg.buffer == old(msg.buffer)
      invariant TakeEntries(n - i, msg.Contents(), peers') == TakeEntries(n, c, peers)
    {
      peers' := ReadEntry(msg, n - i, peers');
    }
  }

  method ReadEntry(msg: Message, ghost n: nat, peers: Table) returns (peers': Table)
    requires msg.Valid() && n > 0 && TakeEntries(n, msg.Contents(), peers).Some?
    modifies msg
    ensures msg.Valid() && msg.buffer == old(msg.buffer)
    ensures TakeEntries(n - 1, msg.Contents(), peers') == TakeEntries(n, old(msg.Contents()), peers)
  {
    TakeEntriesStep(n, msg.Contents(), peers);
    var id := ReadU32(msg);
    peers' := peers;
    if id !in peers {
      ghost var c := msg.Contents();
      var addr := msg.Read(ADDR_SIZE);
      assert c[..ADDR_SIZE] == addr.value && c[ADDR_SIZE..] == msg.Contents();
      peers' := peers[id := addr.value];
    }
  }
}
