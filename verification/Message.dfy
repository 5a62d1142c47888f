/** Fixed-width integers as the bytes that memcpy copies, least significant first. */
module Bytes {
  type Byte = b: int | 0 <= b < 256

  function U16(n: nat): (r: seq<Byte>)
    ensures |r| == 2
  {
    [n % 256, n / 256 % 256]
  }

  function U32(n: nat): (r: seq<Byte>)
    ensures |r| == 4
  {
    U16(n) + U16(n / 65536)
  }

  /** The least significant byte comes first. */
  lemma LittleEndian(n: nat)
    requires n < 0x1_0000_0000
    ensures U32(n) == [n % 256, n / 256 % 256, n / 65536 % 256, n / 16777216]
    ensures n < 65536 ==> U16(n) == [n % 256, n / 256]
  {
  }

  function FromU16(s: seq<Byte>): nat
    requires |s| == 2
  {
    var low: int, high: int := s[0], s[1];
    low + 256 * high
  }

  function FromU32(s: seq<Byte>): nat
    requires |s| == 4
  {
    FromU16(s[..2]) + 65536 * FromU16(s[2..])
  }

  lemma FromToU16(n: nat)
    ensures FromU16(U16(n)) == n % 65536
  {
    var q := n / 256;
    Remainder(n, q / 256, 256 * (q % 256) + n % 256, 65536);
  }

  lemma Remainder(n: nat, q: nat, r: nat, d: nat)
    requires r < d && n == q * d + r
    ensures n % d == r && n / d == q
  {
    var k := n / d - q;
    assert k * d == r - n % d;
    Multiple(k, d);
  }

  lemma Multiple(k: int, d: nat)
    ensures k > 0 ==> k * d >= d
    ensures k < 0 ==> k * d <= -(d as int)
  {
  }

  lemma FromToU32(n: nat)
    ensures FromU32(U32(n)) == n % 0x1_0000_0000
  {
    assert U32(n)[..2] == U16(n) && U32(n)[2..] == U16(n / 65536);
    FromToU16(n);
    FromToU16(n / 65536);
    var q := n / 65536;
    Remainder(n, q / 65536, 65536 * (q % 65536) + n % 65536, 0x1_0000_0000);
  }
}

/** Strings of bytes: taken apart from the front, and rearranged. */
module ByteStrings {
  import opened Options
  import opened Bytes

  type Parsed<T> = Option<(T, seq<Byte>)>

  function Take(n: nat, s: seq<Byte>): Parsed<seq<Byte>> {
    if |s| < n then None else Some((s[..n], s[n..]))
  }

  function TakeU16(s: seq<Byte>): Parsed<nat> {
    if |s| < 2 then None else Some((FromU16(s[..2]), s[2..]))
  }

  function TakeU32(s: seq<Byte>): Parsed<nat> {
    if |s| < 4 then None else Some((FromU32(s[..4]), s[4..]))
  }

  lemma TakesU16(n: nat, rest: seq<Byte>)
    requires n < 65536
    ensures TakeU16(U16(n) + rest) == Some((n, rest))
  {
    FromToU16(n);
    assert (U16(n) + rest)[..2] == U16(n) && (U16(n) + rest)[2..] == rest;
  }

  lemma TakesU32(n: nat, rest: seq<Byte>)
    requires n < 0x1_0000_0000
    ensures TakeU32(U32(n) + rest) == Some((n, rest))
  {
    FromToU32(n);
    assert (U32(n) + rest)[..4] == U32(n) && (U32(n) + rest)[4..] == rest;
  }

  lemma Assoc(a: seq<Byte>, b: seq<Byte>, c: seq<Byte>)
    ensures a + b + c == a + (b + c)
  {
  }

  /** The last field of a message is overwritten. */
  lemma PatchLast(s: seq<Byte>, was: seq<Byte>, now: seq<Byte>)
    requires |was| == |now|
    ensures (s + was)[..|s|] + now + (s + was)[|s| + |now|..] == s + now
  {
  }

  /** Overwriting after a prefix. */
  lemma PatchAfter(start: seq<Byte>, c: seq<Byte>, at: nat, now: seq<Byte>)
    requires at + |now| <= |c|
    ensures var s, k := start + c, |start| + at;
            s[..k] + now + s[k + |now|..] == start + (c[..at] + now + c[at + |now|..])
  {
    var s, k := start + c, |start| + at;
    assert s[..k] == start + c[..at] && s[k + |now|..] == c[at + |now|..];
  }
}

/** The growable message buffer of src/message.c, a first-in first-out queue of bytes. */
module Messages {
  import opened Options
  import opened Bytes
  import opened ByteStrings

  class Message {
    var buffer: array<Byte>
    var headSize: nat
    var dataSize: nat
    var tailSize: nat

    /** The three parts fill the buffer; `data` is at buffer + head_size. */
    ghost predicate Valid()
      reads this
    {
      headSize + dataSize + tailSize == buffer.Length
    }

    ghost function Contents(): seq<Byte>
      requires Valid()
      reads this, buffer
    {
      buffer[headSize..headSize + dataSize]
    }

    /** edsm_message_create (src/message.c:9-32). */
    constructor (headSize: nat, tailSize: nat)
      ensures Valid() && fresh(buffer) && Contents() == []
      ensures this.headSize == headSize && this.tailSize == tailSize
    {
      buffer := new Byte[headSize + tailSize];
      this.headSize, dataSize, this.tailSize := headSize, 0, tailSize;
    }

    /**
      edsm_message_resize (src/message.c:34-56). Its copy stays within the buffers unless one
      of head and tail grows while the other shrinks.
     */
    method Resize(newHead: nat, newTail: nat)
      requires Valid() && (newHead > headSize ==> newTail >= tailSize) && (newHead < headSize ==> newTail <= tailSize)
      modifies this
      ensures Valid() && fresh(buffer) && headSize == newHead && tailSize == newTail
      ensures dataSize == old(dataSize) && Contents() == old(Contents())
    {
      var resized := CopyOut(newHead, newTail);
      buffer, headSize, tailSize := resized, newHead, newTail;
    }

    /** The new buffer with what has room there of the old one (src/message.c:41-51). */
    method CopyOut(newHead: nat, newTail: nat) returns (resized: array<Byte>)
      requires Valid() && (newHead > headSize ==> newTail >= tailSize) && (newHead < headSize ==> newTail <= tailSize)
      ensures fresh(resized) && resized.Length == newHead + dataSize + newTail
      ensures resized[newHead..newHead + dataSize] == Contents()
    {
      var newSize := newHead + dataSize + newTail;
      resized := new Byte[newSize];
      var to := if newHead > headSize then newHead - headSize else 0;
      var from := if newHead > headSize then 0 else headSize - newHead;
      var size := if newSize > buffer.Length then buffer.Length else newSize;
      forall i | to <= i < to + size {
        resized[i] := buffer[from + (i - to)];
      }
      assert forall i | 0 <= i < dataSize :: resized[newHead..newHead + dataSize][i] == Contents()[i];
    }

    /** edsm_message_write (src/message.c:124-132). */
    method Write(bytes: seq<Byte>)
      requires Valid()
      modifies this, buffer
      ensures Valid() && (buffer == old(buffer) || fresh(buffer))
      ensures Contents() == old(Contents()) + bytes && headSize == old(headSize)
      ensures |bytes| <= old(tailSize) ==> buffer == old(buffer)
      ensures |bytes| > old(tailSize) ==>
                tailSize + |bytes| == if old(buffer.Length) > |bytes| then 2 * old(buffer.Length) else 2 * |bytes|
    {
      if !(tailSize >= |bytes|) {
        Resize(headSize, if buffer.Length > |bytes| then buffer.Length * 2 else |bytes| * 2);
      }
      Put(bytes);
    }

    /** memcpy to the end of the data, then edsm_message_put (src/message.c:94-99, 129-130). */
    method Put(bytes: seq<Byte>)
      requires Valid() && |bytes| <= tailSize
      modifies this`dataSize, this`tailSize, buffer
      ensures Valid() && Contents() == old(Contents()) + bytes && tailSize == old(tailSize) - |bytes|
    {
      var at := headSize + dataSize;
      forall i | 0 <= i < |bytes| {
        buffer[at + i] := bytes[i];
      }
      assert buffer[headSize..at] == old(Contents()) && buffer[at..at + |bytes|] == bytes;
      dataSize, tailSize := dataSize + |bytes|, tailSize - |bytes|;
    }

    /** edsm_message_read (src/message.c:133-142): nothing is taken unless all of it is there. */
    method Read(bytes: nat) returns (r: Option<seq<Byte>>)
      requires Valid()
      modifies this
      ensures Valid() && buffer == old(buffer)
      ensures bytes > |old(Contents())| ==> r == None && Contents() == old(Contents())
      ensures bytes <= |old(Contents())| ==>
                r.Some? && |r.value| == bytes && r.value + Contents() == old(Contents())
    {
      if !(dataSize >= bytes) {
        return None;
      }
      r := Some(buffer[headSize..headSize + bytes]);
      headSize, dataSize := headSize + bytes, dataSize - bytes;
    }

    /** Overwrites bytes already written, as *(uint16_t *)(msg->data + at) does. */
    method Patch(at: nat, bytes: seq<Byte>)
      requires Valid() && at + |bytes| <= |Contents()|
      modifies buffer
      ensures Valid()
      ensures Contents() == old(Contents())[..at] + bytes + old(Contents())[at + |bytes|..]
    {
      forall i | 0 <= i < |bytes| {
        buffer[headSize + at + i] := bytes[i];
      }
    }
  }

  method ReadU16(msg: Message) returns (n: nat)
    requires msg.Valid() && TakeU16(msg.Contents()).Some?
    modifies msg
    ensures msg.Valid() && msg.buffer == old(msg.buffer)
    ensures TakeU16(old(msg.Contents())) == Some((n, msg.Contents()))
  {
    ghost var c := msg.Contents();
    var r := msg.Read(2);
    assert c[..2] == r.value && c[2..] == msg.Contents();
    n := FromU16(r.value);
  }

  method ReadU32(msg: Message) returns (n: nat)
    requires msg.Valid() && TakeU32(msg.Contents()).Some?
    modifies msg
    ensures msg.Valid() && msg.buffer == old(msg.buffer)
    ensures TakeU32(old(msg.Contents())) == Some((n, msg.Contents()))
  {
    ghost var c := msg.Contents();
    var r := msg.Read(4);
    assert c[..4] == r.value && c[4..] == msg.Contents();
    n := FromU32(r.value);
  }
}
