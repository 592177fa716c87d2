/** Messages as bytes (proto/proto.c) and the loops that move them over a stream socket
    (lib/cmpsc311_network.c), however the system splits the bytes. */
module Wire {
  import opened Common
  import opened Bytes

  const MAX_BLOCK_SIZE: nat := 8096
  const TYPE_SIZE: nat := 4
  const MSG_SIZE: nat := TYPE_SIZE + MAX_BLOCK_SIZE

  type Block = s: Octets | |s| == MAX_BLOCK_SIZE witness seq(MAX_BLOCK_SIZE, _ => 0)
  type Frame = s: Octets | |s| == MSG_SIZE witness seq(MSG_SIZE, _ => 0)

  // The value of a ProtoMsg. The enumeration is an unsigned int in memory.
  datatype Msg = Msg(msgType: uint32, data: Block)

  function Marshalled(m: Msg): Frame {
    Memory(m.msgType) + m.data
  }

  function Unmarshalled(b: Frame): Msg {
    Msg(FromMemory(b[..TYPE_SIZE]), b[TYPE_SIZE..])
  }

  lemma MarshallInverse(m: Msg, b: Frame)
    ensures Unmarshalled(Marshalled(m)) == m
    ensures Marshalled(Unmarshalled(b)) == b
  {
    hide Memory, FromMemory;
    MemoryRoundTrip(m.msgType);
    MemoryOf(b[..TYPE_SIZE]);
    assert Marshalled(m)[..TYPE_SIZE] == Memory(m.msgType) && Marshalled(m)[TYPE_SIZE..] == m.data;
    assert b[..TYPE_SIZE] + b[TYPE_SIZE..] == b;
  }

  // The type comes first, least significant byte first, and then the block.
  lemma MarshalledLayout(m: Msg, i: nat)
    requires i < MAX_BLOCK_SIZE
    ensures Marshalled(m)[..4] == Memory(m.msgType) && Marshalled(m)[4 + i] == m.data[i]
    ensures m.msgType < 256 ==> Num(Marshalled(m)[0]) == m.msgType && Marshalled(m)[1..4] == [0, 0, 0]
  {
    hide Byte, Num;
    if m.msgType < 256 {
      ByteNum(m.msgType);
      NumByte(0);
      NumZero(0);
      assert Byte(0) == 0;
    }
  }

  class ProtoMsg {
    var msgType: uint32
    var data: array<byte>

    constructor (msgType: uint32)
      ensures Valid() && fresh(data) && this.msgType == msgType && Value().data == seq(MAX_BLOCK_SIZE, _ => 0)
    {
      this.msgType := msgType;
      data := new byte[MAX_BLOCK_SIZE](_ => 0);
    }

    ghost predicate Valid()
      reads this
    {
      data.Length == MAX_BLOCK_SIZE
    }

    ghost function Value(): Msg
      requires Valid()
      reads this, data
    {
      Msg(msgType, data[..])
    }
  }

  // memcpy of src to dst at offset to.
  method Copy(dst: array<byte>, to: nat, src: Octets)
    requires to + |src| <= dst.Length
    modifies dst
    ensures dst[..] == old(dst[..to]) + src + old(dst[to + |src|..])
  {
    forall i | 0 <= i < |src| {
      dst[to + i] := src[i];
    }
  }

  method Marshall(msg: ProtoMsg, buffer: array?<byte>) returns (rc: int)
    requires msg.Valid() && (buffer != null ==> buffer.Length == MSG_SIZE && buffer != msg.data)
    modifies buffer
    ensures rc == if buffer == null then -1 else 0
    ensures buffer != null ==> buffer[..] == Marshalled(msg.Value())
  {
    if buffer == null {
      return -1;
    }
    Copy(buffer, 0, Memory(msg.msgType));
    Copy(buffer, TYPE_SIZE, msg.data[..]);
    return 0;
  }

  method Unmarshall(buffer: array<byte>, msg: ProtoMsg) returns (rc: int)
    requires msg.Valid() && buffer.Length == MSG_SIZE && buffer != msg.data
    modifies msg, msg.data
    ensures rc == 0 && msg.Valid() && msg.data == old(msg.data)
    ensures msg.Value() == Unmarshalled(buffer[..])
  {
    msg.msgType := FromMemory(buffer[..TYPE_SIZE]);
    Copy(msg.data, 0, buffer[TYPE_SIZE..]);
    assert buffer[..][..TYPE_SIZE] == buffer[..TYPE_SIZE];
    return 0;
  }

  /** One end of a connection: the bytes written so far, and the bytes the other end will
      have delivered by the time they are read. */
  class Socket {
    var written: Octets
    var incoming: Octets

    constructor (incoming: Octets)
      ensures written == [] && this.incoming == incoming
    {
      written, this.incoming := [], incoming;
    }

    // The system takes any part of the bytes offered, or reports failure or a closed end.
    method Write(data: Octets) returns (sb: int)
      modifies this
      ensures sb <= |data| && incoming == old(incoming)
      ensures written == if sb > 0 then old(written) + data[..sb] else old(written)
    {
      sb := *;
      if sb > |data| {
        sb := |data|;
      }
      if sb > 0 {
        written := written + data[..sb];
      }
    }

    method Read(n: nat) returns (rb: int, data: Octets)
      modifies this
      ensures rb <= n && |data| == (if rb > 0 then rb else 0) && written == old(written)
      ensures old(incoming) == data + incoming
    {
      rb, data := *, [];
      if rb > n {
        rb := n;
      }
      if rb > |incoming| {
        rb := |incoming|;
      }
      if rb > 0 {
        data, incoming := incoming[..rb], incoming[rb..];
      }
    }
  }

  // Success means all bytes went out, in order; otherwise only a proper part of them did.
  method SendBytes(sock: Socket, len: nat, buf: array<byte>) returns (rc: int)
    requires len <= buf.Length
    modifies sock
    ensures sock.incoming == old(sock.incoming) && (rc == 0 || rc == -1)
    ensures rc == 0 ==> sock.written == old(sock.written) + buf[..len]
    ensures rc == -1 ==> exists k :: 0 <= k < len && sock.written == old(sock.written) + buf[..k]
  {
    var sentBytes := 0;
    while sentBytes < len
      invariant 0 <= sentBytes <= len && sock.incoming == old(sock.incoming)
      invariant sock.written == old(sock.written) + buf[..sentBytes]
    {
      ghost var done := buf[..sentBytes];
      var sb := sock.Write(buf[sentBytes..len]);
      assert buf[..sentBytes] == done;
      if sb <= 0 {
        return -1;
      }
      ghost var more := buf[sentBytes..len][..sb];
      assert done + more == buf[..sentBytes + sb];
      assert old(sock.written) + done + more == old(sock.written) + (done + more);
      sentBytes := sentBytes + sb;
    }
    return 0;
  }

  // Success means the buffer holds exactly the next len bytes of the stream.
  method ReadBytes(sock: Socket, len: nat, buf: array<byte>) returns (rc: int)
    requires len <= buf.Length
    modifies sock, buf
    ensures sock.written == old(sock.written) && (rc == 0 || rc == -1)
    ensures buf[len..] == old(buf[len..])
    ensures rc == 0 ==> old(sock.incoming) == buf[..len] + sock.incoming
    ensures rc == -1 ==> exists k :: 0 <= k < len && old(sock.incoming) == buf[..k] + sock.incoming
  {
    var readBytes := 0;
    while readBytes < len
      invariant 0 <= readBytes <= len && sock.written == old(sock.written)
      invariant buf[len..] == old(buf[len..])
      invariant old(sock.incoming) == buf[..readBytes] + sock.incoming
    {
      var rb, data := sock.Read(len - readBytes);
      if rb <= 0 {
        return -1;
      }
      ghost var before := buf[..readBytes];
      Copy(buf, readBytes, data);
      readBytes := readBytes + rb;
      assert buf[..readBytes] == before + data;
    }
    return 0;
  }

  // ---- Whole messages ----

  // The bytes of a sequence of messages.
  function Stream(msgs: seq<Msg>): Octets {
    if msgs == [] then [] else Marshalled(msgs[0]) + Stream(msgs[1..])
  }

  // n messages taken off the front of a stream, and what is left of it.
  function Received(b: Octets, n: nat): Option<(seq<Msg>, Octets)> {
    if n == 0 then Some(([], b))
    else if |b| < MSG_SIZE then None
    else
      var r := Received(b[MSG_SIZE..], n - 1);
      if r.None? then None else Some(([Unmarshalled(b[..MSG_SIZE])] + r.value.0, r.value.1))
  }

  // The messages come out as they went in, and no byte is left over.
  lemma {:induction false} StreamRoundTrip(msgs: seq<Msg>, rest: Octets)
    ensures Received(Stream(msgs) + rest, |msgs|) == Some((msgs, rest))
  {
    hide Marshalled, Unmarshalled;
    if msgs == [] {
      assert Stream(msgs) + rest == rest;
    } else {
      var b, frame := Stream(msgs) + rest, Marshalled(msgs[0]);
      assert b == frame + (Stream(msgs[1..]) + rest);
      assert b[..MSG_SIZE] == frame && b[MSG_SIZE..] == Stream(msgs[1..]) + rest;
      MarshallInverse(msgs[0], frame);
      StreamRoundTrip(msgs[1..], rest);
      assert [msgs[0]] + msgs[1..] == msgs;
    }
  }

  lemma {:induction false} StreamMore(msgs: seq<Msg>, m: Msg)
    ensures Stream(msgs + [m]) == Stream(msgs) + Marshalled(m)
  {
    hide Marshalled;
    if msgs == [] {
      assert [] + [m] == [m] && [m][1..] == [];
    } else {
      assert (msgs + [m])[1..] == msgs[1..] + [m];
      StreamMore(msgs[1..], m);
    }
  }

  method SendMessage(sock: Socket, msg: ProtoMsg, buffer: array<byte>) returns (rc: int)
    requires msg.Valid() && buffer.Length == MSG_SIZE && buffer != msg.data
    modifies sock, buffer
    ensures sock.incoming == old(sock.incoming)
    ensures rc == 0 ==> sock.written == old(sock.written) + Marshalled(msg.Value())
  {
    var _ := Marshall(msg, buffer);
    rc := SendBytes(sock, MSG_SIZE, buffer);
    assert buffer[..MSG_SIZE] == buffer[..];
  }

  method ReceiveMessage(sock: Socket, msg: ProtoMsg, buffer: array<byte>) returns (rc: int)
    requires msg.Valid() && buffer.Length == MSG_SIZE && buffer != msg.data
    modifies sock, buffer, msg, msg.data
    ensures sock.written == old(sock.written) && msg.Valid() && msg.data == old(msg.data)
    ensures rc == 0 ==> Received(old(sock.incoming), 1) == Some(([msg.Value()], sock.incoming))
  {
    hide Unmarshalled;
    rc := ReadBytes(sock, MSG_SIZE, buffer);
    assert buffer[..MSG_SIZE] == buffer[..];
    ghost var b := buffer[..];
    var _ := Unmarshall(buffer, msg);
    if rc == 0 {
      assert old(sock.incoming)[..MSG_SIZE] == b && old(sock.incoming)[MSG_SIZE..] == sock.incoming;
      assert Received(sock.incoming, 0) == Some(([], sock.incoming));
      assert [msg.Value()] + [] == [msg.Value()] && msg.Value() == Unmarshalled(b);
    }
  }

  // The structure that a caller fills before each message it sends.
  method Fill(msg: ProtoMsg, m: Msg)
    requires msg.Valid()
    modifies msg, msg.data
    ensures msg.Valid() && msg.data == old(msg.data) && msg.Value() == m
  {
    msg.msgType := m.msgType;
    Copy(msg.data, 0, m.data);
  }

  // Messages sent one after the other over one structure and one buffer, as server and client do.
  method SendAll(sock: Socket, msgs: seq<Msg>, msg: ProtoMsg, buffer: array<byte>) returns (rc: int)
    requires msg.Valid() && buffer.Length == MSG_SIZE && buffer != msg.data
    modifies sock, buffer, msg, msg.data
    ensures sock.incoming == old(sock.incoming) && msg.Valid() && msg.data == old(msg.data)
    ensures rc == 0 ==> sock.written == old(sock.written) + Stream(msgs)
  {
    hide Marshalled;
    var i := 0;
    rc := 0;
    assert msgs[..0] == [] && sock.written + [] == sock.written;
    while i < |msgs|
      invariant i <= |msgs| && rc == 0 && sock.incoming == old(sock.incoming)
      invariant msg.Valid() && msg.data == old(msg.data)
      invariant sock.written == old(sock.written) + Stream(msgs[..i])
    {
      Fill(msg, msgs[i]);
      rc := SendMessage(sock, msg, buffer);
      if rc != 0 {
        return;
      }
      StreamMore(msgs[..i], msgs[i]);
      assert msgs[..i + 1] == msgs[..i] + [msgs[i]];
      i := i + 1;
    }
    assert msgs[..i] == msgs;
  }

  // Messages received one after the other.
  method ReceiveAll(sock: Socket, n: nat, msg: ProtoMsg, buffer: array<byte>) returns (rc: int, msgs: seq<Msg>)
    requires msg.Valid() && buffer.Length == MSG_SIZE && buffer != msg.data
    modifies sock, buffer, msg, msg.data
    ensures sock.written == old(sock.written) && msg.Valid() && msg.data == old(msg.data)
    ensures rc == 0 ==> Received(old(sock.incoming), n) == Some((msgs, sock.incoming))
  {
    hide Unmarshalled, Received;
    rc, msgs := 0, [];
    var i := 0;
    NothingReceived(sock.incoming);
    while i < n
      invariant i <= n && rc == 0 && sock.written == old(sock.written)
      invariant msg.Valid() && msg.data == old(msg.data)
      invariant Received(old(sock.incoming), i) == Some((msgs, sock.incoming))
    {
      ghost var before := sock.incoming;
      rc := ReceiveMessage(sock, msg, buffer);
      if rc != 0 {
        return;
      }
      var m := Msg(msg.msgType, msg.data[..]);
      ReceivedMore(old(sock.incoming), i, msgs, before, m, sock.incoming);
      msgs := msgs + [m];
      i := i + 1;
    }
  }

  lemma NothingReceived(b: Octets)
    ensures Received(b, 0) == Some(([], b))
  {
  }

  lemma {:induction false} ReceivedMore(b: Octets, n: nat, msgs: seq<Msg>, rest: Octets, m: Msg, rest': Octets)
    requires Received(b, n) == Some((msgs, rest)) && Received(rest, 1) == Some(([m], rest'))
    ensures Received(b, n + 1) == Some((msgs + [m], rest'))
    decreases n
  {
    hide Unmarshalled;
    if n == 0 {
      assert msgs + [m] == [m];
    } else {
      ReceivedMore(b[MSG_SIZE..], n - 1, msgs[1..], rest, m, rest');
      assert msgs + [m] == [msgs[0]] + (msgs[1..] + [m]);
    }
  }

  // Whatever either end's calls to the system transfer at a time, the messages sent are the
  // messages received, and no byte is left over.
  method Deliver(msgs: seq<Msg>) returns (ok: bool, received: seq<Msg>, left: Octets)
    ensures ok ==> received == msgs && left == []
  {
    hide Received, Stream;
    var sender := new Socket([]);
    var msg := new ProtoMsg(0);
    var buffer := new byte[MSG_SIZE];
    var rc := SendAll(sender, msgs, msg, buffer);
    if rc != 0 {
      return false, [], sender.written;
    }
    var receiver := new Socket(sender.written);
    rc, received := ReceiveAll(receiver, |msgs|, msg, buffer);
    left := receiver.incoming;
    ok := rc == 0;
    assert [] + Stream(msgs) == Stream(msgs) == Stream(msgs) + [];
    StreamRoundTrip(msgs, []);
  }
}
