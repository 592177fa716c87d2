/** The environment log of lib/cmpsc311_capture.c as a byte sequence: the records that are
    appended, the walk back over their trailers, and the parse forward. */
module CaptureFormat {
  import opened Bytes
  import opened Common

  type int32 = n: int | -0x8000_0000 <= n < 0x8000_0000
  type Address = s: Octets | |s| == 4 witness [0, 0, 0, 0]

  // What one call of the capture records. A missing user or group has the empty name.
  datatype Env = Env(tm: int32, tz: int32, uid: uint32, gid: uint32,
                     user: Octets, group: Octets, host: Octets, ip: Address)

  // ---- Bytes, words in network byte order, and the mask on names ----

  // htonl and a write of four bytes; a read of four bytes and ntohl.
  function Word(n: uint32): (b: Octets)
    ensures |b| == 4
  {
    [Byte(n / 256 / 256 / 256), Byte(n / 256 / 256 % 256), Byte(n / 256 % 256), Byte(n % 256)]
  }

  function FromWord(b: Octets): (n: uint32)
    requires |b| == 4
  {
    ((Num(b[0]) * 256 + Num(b[1])) * 256 + Num(b[2])) * 256 + Num(b[3])
  }

  lemma WordRoundTrip(n: uint32)
    ensures FromWord(Word(n)) == n
  {
    hide Byte, Num;
    var q := n / 256;
    var p := q / 256;
    ByteNum(p / 256);
    ByteNum(p % 256);
    ByteNum(q % 256);
    ByteNum(n % 256);
  }

  const ZERO_WORD: Octets := [0, 0, 0, 0]

  lemma ZeroWord(b: Octets)
    requires |b| == 4
    ensures FromWord(b) == 0 <==> b == ZERO_WORD
  {
    hide Byte, Num;
    NumZero(b[0]);
    NumZero(b[1]);
    NumZero(b[2]);
    NumZero(b[3]);
  }

  function Unsigned(n: int32): uint32 {
    if n < 0 then n + U32 else n
  }

  function Signed(n: uint32): int32 {
    if n < 0x8000_0000 then n else n - U32
  }

  function MaskByte(b: byte): byte {
    b ^ 0xca
  }

  // The mask flips bits 1, 3, 6 and 7 of a byte and leaves the others.
  lemma MaskFlips(b: byte)
    ensures MaskByte(b) & 0x35 == b & 0x35
    ensures MaskByte(b) & 0xca == !b & 0xca
  {
  }

  function Mask(s: Octets): (r: Octets)
    ensures |r| == |s|
  {
    seq(|s|, i requires 0 <= i < |s| => MaskByte(s[i]))
  }

  lemma MaskTwice(s: Octets)
    ensures Mask(Mask(s)) == s
  {
    forall i | 0 <= i < |s|
      ensures MaskByte(MaskByte(s[i])) == s[i]
    {
    }
  }

  // ---- One record ----

  // The part of a name whose length fits the length byte.
  function Kept(name: Octets): (r: Octets)
    ensures |r| == |name| % 256 && r <= name
  {
    name[..|name| % 256]
  }

  function Name(name: Octets): Octets {
    [Byte(|Kept(name)|)] + Mask(Kept(name))
  }

  // The record of e, written at offset ofs, in front of tail.
  function RecordBefore(e: Env, ofs: uint32, tail: Octets): Octets {
    Word(Unsigned(e.tm)) + (Word(Unsigned(e.tz)) + (Word(e.uid) + (Word(e.gid)
      + (Name(e.user) + (Name(e.group) + (Name(e.host) + (e.ip + (Word(ofs) + tail))))))))
  }

  function Record(e: Env, ofs: uint32): Octets {
    RecordBefore(e, ofs, [])
  }

  lemma RecordFront(e: Env, ofs: uint32, tail: Octets)
    ensures RecordBefore(e, ofs, tail) == Record(e, ofs) + tail
  {
    hide Word, Name;
    assert Word(ofs) + [] == Word(ofs);
  }

  // Twenty-seven bytes at least, the last four of them the offset.
  lemma RecordShape(e: Env, ofs: uint32)
    ensures |Record(e, ofs)| >= 27
    ensures Record(e, ofs)[|Record(e, ofs)| - 4..] == Word(ofs)
  {
    hide Word, Name;
    assert |Name(e.user)| >= 1 && |Name(e.group)| >= 1 && |Name(e.host)| >= 1 by {
      NameSize(e.user);
      NameSize(e.group);
      NameSize(e.host);
    }
  }

  lemma NameSize(name: Octets)
    ensures |Name(name)| == 1 + |Kept(name)|
  {
  }

  function Take(b: Octets, n: nat): Option<(Octets, Octets)> {
    if |b| < n then None else Some((b[..n], b[n..]))
  }

  function TakeName(b: Octets): Option<(Octets, Octets)> {
    if b == [] then None else
      var r := Take(b[1..], Num(b[0]));
      if r.None? then None else Some((Mask(r.value.0), r.value.1))
  }

  lemma TakeFront(a: Octets, b: Octets)
    ensures Take(a + b, |a|) == Some((a, b))
  {
    assert (a + b)[..|a|] == a && (a + b)[|a|..] == b;
  }

  lemma TakeNameFront(name: Octets, tail: Octets)
    ensures TakeName(Name(name) + tail) == Some((Kept(name), tail))
  {
    ByteNum(|Kept(name)|);
    MaskTwice(Kept(name));
    TakeFront(Mask(Kept(name)), tail);
    assert (Name(name) + tail)[1..] == Mask(Kept(name)) + tail;
  }

  // The parse of the record at the front of b: the record, its trailer, and what follows.
  function ParseRecord(b: Octets): (r: Option<(Env, uint32, Octets)>)
    ensures r.Some? ==> |r.value.2| < |b|
  {
    var tm := Take(b, 4); if tm.None? then None else
    var tz := Take(tm.value.1, 4); if tz.None? then None else
    var uid := Take(tz.value.1, 4); if uid.None? then None else
    var gid := Take(uid.value.1, 4); if gid.None? then None else
    var user := TakeName(gid.value.1); if user.None? then None else
    var group := TakeName(user.value.1); if group.None? then None else
    var host := TakeName(group.value.1); if host.None? then None else
    var ip := Take(host.value.1, 4); if ip.None? then None else
    var next := Take(ip.value.1, 4); if next.None? then None else
    Some((Env(Signed(FromWord(tm.value.0)), Signed(FromWord(tz.value.0)), FromWord(uid.value.0),
              FromWord(gid.value.0), user.value.0, group.value.0, host.value.0, ip.value.0),
          FromWord(next.value.0), next.value.1))
  }

  // The bytes of a name after its length byte, masked one by one.
  lemma NameAt(name: Octets, i: nat)
    requires i < |name| % 256
    ensures |Name(name)| == 1 + |name| % 256 && Num(Name(name)[0]) == |name| % 256
    ensures Name(name)[1 + i] & 0x35 == name[i] & 0x35 && Name(name)[1 + i] & 0xca == !name[i] & 0xca
  {
    hide Byte, Num, MaskByte;
    ByteNum(|name| % 256);
    MaskFlips(name[i]);
    assert Name(name)[1 + i] == Mask(Kept(name))[i] == MaskByte(name[i]);
  }

  // Where a record holds what: 16 bytes of numbers, three names, the address, its own offset.
  lemma RecordLayout(e: Env, ofs: uint32)
    ensures var r, u, g, h := Record(e, ofs), |Name(e.user)|, |Name(e.group)|, |Name(e.host)|;
      && |r| == 24 + u + g + h
      && r[..4] == Word(Unsigned(e.tm)) && r[4..8] == Word(Unsigned(e.tz))
      && r[8..12] == Word(e.uid) && r[12..16] == Word(e.gid)
      && r[16..16 + u] == Name(e.user) && r[16 + u..16 + u + g] == Name(e.group)
      && r[16 + u + g..16 + u + g + h] == Name(e.host)
      && r[16 + u + g + h..20 + u + g + h] == e.ip && r[20 + u + g + h..] == Word(ofs)
  {
    hide Word, Name, Unsigned;
    var a := Word(Unsigned(e.tm)) + Word(Unsigned(e.tz)) + Word(e.uid) + Word(e.gid);
    var b := Name(e.user) + Name(e.group) + Name(e.host);
    assert Record(e, ofs) == a + b + (e.ip + Word(ofs));
  }

  // Numbers go out most significant byte first, negative ones in two's complement.
  lemma WordBytes()
    ensures forall b | b in Word(Unsigned(-1)) :: Num(b) == 255
    ensures var w := Word(0x0102_0304); Num(w[0]) == 1 && Num(w[1]) == 2 && Num(w[2]) == 3 && Num(w[3]) == 4
  {
    hide Byte, Num;
    ByteNum(255);
    ByteNum(1);
    ByteNum(2);
    ByteNum(3);
    ByteNum(4);
  }

  // What a record keeps of e: names lose what does not fit the length byte.
  function Stored(e: Env): Env {
    e.(user := Kept(e.user), group := Kept(e.group), host := Kept(e.host))
  }

  lemma StoredWhole(e: Env)
    ensures Stored(e) == e <==> |e.user| < 256 && |e.group| < 256 && |e.host| < 256
  {
    assert |Kept(e.user)| < 256 && |Kept(e.group)| < 256 && |Kept(e.host)| < 256;
  }

  lemma ParseRecordFront(e: Env, ofs: uint32, tail: Octets)
    ensures ParseRecord(Record(e, ofs) + tail) == Some((Stored(e), ofs, tail))
  {
    hide Word, FromWord, Name, TakeName, Take, Kept;
    RecordFront(e, ofs, tail);
    var b9 := Word(ofs) + tail;
    var b8 := e.ip + b9;
    var b7 := Name(e.host) + b8;
    var b6 := Name(e.group) + b7;
    var b5 := Name(e.user) + b6;
    var b4 := Word(e.gid) + b5;
    var b3 := Word(e.uid) + b4;
    var b2 := Word(Unsigned(e.tz)) + b3;
    TakeWord(Unsigned(e.tm), b2);
    TakeWord(Unsigned(e.tz), b3);
    TakeWord(e.uid, b4);
    TakeWord(e.gid, b5);
    TakeNameFront(e.user, b6);
    TakeNameFront(e.group, b7);
    TakeNameFront(e.host, b8);
    TakeFront(e.ip, b9);
    TakeWord(ofs, tail);
  }

  lemma TakeWord(n: uint32, tail: Octets)
    ensures Take(Word(n) + tail, 4) == Some((Word(n), tail)) && FromWord(Word(n)) == n
  {
    TakeFront(Word(n), tail);
    WordRoundTrip(n);
  }
}
