/** The writer and the reader of lib/cmpsc311_capture.c, step by step. The fields of the
    environment are arguments; file system errors are not modelled. */
module Capture {
  import opened Common
  import opened Bytes
  import opened CaptureFormat
  import opened CaptureLog

  class LogFile {
    var bytes: Octets

    constructor (bytes: Octets)
      ensures this.bytes == bytes
    {
      this.bytes := bytes;
    }

    method Write(data: Octets)
      modifies this
      ensures bytes == old(bytes) + data
    {
      bytes := bytes + data;
    }
  }

  // The C string in a buffer: what stands before the first zero byte.
  function Text(s: Octets): (r: Octets)
    requires 0 in s
    ensures r < s && 0 !in r && s[|r|] == 0
  {
    if s[0] == 0 then [] else
      assert s == [s[0]] + s[1..];
      [s[0]] + Text(s[1..])
  }

  ghost function OptionalText(a: array?<byte>): Octets
    requires a != null ==> 0 in a[..]
    reads a
  {
    if a == null then [] else Text(a[..])
  }

  // The mask is applied in the buffer itself, up to its end of string.
  method MaskInPlace(name: array<byte>)
    requires 0 in name[..]
    modifies name
    ensures name[..] == old(Mask(Text(name[..])) + name[|Text(name[..])|..])
  {
    ghost var text := Text(name[..]);
    var c := 0;
    while name[c] != 0
      invariant 0 <= c <= |text| < name.Length
      invariant forall i | 0 <= i < c :: name[i] == MaskByte(text[i])
      invariant forall i | c <= i < name.Length :: name[i] == old(name[i])
      decreases |text| - c
    {
      name[c] := MaskByte(name[c]);
      c := c + 1;
    }
    assert c == |text|;
  }

  // The length byte and the masked name.
  method WriteName(fd: LogFile, name: array<byte>)
    requires 0 in name[..]
    modifies fd, name
    ensures fd.bytes == old(fd.bytes + Name(Text(name[..])))
  {
    hide Byte, MaskByte;
    ghost var text := Text(name[..]);
    var length := StrLen(name);
    var len := length % 256;  // uint8_t
    fd.Write([Byte(len)]);
    if len != 0 {
      MaskInPlace(name);
      assert name[..len] == Mask(Kept(text));
      fd.Write(name[..len]);
    }
    NameParts(old(fd.bytes), text);
  }

  lemma NameParts(b: Octets, name: Octets)
    ensures b + Name(name) == b + [Byte(|Kept(name)|)] + Mask(Kept(name))
    ensures |Kept(name)| == 0 ==> b + Name(name) == b + [Byte(|Kept(name)|)]
  {
    hide Byte, Mask, Kept;
    var length, kept := [Byte(|Kept(name)|)], Mask(Kept(name));
    assert b + (length + kept) == b + length + kept;
    assert |kept| == 0 ==> length + kept == length;
  }

  // A missing entry is written as an empty name.
  method WriteOptional(fd: LogFile, name: array?<byte>)
    requires name != null ==> 0 in name[..]
    modifies fd, name
    ensures fd.bytes == old(fd.bytes + Name(OptionalText(name)))
  {
    if name != null {
      WriteName(fd, name);
    } else {
      fd.Write([Byte(0)]);
      assert Name([]) == [Byte(0)];
    }
  }

  lemma Assemble(b: Octets, e: Env, ofs: uint32)
    ensures b + Word(Unsigned(e.tm)) + Word(Unsigned(e.tz)) + Word(e.uid) + Word(e.gid)
         + Name(e.user) + Name(e.group) + Name(e.host) + e.ip + Word(ofs) == b + Record(e, ofs)
  {
    hide Word, Name;
    assert Word(ofs) + [] == Word(ofs);
  }

  method StrLen(name: array<byte>) returns (n: nat)
    requires 0 in name[..]
    ensures n == |Text(name[..])|
  {
    n := 0;
    while name[n] != 0
      invariant 0 <= n <= |Text(name[..])|
      decreases |Text(name[..])| - n
    {
      n := n + 1;
    }
  }

  method EnvironmentCapture(fd: LogFile, tm: int32, tz: int32, uid: uint32, gid: uint32,
                            user: array?<byte>, group: array?<byte>, host: array<byte>, ip: Address)
    requires 0 in host[..] && (user != null ==> 0 in user[..]) && (group != null ==> 0 in group[..])
    requires user != host && group != host && (user == null || user != group)
    modifies fd, user, group, host
    ensures fd.bytes == old(Append(fd.bytes,
      Env(tm, tz, uid, gid, OptionalText(user), OptionalText(group), Text(host[..]), ip)))
  {
    hide Word, Name, Record;
    ghost var e := Env(tm, tz, uid, gid, OptionalText(user), OptionalText(group), Text(host[..]), ip);
    var ofs := |fd.bytes| % U32;
    fd.Write(Word(Unsigned(tm)));
    fd.Write(Word(Unsigned(tz)));
    fd.Write(Word(uid));
    fd.Write(Word(gid));
    WriteOptional(fd, user);
    WriteOptional(fd, group);
    WriteName(fd, host);
    fd.Write(ip);
    fd.Write(Word(ofs));
    Assemble(old(fd.bytes), e, ofs);
  }

  // An open log with its read position.
  class Reader {
    const file: Octets
    var pos: nat

    constructor (file: Octets)
      ensures this.file == file && pos == 0
    {
      this.file, pos := file, 0;
    }

    ghost predicate Valid()
      reads this
    {
      pos <= |file|
    }

    ghost function Left(): Octets
      requires Valid()
      reads this
    {
      file[pos..]
    }

    // At most n bytes, fewer at the end of the file.
    method Read(n: nat) returns (data: Octets)
      requires Valid()
      modifies this
      ensures Valid() && |data| <= n
      ensures Take(old(Left()), n) == if |data| < n then None else Some((data, Left()))
    {
      var end := if pos + n <= |file| then pos + n else |file|;
      data := file[pos..end];
      assert pos + n <= |file| ==> file[pos..][..n] == data && file[pos..][n..] == file[end..];
      pos := end;
    }

    // The length byte and the name after it, unmasked.
    method ReadName() returns (name: Option<Octets>)
      requires Valid()
      modifies this
      ensures Valid()
      ensures TakeName(old(Left())) == if name.None? then None else Some((name.value, Left()))
    {
      var len := Read(1);
      if |len| < 1 {
        return None;
      }
      assert old(Left()) == len + Left();
      var data := Read(Num(len[0]));
      if |data| < Num(len[0]) {
        return None;
      }
      return Some(Mask(data));
    }

    // pread of four bytes into n, then the byte swap.
    method PRead(pos: uint32, n: uint32) returns (next: uint32)
      ensures next == ReadTrailer(file, pos, n)
    {
      var got := if pos >= |file| then [] else if pos + 4 <= |file| then file[pos..pos + 4] else file[pos..];
      next := FromWord(got + Memory(n)[|got|..]);
    }

    // What follows the time stamp of a record.
    method ReadRest(tm: Octets) returns (r: Option<Env>)
      requires Valid() && |tm| == 4
      modifies this
      ensures Valid()
      ensures var p := ParseRecord(tm + old(Left()));
        if r.None? then p.None? else p.Some? && p.value.0 == r.value && p.value.2 == Left()
    {
      hide FromWord, Signed, Take, TakeName;
      TakeFront(tm, Left());
      var tz := Read(4);
      if |tz| < 4 { return None; }
      var uid := Read(4);
      if |uid| < 4 { return None; }
      var gid := Read(4);
      if |gid| < 4 { return None; }
      var user := ReadName();
      if user.None? { return None; }
      var group := ReadName();
      if group.None? { return None; }
      var host := ReadName();
      if host.None? { return None; }
      var ip := Read(4);
      if |ip| < 4 { return None; }
      var next := Read(4);
      if |next| < 4 { return None; }
      return Some(Env(Signed(FromWord(tm)), Signed(FromWord(tz)), FromWord(uid), FromWord(gid),
                      user.value, group.value, host.value, ip));
    }
  }

  // The offset of the first record, if the walk to it ends. The original has no test for a
  // trailer that holds its own position; it reads that one for ever.
  method FindFirst(fd: Reader) returns (first: Walk)
    ensures first == WalkBack(fd.file, Size32(fd.file))
  {
    hide ReadTrailer, Sub32, Add32, Size32;
    var ofs := Size32(fd.file);
    var next := fd.PRead(Sub32(ofs, 4), ofs);
    while next != 0
      invariant next == ReadTrailer(fd.file, Sub32(ofs, 4), ofs)
      invariant WalkBack(fd.file, Size32(fd.file)) == WalkBack(fd.file, ofs)
      decreases ofs
    {
      if next > ofs || Add32(next, 27) > ofs {
        return BadFile;
      }
      if next == ofs {
        return Endless;
      }
      ofs := next;
      next := fd.PRead(Sub32(ofs, 4), ofs);
    }
    NoTrailer(ofs);
    return First(ofs);
  }

  method DisplayLog(fd: Reader) returns (r: Shown)
    modifies fd
    ensures r == Display(fd.file)
  {
    hide WalkBack, Size32, Parse;
    var first := FindFirst(fd);
    match first
    case BadFile => return Returned(-1, []);
    case Endless => return Hangs;
    case First(ofs) =>
      fd.pos := ofs;
      var rc, shown := ReadRecords(fd);
      return Returned(rc, shown);
  }

  // The loop that reads records up to the end of the file or the first one cut off.
  method ReadRecords(fd: Reader) returns (rc: int, shown: seq<Env>)
    requires fd.Valid()
    modifies fd
    ensures (rc, shown) == Parse(old(fd.Left()))
  {
    hide ParseRecord, Take, Parse;
    shown := [];
    ghost var left := fd.Left();
    assert [] + Parse(left).1 == Parse(left).1;
    var tm := fd.Read(4);
    while |tm| == 4
      invariant fd.Valid() && |tm| <= 4 && Take(left, 4) == if |tm| < 4 then None else Some((tm, fd.Left()))
      invariant Parse(old(fd.Left())) == (Parse(left).0, shown + Parse(left).1)
      decreases |left|
    {
      TookFront(left, tm, fd.Left());
      ParseMore(left);
      var r := fd.ReadRest(tm);
      if r.None? {
        assert shown + [] == shown;
        return -1, shown;
      }
      assert shown + ([r.value] + Parse(fd.Left()).1) == shown + [r.value] + Parse(fd.Left()).1;
      shown := shown + [r.value];
      left := fd.Left();
      tm := fd.Read(4);
    }
    TookNothing(left);
    assert shown + [] == shown;
    return 0, shown;
  }

  lemma ParseMore(b: Octets)
    requires |b| >= 4
    ensures var r := ParseRecord(b);
      Parse(b) == if r.None? then (-1, []) else (Parse(r.value.2).0, [r.value.0] + Parse(r.value.2).1)
    ensures ParseRecord(b).Some? ==> |ParseRecord(b).value.2| < |b|
  {
    hide ParseRecord;
  }

  lemma TookFront(b: Octets, a: Octets, rest: Octets)
    requires Take(b, 4) == Some((a, rest))
    ensures b == a + rest && |b| >= 4
  {
  }

  lemma TookNothing(b: Octets)
    requires Take(b, 4) == None
    ensures Parse(b) == (0, [])
  {
  }
}
