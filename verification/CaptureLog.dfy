/** The whole log: what any number of captures append to a file, and what the display
    reads back from it. */
module CaptureLog {
  import opened Common
  import opened Bytes
  import opened CaptureFormat

  // ---- Appending ----

  function Append(file: Octets, e: Env): Octets {
    file + Record(e, |file| % U32)
  }

  function AppendAll(file: Octets, envs: seq<Env>): Octets {
    if envs == [] then file else Append(AppendAll(file, envs[..|envs| - 1]), envs[|envs| - 1])
  }

  // ---- The walk back over the trailers ----

  // pread of four bytes into n at the 32-bit offset pos, then the byte swap: what lies past
  // the end of the file leaves the bytes of n as they were.
  function ReadTrailer(file: Octets, pos: uint32, n: uint32): uint32 {
    var got := if pos >= |file| then [] else if pos + 4 <= |file| then file[pos..pos + 4] else file[pos..];
    FromWord(got + Memory(n)[|got|..])
  }

  predicate BadTrailer(next: uint32, ofs: uint32) {
    next != 0 && (next > ofs || Add32(next, 27) > ofs)
  }

  // Where the walk from ofs ends. The sum with 27 wraps on trailers near 2^32, so that one
  // that holds its own position passes the check, and is then read for ever.
  datatype Walk = First(ofs: uint32) | BadFile | Endless

  function WalkBack(file: Octets, ofs: uint32): (r: Walk)
    ensures r.First? ==> r.ofs <= ofs
    decreases ofs
  {
    var next := ReadTrailer(file, Sub32(ofs, 4), ofs);
    if BadTrailer(next, ofs) then BadFile
    else if next == 0 then First(ofs)
    else if next == ofs then Endless
    else WalkBack(file, next)
  }

  // ---- The parse forward ----

  // The return code and the records logged before it.
  function Parse(b: Octets): (int, seq<Env>)
    decreases |b|
  {
    if |b| < 4 then (0, []) else
      var r := ParseRecord(b);
      if r.None? then (-1, []) else
        var (rc, es) := Parse(r.value.2);
        (rc, [r.value.0] + es)
  }

  datatype Shown = Returned(rc: int, envs: seq<Env>) | Hangs

  // The size of the file is taken as a 32-bit offset.
  function Size32(file: Octets): (n: uint32)
    ensures n <= |file| && (|file| < U32 ==> n == |file|)
  {
    |file| % U32
  }

  function Display(file: Octets): Shown {
    match WalkBack(file, Size32(file))
    case First(ofs) => var (rc, envs) := Parse(file[ofs..]); Returned(rc, envs)
    case BadFile => Returned(-1, [])
    case Endless => Hangs
  }

  predicate EndsInZeros(file: Octets) {
    |file| >= 4 && file[|file| - 4..] == ZERO_WORD
  }

  lemma AppendAllFront(file: Octets, envs: seq<Env>)
    ensures |AppendAll(file, envs)| >= |file| + 27 * |envs|
    ensures AppendAll(file, envs)[..|file|] == file
  {
    if envs != [] {
      var n := |envs| - 1;
      var front := AppendAll(file, envs[..n]);
      AppendAllFront(file, envs[..n]);
      RecordShape(envs[n], |front| % U32);
      assert AppendAll(file, envs)[..|file|] == front[..|file|];
    }
  }

  // Above the first four bytes the trailer read is the word before ofs.
  lemma TrailerInside(file: Octets, ofs: uint32)
    requires 4 <= ofs <= |file|
    ensures ReadTrailer(file, Sub32(ofs, 4), ofs) == FromWord(file[ofs - 4..ofs])
  {
    assert Sub32(ofs, 4) == ofs - 4;
    assert file[ofs - 4..ofs] + Memory(ofs)[4..] == file[ofs - 4..ofs];
  }

  // Below them the position wraps to the end of the largest files. Where the file is shorter
  // nothing is read, and the offset itself is byte-swapped.
  predicate WrapsToZeros(file: Octets, ofs: uint32)
    requires ofs < 4
  {
    && (ofs == 0 || U32 - 4 + ofs < |file|)
    && forall i :: U32 - 4 + ofs <= i < |file| ==> file[i] == 0
  }

  lemma TrailerOutside(file: Octets, ofs: uint32)
    requires ofs < 4 && |file| <= U32 - 4 + ofs
    ensures ReadTrailer(file, Sub32(ofs, 4), ofs) == ofs * 0x100_0000
  {
    hide Byte, Num;
    assert Sub32(ofs, 4) == U32 + ofs - 4;
    ByteNum(ofs);
    ByteNum(0);
    assert [] + Memory(ofs)[0..] == Memory(ofs);
  }

  lemma TrailerWrapped(file: Octets, ofs: uint32)
    requires ofs < 4 && U32 - 4 + ofs < |file| < U32
    ensures ReadTrailer(file, Sub32(ofs, 4), ofs) == 0 <==> WrapsToZeros(file, ofs)
  {
    hide Byte, Num, FromWord, Memory;
    var pos := U32 - 4 + ofs;
    assert Sub32(ofs, 4) == pos;
    var n := |file| - pos;
    var b := file[pos..] + Memory(ofs)[n..];
    SmallMemory(ofs);
    ZeroWord(b);
    assert forall i :: 0 <= i < n ==> b[i] == file[pos + i];
    assert forall i :: n <= i < 4 ==> b[i] == Memory(ofs)[i] == 0;
    if WrapsToZeros(file, ofs) {
      assert b == ZERO_WORD;
    } else if b == ZERO_WORD {
      forall i | pos <= i < |file| ensures file[i] == 0 {
        assert b[i - pos] == 0;
      }
    }
  }

  lemma SmallMemory(n: uint32)
    requires n < 4
    ensures Memory(n)[1] == Memory(n)[2] == Memory(n)[3] == 0
  {
    ByteNum(0);
  }

  // Where the walk stops at once: behind four zero bytes, or where the wrapped read finds them.
  predicate ZerosBefore(file: Octets, ofs: uint32)
    requires ofs <= |file|
  {
    if ofs >= 4 then file[ofs - 4..ofs] == ZERO_WORD else WrapsToZeros(file, ofs)
  }

  lemma TrailerZero(file: Octets, ofs: uint32)
    requires ofs <= |file| < U32
    ensures ReadTrailer(file, Sub32(ofs, 4), ofs) == 0 <==> ZerosBefore(file, ofs)
  {
    hide ReadTrailer, Sub32, FromWord;
    if ofs >= 4 {
      TrailerInside(file, ofs);
      ZeroWord(file[ofs - 4..ofs]);
    } else if |file| <= U32 - 4 + ofs {
      TrailerOutside(file, ofs);
    } else {
      TrailerWrapped(file, ofs);
    }
  }

  // The walk stays where it is exactly where it finds zeros.
  lemma StopsAtOnce(file: Octets, ofs: uint32)
    requires ofs <= |file| < U32
    ensures WalkBack(file, ofs) == First(ofs) <==> ZerosBefore(file, ofs)
  {
    hide ReadTrailer, Sub32, ZerosBefore;
    TrailerZero(file, ofs);
  }

  lemma NoTrailer(ofs: uint32)
    ensures !BadTrailer(0, ofs)
  {
  }

  // The walk can run for ever only from an offset so near to 2^32 that 27 more wrap.
  lemma {:induction false} EndlessNear(file: Octets, ofs: uint32)
    requires WalkBack(file, ofs).Endless?
    ensures ofs >= U32 - 27
    decreases ofs
  {
    hide ReadTrailer, Sub32;
    var next := ReadTrailer(file, Sub32(ofs, 4), ofs);
    if next != ofs {
      EndlessNear(file, next);
    }
  }

  // It does on a file of that size that ends in its own length.
  lemma DisplayHangs(file: Octets)
    requires U32 - 27 <= |file| < U32 && file[|file| - 4..] == Word(|file|)
    ensures Display(file) == Hangs
  {
    hide ReadTrailer, Sub32, Word, FromWord;
    TrailerInside(file, |file|);
    WordRoundTrip(|file|);
    assert file[|file| - 4..|file|] == Word(|file|);
  }

  // The trailer of the last of the appended records is where that record began.
  lemma LastTrailer(front: Octets, e: Env, file: Octets)
    requires |Append(front, e)| < U32 && Append(front, e) <= file
    ensures var ofs := |Append(front, e)|;
      |front| + 27 <= ofs && ReadTrailer(file, Sub32(ofs, 4), ofs) == |front|
  {
    hide ReadTrailer, Record, Word, FromWord, Sub32;
    var all := Append(front, e);
    RecordShape(e, |front|);
    TrailerInside(file, |all|);
    assert file[|all| - 4..|all|] == all[|all| - 4..] == Word(|front|);
    WordRoundTrip(|front|);
  }

  // From the end of records appended to a file that was not empty, the walk steps over them.
  lemma {:induction false} WalkStops(base: Octets, envs: seq<Env>, file: Octets)
    requires base != [] && AppendAll(base, envs) <= file && |file| < U32
    ensures |base| <= |AppendAll(base, envs)|
    ensures WalkBack(file, |AppendAll(base, envs)|) == WalkBack(file, |base|)
    decreases |envs|
  {
    AppendAllFront(base, envs);
    if envs != [] {
      hide ReadTrailer, WalkBack, Sub32, Append;
      var n := |envs| - 1;
      var front := AppendAll(base, envs[..n]);
      AppendAllFront(base, envs[..n]);
      FrontOf(front, envs[n]);
      LastTrailer(front, envs[n], file);
      StepOver(file, |AppendAll(base, envs)|, |front|);
      WalkStops(base, envs[..n], file);
    }
  }

  lemma StepOver(file: Octets, ofs: uint32, next: uint32)
    requires next == ReadTrailer(file, Sub32(ofs, 4), ofs) && 0 < next && next + 27 <= ofs
    ensures WalkBack(file, ofs) == WalkBack(file, next)
  {
    hide ReadTrailer, Sub32;
  }

  lemma FrontOf(front: Octets, e: Env)
    ensures front <= Append(front, e)
  {
  }

  // For any file and any records appended to it, the walk back from the end stops at the
  // first of them exactly when the file ended in four zero bytes. A file of one to three
  // bytes had room for fewer; the read before it then wraps to the end of the log.
  lemma WalkFindsFirst(base: Octets, envs: seq<Env>)
    requires |AppendAll(base, envs)| < U32
    ensures |base| <= |AppendAll(base, envs)|
    ensures var file := AppendAll(base, envs);
      WalkBack(file, |file|) == First(|base|) <==>
        if |base| >= 4 then EndsInZeros(base) else if base == [] then envs == [] else WrapsToZeros(file, |base|)
  {
    hide WalkBack, Append;
    var file := AppendAll(base, envs);
    AppendAllFront(base, envs);
    if base != [] {
      WalkStops(base, envs, file);
      StopsAtOnce(file, |base|);
      assert |base| >= 4 ==> file[|base| - 4..|base|] == base[|base| - 4..];
    } else if envs == [] {
      StopsAtOnce(base, 0);
    } else {
      FirstIsLost(envs);
    }
  }

  // On a file that was empty the walk stops behind the first record.
  lemma FirstIsLost(envs: seq<Env>)
    requires envs != [] && |AppendAll([], envs)| < U32
    ensures var file, first := AppendAll([], envs), Append([], envs[0]);
      27 <= |first| <= |file| && WalkBack(file, |file|) == First(|first|)
  {
    hide WalkBack, Append;
    var file, first := AppendAll([], envs), Append([], envs[0]);
    AppendAllCons([], envs);
    AppendAllFront(first, envs[1..]);
    FirstRecordEndsInZeros(envs[0]);
    WalkStops(first, envs[1..], file);
    StopsAtOnce(file, |first|);
    assert file[|first| - 4..|first|] == first[|first| - 4..];
  }

  lemma {:induction false} AppendAllCons(base: Octets, envs: seq<Env>)
    requires envs != []
    ensures AppendAll(base, envs) == AppendAll(Append(base, envs[0]), envs[1..])
  {
    hide Append;
    var n := |envs| - 1;
    if n > 0 {
      AppendAllCons(base, envs[..n]);
      assert envs[..n][1..] == envs[1..][..n - 1];
    } else {
      assert envs[..0] == [];
    }
  }

  lemma FirstRecordEndsInZeros(e: Env)
    ensures EndsInZeros(Append([], e)) && |Append([], e)| >= 27
  {
    RecordShape(e, 0);
    assert Append([], e) == Record(e, 0);
    ByteNum(0);
  }

  function StoredAll(envs: seq<Env>): seq<Env> {
    seq(|envs|, i requires 0 <= i < |envs| => Stored(envs[i]))
  }

  lemma ParseStep(e: Env, ofs: uint32, tail: Octets)
    ensures Parse(Record(e, ofs) + tail) == (Parse(tail).0, [Stored(e)] + Parse(tail).1)
  {
    hide Record, Stored, ParseRecord;
    ParseRecordFront(e, ofs, tail);
    RecordShape(e, ofs);
  }

  lemma {:induction false} ParseAppended(base: Octets, envs: seq<Env>)
    ensures |base| <= |AppendAll(base, envs)|
    ensures Parse(AppendAll(base, envs)[|base|..]) == (0, StoredAll(envs))
    decreases |envs|
  {
    hide Parse, Record, Stored, AppendAll;
    AppendAllFront(base, envs);
    if envs == [] {
      ParseNothing(base);
    } else {
      var file, next, r := AppendAll(base, envs), Append(base, envs[0]), Record(envs[0], |base| % U32);
      AppendAllCons(base, envs);
      AppendAllFront(next, envs[1..]);
      ParseAppended(next, envs[1..]);
      assert next == base + r;
      Tails(base, r, file);
      ParseStep(envs[0], |base| % U32, file[|next|..]);
      assert StoredAll(envs) == [Stored(envs[0])] + StoredAll(envs[1..]);
    }
  }

  lemma ParseNothing(base: Octets)
    ensures AppendAll(base, []) == base && Parse(base[|base|..]) == (0, StoredAll([]))
  {
    assert base[|base|..] == [] && StoredAll([]) == [];
  }

  lemma Tails(a: Octets, b: Octets, file: Octets)
    requires |a + b| <= |file| && file[..|a + b|] == a + b
    ensures file[|a|..] == b + file[|a + b|..]
  {
    assert file == a + b + file[|a + b|..];
  }

  // The display returns exactly the records appended, in order, byte order and mask undone.
  lemma DisplayReturnsAll(base: Octets, envs: seq<Env>)
    requires EndsInZeros(base) && |AppendAll(base, envs)| < U32
    ensures Display(AppendAll(base, envs)) == Returned(0, StoredAll(envs))
  {
    hide WalkBack, Parse, AppendAll;
    WalkFindsFirst(base, envs);
    ParseAppended(base, envs);
  }

  // On a log started from an empty file the first record is never shown.
  lemma DisplaySkipsFirst(envs: seq<Env>)
    requires envs != [] && |AppendAll([], envs)| < U32
    ensures Display(AppendAll([], envs)) == Returned(0, StoredAll(envs[1..]))
  {
    hide WalkBack, Parse, AppendAll, Append;
    FirstIsLost(envs);
    AppendAllCons([], envs);
    ParseAppended(Append([], envs[0]), envs[1..]);
  }

  // ---- Records cut off ----

  lemma TakeMore(b: Octets, n: nat, x: Octets)
    requires Take(b, n).Some?
    ensures Take(b + x, n) == Some((Take(b, n).value.0, Take(b, n).value.1 + x))
  {
    assert (b + x)[..n] == b[..n] && (b + x)[n..] == b[n..] + x;
  }

  lemma TakeNameMore(b: Octets, x: Octets)
    requires TakeName(b).Some?
    ensures TakeName(b + x) == Some((TakeName(b).value.0, TakeName(b).value.1 + x))
  {
    hide Num, Mask;
    assert (b + x)[1..] == b[1..] + x;
    TakeMore(b[1..], Num(b[0]), x);
  }

  // What follows a record does not change how it is parsed.
  lemma ParseRecordMore(b: Octets, x: Octets)
    requires ParseRecord(b).Some?
    ensures ParseRecord(b + x).Some? && ParseRecord(b + x).value.2 == ParseRecord(b).value.2 + x
  {
    hide Take, TakeName, FromWord, Signed;
    var b1 := Take(b, 4).value.1;
    var b2 := Take(b1, 4).value.1;
    var b3 := Take(b2, 4).value.1;
    var b4 := Take(b3, 4).value.1;
    var b5 := TakeName(b4).value.1;
    var b6 := TakeName(b5).value.1;
    var b7 := TakeName(b6).value.1;
    var b8 := Take(b7, 4).value.1;
    TakeMore(b, 4, x);
    TakeMore(b1, 4, x);
    TakeMore(b2, 4, x);
    TakeMore(b3, 4, x);
    TakeNameMore(b4, x);
    TakeNameMore(b5, x);
    TakeNameMore(b6, x);
    TakeMore(b7, 4, x);
    TakeMore(b8, 4, x);
  }

  // A log whose last record is cut off, behind its time at the earliest, ends in an error.
  lemma CutRecord(e: Env, ofs: uint32, n: nat)
    requires 4 <= n < |Record(e, ofs)|
    ensures Parse(Record(e, ofs)[..n]) == (-1, [])
  {
    hide Record, ParseRecord;
    var b, x := Record(e, ofs)[..n], Record(e, ofs)[n..];
    assert b + x == Record(e, ofs) == Record(e, ofs) + [];
    assert |x| > 0;
    ParseRecordFront(e, ofs, []);
    if ParseRecord(b).Some? {
      ParseRecordMore(b, x);
    }
  }

  // ---- Bad files ----

  // The trailer read at offset ofs.
  function TrailerAt(file: Octets, ofs: uint32): uint32 {
    ReadTrailer(file, Sub32(ofs, 4), ofs)
  }

  // The offsets a walk passes: each is the trailer before the next, at least 27 bytes back.
  ghost predicate Path(file: Octets, path: seq<uint32>) {
    && path != []
    && forall i :: 0 <= i < |path| - 1 ==> StepsTo(file, path[i], path[i + 1])
  }

  predicate StepsTo(file: Octets, ofs: uint32, next: uint32) {
    next == TrailerAt(file, ofs) && 0 < next && next + 27 <= ofs
  }

  // The trailer at ofs is not zero and less than 27 bytes back.
  predicate Stumbles(file: Octets, ofs: uint32) {
    TrailerAt(file, ofs) != 0 && TrailerAt(file, ofs) + 27 > ofs
  }

  ghost predicate MeetsBad(file: Octets, ofs: uint32) {
    exists path :: path != [] && Path(file, path) && path[0] == ofs && Stumbles(file, path[|path| - 1])
  }

  // One step of the walk where no sum wraps.
  lemma WalkStep(file: Octets, ofs: uint32)
    requires ofs < U32 - 27
    ensures WalkBack(file, ofs) ==
      if TrailerAt(file, ofs) == 0 then First(ofs)
      else if Stumbles(file, ofs) then BadFile else WalkBack(file, TrailerAt(file, ofs))
  {
    hide ReadTrailer, Sub32;
  }

  lemma {:induction false} BadIsMet(file: Octets, ofs: uint32)
    requires ofs < U32 - 27 && WalkBack(file, ofs).BadFile?
    ensures MeetsBad(file, ofs)
    decreases ofs
  {
    hide WalkBack, TrailerAt;
    WalkStep(file, ofs);
    if Stumbles(file, ofs) {
      assert Path(file, [ofs]);
    } else {
      var next := TrailerAt(file, ofs);
      BadIsMet(file, next);
      var path :| path != [] && Path(file, path) && path[0] == next && Stumbles(file, path[|path| - 1]);
      var longer := [ofs] + path;
      forall i | 0 <= i < |longer| - 1
        ensures StepsTo(file, longer[i], longer[i + 1])
      {
        assert i > 0 ==> longer[i] == path[i - 1] && longer[i + 1] == path[i];
      }
      assert longer[|longer| - 1] == path[|path| - 1];
      assert Path(file, longer);
    }
  }

  lemma {:induction false} MetIsBad(file: Octets, path: seq<uint32>)
    requires Path(file, path) && path[0] < U32 - 27 && Stumbles(file, path[|path| - 1])
    ensures WalkBack(file, path[0]).BadFile?
    decreases |path|
  {
    hide WalkBack, TrailerAt;
    WalkStep(file, path[0]);
    if |path| > 1 {
      var rest := path[1..];
      assert StepsTo(file, path[0], path[1]);
      forall i | 0 <= i < |rest| - 1
        ensures StepsTo(file, rest[i], rest[i + 1])
      {
        assert rest[i] == path[i + 1] && rest[i + 1] == path[i + 2];
        assert StepsTo(file, path[i + 1], path[i + 1 + 1]);
      }
      MetIsBad(file, rest);
    }
  }

  // The display gives up, with -1 and nothing shown, exactly on the files on which the walk
  // meets a trailer that is not zero and less than 27 bytes back.
  lemma BadFiles(file: Octets)
    requires |file| < U32 - 27
    ensures WalkBack(file, |file|).BadFile? <==> MeetsBad(file, |file|)
    ensures MeetsBad(file, |file|) ==> Display(file) == Returned(-1, [])
  {
    hide WalkBack, Path, Stumbles, Parse;
    if WalkBack(file, |file|).BadFile? {
      BadIsMet(file, |file|);
    }
    if MeetsBad(file, |file|) {
      var path :| path != [] && Path(file, path) && path[0] == |file| && Stumbles(file, path[|path| - 1]);
      MetIsBad(file, path);
    }
  }
}
