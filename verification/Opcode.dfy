/** The run-time bit-field packer of lib/cmpsc311_opcode.c. Fields are laid out from the
    top bit down; a field is set and read with masks and shifts. */
module Opcode {
  import opened Common
  import opened Bits

  const BITWIDTH: nat := 64

  type uint8 = n: int | 0 <= n < 256

  datatype FieldDef = FieldDef(name: string, fieldId: uint8, startBit: uint8, width: uint8)

  type Fields = seq<FieldDef>

  // ---- The elemental shifts ----

  function ShiftIn(x: OpCode, val: OpCode, startBit: nat, width: nat): OpCode
    requires startBit < 64 && width < 64
  {
    var mask := Shl(Ones(width), startBit);
    Or(And(x, Not(mask)), And(Shl(val, startBit), mask))
  }

  function ShiftOut(x: OpCode, startBit: nat, width: nat): OpCode
    requires startBit < 64 && width < 64
  {
    And(Shr(x, startBit), Ones(width))
  }

  // val is at most the largest value of width bits.
  predicate Fits(val: OpCode, width: nat)
    requires width < 64
  {
    val <= Ones(width)
  }

  lemma ShiftInBit(x: OpCode, val: OpCode, startBit: nat, width: nat, i: nat)
    requires startBit < 64 && width < 64 && i < 64
    ensures Bit(ShiftIn(x, val, startBit, width), i)
       <==> if startBit <= i < startBit + width then Bit(val, i - startBit) else Bit(x, i)
  {
    hide Bit, And, Or, Not, Shl, Shr, Ones;
    var mask := Shl(Ones(width), startBit);
    BitOr(And(x, Not(mask)), And(Shl(val, startBit), mask), i);
    BitAnd(x, Not(mask), i);
    BitNot(mask, i);
    BitAnd(Shl(val, startBit), mask, i);
    BitShl(Ones(width), startBit, i);
    BitShl(val, startBit, i);
    if startBit <= i {
      BitOnes(width, i - startBit);
    }
  }

  lemma ShiftOutBit(x: OpCode, startBit: nat, width: nat, i: nat)
    requires startBit < 64 && width < 64 && i < 64
    ensures Bit(ShiftOut(x, startBit, width), i) <==> i < width && i + startBit < 64 && Bit(x, i + startBit)
  {
    hide Bit, And, Or, Not, Shl, Shr, Ones;
    BitAnd(Shr(x, startBit), Ones(width), i);
    BitShr(x, startBit, i);
    BitOnes(width, i);
  }

  // ---- The layout ----

  // The fields are stacked without gaps from the top bit down to bit low.
  ghost predicate Laid(fields: Fields, low: nat) {
    if fields == [] then low == BITWIDTH else
      var f := fields[|fields| - 1];
      f.startBit == low && low + f.width <= BITWIDTH && Laid(fields[..|fields| - 1], low + f.width)
  }

  ghost predicate Distinct(fields: Fields) {
    forall i, j | 0 <= i < j < |fields| :: fields[i].fieldId != fields[j].fieldId && fields[i].name != fields[j].name
  }

  // Where C defines the shifts by this field's start and width.
  predicate Shiftable(f: FieldDef) {
    f.startBit < 64 && f.width < 64
  }

  // Every field of one to sixty-three bits is one that C can shift by.
  lemma WidthsShiftable(fields: Fields, low: nat, k: nat)
    requires Laid(fields, low) && k < |fields| && 1 <= fields[k].width <= 63
    ensures Shiftable(fields[k])
  {
    LaidInside(fields, low, k);
  }

  lemma {:induction false} LaidInside(fields: Fields, low: nat, k: nat)
    requires Laid(fields, low) && k < |fields|
    ensures low <= fields[k].startBit && fields[k].startBit + fields[k].width <= BITWIDTH
  {
    var n := |fields| - 1;
    if k < n {
      LaidInside(fields[..n], low + fields[n].width, k);
    }
  }

  // Later fields lie below earlier ones, so no two overlap.
  lemma {:induction false} LaidApart(fields: Fields, low: nat, i: nat, j: nat)
    requires Laid(fields, low) && i < j < |fields|
    ensures fields[j].startBit + fields[j].width <= fields[i].startBit
  {
    var n := |fields| - 1;
    if j < n {
      LaidApart(fields[..n], low + fields[n].width, i, j);
    } else {
      LaidInside(fields[..n], low + fields[n].width, i);
    }
  }

  // Bit b belongs to field k.
  ghost predicate Owns(fields: Fields, k: int, b: nat) {
    0 <= k < |fields| && fields[k].startBit <= b < fields[k].startBit + fields[k].width
  }

  // The fields cover exactly the bits from low up.
  lemma {:induction false} LaidCovers(fields: Fields, low: nat, b: nat)
    requires Laid(fields, low) && b < BITWIDTH
    ensures (exists k :: Owns(fields, k, b)) <==> low <= b
  {
    if fields != [] {
      var n := |fields| - 1;
      LaidCovers(fields[..n], low + fields[n].width, b);
      if low + fields[n].width <= b {
        var k :| Owns(fields[..n], k, b);
        assert Owns(fields, k, b);
      }
      assert low <= b < low + fields[n].width ==> Owns(fields, n, b);
      forall k | Owns(fields, k, b)
        ensures low <= b
      {
        assert k < n ==> Owns(fields[..n], k, b);
      }
    }
  }

  // That is, it has no bit outside them.
  lemma FitsIs(val: OpCode, width: nat)
    requires width < 64
    ensures Fits(val, width) <==> forall i: nat | width <= i < 64 :: !Bit(val, i)
  {
    hide Bit, Ones;
    if Fits(val, width) {
      forall i: nat | width <= i < 64
        ensures !Bit(val, i)
      {
        FitsBelow(val, width, i);
      }
    } else if forall i: nat | width <= i < 64 :: !Bit(val, i) {
      forall i: nat | i < 64
        ensures Bit(And(val, Ones(width)), i) == Bit(val, i)
      {
        BitAnd(val, Ones(width), i);
        BitOnes(width, i);
      }
      SameBits(And(val, Ones(width)), val);
      AndBelow(val, Ones(width));
    }
  }

  // ---- Setting and getting, on values ----

  // The position of the field with this id.
  function FindField(fields: Fields, id: uint8): (r: Option<nat>)
    ensures r.Some? ==> r.value < |fields| && fields[r.value].fieldId == id
    ensures r.None? ==> forall k | 0 <= k < |fields| :: fields[k].fieldId != id
  {
    FindFrom(fields, id, 0)
  }

  function FindFrom(fields: Fields, id: uint8, i: nat): (r: Option<nat>)
    requires i <= |fields|
    ensures r.Some? ==> i <= r.value < |fields| && fields[r.value].fieldId == id
    ensures r.None? ==> forall k | i <= k < |fields| :: fields[k].fieldId != id
    decreases |fields| - i
  {
    if i == |fields| then None else if fields[i].fieldId == id then Some(i) else FindFrom(fields, id, i + 1)
  }

  // The shifts an access to id makes are defined.
  predicate Access(fields: Fields, id: uint8) {
    var k := FindField(fields, id);
    k.Some? ==> Shiftable(fields[k.value])
  }

  datatype Reply = Failed | Done | Value(val: OpCode)

  function SetField(fields: Fields, id: uint8, op: OpCode, val: OpCode): (OpCode, Reply)
    requires Access(fields, id)
  {
    var k := FindField(fields, id);
    if k.None? then (op, Failed)
    else
      var f := fields[k.value];
      if !Fits(val, f.width) then (op, Failed) else (ShiftIn(op, val, f.startBit, f.width), Done)
  }

  function GetField(fields: Fields, id: uint8, op: OpCode): Reply
    requires Access(fields, id)
  {
    var k := FindField(fields, id);
    if k.None? then Failed else Value(ShiftOut(op, fields[k.value].startBit, fields[k.value].width))
  }

  // A set is carried out exactly if there is a field of that id, the first of which has room for
  // all the bits of the value; a get exactly if there is a field of that id.
  lemma Answers(fields: Fields, id: uint8, op: OpCode, val: OpCode)
    requires Access(fields, id)
    ensures SetField(fields, id, op, val).1.Done? <==>
      exists k: nat :: IsFirst(fields, id, k) && HasRoom(fields[k], val)
    ensures !SetField(fields, id, op, val).1.Done? ==> SetField(fields, id, op, val) == (op, Failed)
    ensures GetField(fields, id, op).Value? <==> exists k: nat :: IsFirst(fields, id, k)
    ensures !GetField(fields, id, op).Value? ==> GetField(fields, id, op).Failed?
  {
    hide Fits, ShiftIn, ShiftOut, Bit, HasRoom;
    var found := FindField(fields, id);
    if found.Some? {
      FindsFirst(fields, id, 0);
      assert IsFirst(fields, id, found.value);
      FitsIsRoom(fields[found.value], val);
      forall k: nat | IsFirst(fields, id, k) ensures k == found.value {}
    }
  }

  // All bits of the value beyond the width of the field are zero.
  ghost predicate HasRoom(f: FieldDef, val: OpCode) {
    forall i: nat | f.width <= i < 64 :: !Bit(val, i)
  }

  lemma FitsIsRoom(f: FieldDef, val: OpCode)
    requires Shiftable(f)
    ensures Fits(val, f.width) <==> HasRoom(f, val)
  {
    FitsIs(val, f.width);
  }

  // Field k is the first of this id.
  ghost predicate IsFirst(fields: Fields, id: uint8, k: nat) {
    k < |fields| && fields[k].fieldId == id && forall j | 0 <= j < k :: fields[j].fieldId != id
  }

  lemma {:induction false} FindsFirst(fields: Fields, id: uint8, i: nat)
    requires i <= |fields| && FindFrom(fields, id, i).Some?
    ensures forall j | i <= j < FindFrom(fields, id, i).value :: fields[j].fieldId != id
    decreases |fields| - i
  {
    if fields[i].fieldId != id {
      FindsFirst(fields, id, i + 1);
    }
  }

  // A layout every field of which can be accessed.
  ghost predicate Usable(fields: Fields, low: nat) {
    Laid(fields, low) && Distinct(fields) && forall k | 0 <= k < |fields| :: Shiftable(fields[k])
  }

  ghost predicate FieldAt(fields: Fields, low: nat, id: uint8, k: nat) {
    Usable(fields, low) && FindField(fields, id) == Some(k)
  }

  // Reading back a value that fits gives that value.
  lemma OutOfIn(x: OpCode, val: OpCode, s: nat, w: nat)
    requires s < 64 && w < 64 && s + w <= 64 && Fits(val, w)
    ensures ShiftOut(ShiftIn(x, val, s, w), s, w) == val
  {
    hide Bit, ShiftIn, ShiftOut, Ones;
    var y := ShiftIn(x, val, s, w);
    forall i: nat | i < 64
      ensures Bit(ShiftOut(y, s, w), i) == Bit(val, i)
    {
      ShiftOutBit(y, s, w, i);
      if i < w {
        ShiftInBit(x, val, s, w, i + s);
      } else {
        FitsBelow(val, w, i);
      }
    }
    SameBits(ShiftOut(y, s, w), val);
  }

  // Setting a field leaves what is read from other bits as it was.
  lemma OutOfOther(x: OpCode, val: OpCode, s: nat, w: nat, s': nat, w': nat)
    requires s < 64 && w < 64 && s' < 64 && w' < 64 && s' + w' <= 64
    requires s + w <= s' || s' + w' <= s
    ensures ShiftOut(ShiftIn(x, val, s, w), s', w') == ShiftOut(x, s', w')
  {
    hide Bit, ShiftIn, ShiftOut;
    var y := ShiftIn(x, val, s, w);
    forall i: nat | i < 64
      ensures Bit(ShiftOut(y, s', w'), i) == Bit(ShiftOut(x, s', w'), i)
    {
      ShiftOutBit(y, s', w', i);
      ShiftOutBit(x, s', w', i);
      if i < w' {
        ShiftInBit(x, val, s, w, i + s');
      }
    }
    SameBits(ShiftOut(y, s', w'), ShiftOut(x, s', w'));
  }

  // ---- An opcode is a map from field ids to values ----

  function FieldValue(f: FieldDef, op: OpCode): OpCode
    requires Shiftable(f)
  {
    ShiftOut(op, f.startBit, f.width)
  }

  ghost function Values(fields: Fields, low: nat, op: OpCode): map<uint8, OpCode>
    requires Usable(fields, low)
  {
    map id: uint8 | FindField(fields, id).Some? :: FieldValue(fields[FindField(fields, id).value], op)
  }

  lemma ValuesAt(fields: Fields, low: nat, op: OpCode, id: uint8)
    requires Usable(fields, low)
    ensures var k := FindField(fields, id);
      if k.None? then id !in Values(fields, low, op)
      else id in Values(fields, low, op) && Values(fields, low, op)[id] == FieldValue(fields[k.value], op)
  {
  }

  datatype Call = Set(id: uint8, val: OpCode) | Get(id: uint8)

  // One call on the packed opcode, as the code does it.
  function Packed(fields: Fields, op: OpCode, c: Call): (OpCode, Reply)
    requires Access(fields, c.id)
  {
    if c.Set? then SetField(fields, c.id, op, c.val) else (op, GetField(fields, c.id, op))
  }

  // The same call on a map.
  ghost function Mapped(fields: Fields, m: map<uint8, OpCode>, c: Call): (map<uint8, OpCode>, Reply)
    requires Access(fields, c.id)
  {
    if c.id !in m || FindField(fields, c.id).None? then (m, Failed)
    else if c.Get? then (m, Value(m[c.id]))
    else if !Fits(c.val, fields[FindField(fields, c.id).value].width) then (m, Failed)
    else (m[c.id := c.val], Done)
  }

  // A set changes one entry of the map, and no bit below the layout.
  lemma SetIsUpdate(fields: Fields, low: nat, op: OpCode, val: OpCode, id: uint8, k: nat)
    requires FieldAt(fields, low, id, k) && Fits(val, fields[k].width)
    ensures var op' := ShiftIn(op, val, fields[k].startBit, fields[k].width);
      && Values(fields, low, op') == Values(fields, low, op)[id := val]
      && forall i: nat | i < low && i < 64 :: Bit(op', i) == Bit(op, i)
  {
    hide Bit, Ones, ShiftIn, ShiftOut;
    var f := fields[k];
    var op' := ShiftIn(op, val, f.startBit, f.width);
    LaidInside(fields, low, k);
    OutOfIn(op, val, f.startBit, f.width);
    forall id': uint8 | FindField(fields, id').Some? && id' != id
      ensures FieldValue(fields[FindField(fields, id').value], op')
           == FieldValue(fields[FindField(fields, id').value], op)
    {
      var j := FindField(fields, id').value;
      LaidInside(fields, low, j);
      if j < k {
        LaidApart(fields, low, j, k);
      } else {
        LaidApart(fields, low, k, j);
      }
      OutOfOther(op, val, f.startBit, f.width, fields[j].startBit, fields[j].width);
    }
    forall i: nat | i < low && i < 64
      ensures Bit(op', i) == Bit(op, i)
    {
      ShiftInBit(op, val, f.startBit, f.width, i);
    }
  }

  lemma StepSimulates(fields: Fields, low: nat, op: OpCode, c: Call)
    requires Usable(fields, low) && Access(fields, c.id)
    ensures var (op', r) := Packed(fields, op, c);
      && (Values(fields, low, op'), r) == Mapped(fields, Values(fields, low, op), c)
      && (r.Failed? || c.Get? ==> op' == op)
      && forall i: nat | i < low && i < 64 :: Bit(op', i) == Bit(op, i)
  {
    hide Bit, Fits, ShiftIn, ShiftOut, Values;
    ValuesAt(fields, low, op, c.id);
    var k := FindField(fields, c.id);
    if c.Set? && k.Some? && Fits(c.val, fields[k.value].width) {
      SetIsUpdate(fields, low, op, c.val, c.id, k.value);
    }
  }

  function RunPacked(fields: Fields, op: OpCode, calls: seq<Call>): (OpCode, seq<Reply>)
    requires forall c | c in calls :: Access(fields, c.id)
    decreases |calls|
  {
    if calls == [] then (op, []) else
      var (op1, r) := Packed(fields, op, calls[0]);
      var (op2, rs) := RunPacked(fields, op1, calls[1..]);
      (op2, [r] + rs)
  }

  ghost function RunMapped(fields: Fields, m: map<uint8, OpCode>, calls: seq<Call>): (map<uint8, OpCode>, seq<Reply>)
    requires forall c | c in calls :: Access(fields, c.id)
    decreases |calls|
  {
    if calls == [] then (m, []) else
      var (m1, r) := Mapped(fields, m, calls[0]);
      var (m2, rs) := RunMapped(fields, m1, calls[1..]);
      (m2, [r] + rs)
  }

  // Any sequence of sets and gets answers as the map does, and never touches a bit that no
  // field owns.
  lemma {:induction false} RunSimulates(fields: Fields, low: nat, op: OpCode, calls: seq<Call>)
    requires Usable(fields, low) && forall c | c in calls :: Access(fields, c.id)
    ensures var (op', rs) := RunPacked(fields, op, calls);
      && (Values(fields, low, op'), rs) == RunMapped(fields, Values(fields, low, op), calls)
      && forall i: nat | i < low && i < 64 :: Bit(op', i) == Bit(op, i)
    decreases |calls|
  {
    hide Bit, Packed, Mapped, Values;
    if calls != [] {
      StepSimulates(fields, low, op, calls[0]);
      RunSimulates(fields, low, Packed(fields, op, calls[0]).0, calls[1..]);
    }
  }

  // ---- A layout of all 64 bits loses nothing ----

  lemma SameValues(fields: Fields, x: OpCode, y: OpCode)
    requires Usable(fields, 0) && Values(fields, 0, x) == Values(fields, 0, y)
    ensures x == y
  {
    hide Bit, ShiftOut;
    forall b: nat | b < 64
      ensures Bit(x, b) == Bit(y, b)
    {
      LaidCovers(fields, 0, b);
      var k :| Owns(fields, k, b);
      var f := fields[k];
      OnlyOne(fields, k);
      assert Values(fields, 0, x)[f.fieldId] == Values(fields, 0, y)[f.fieldId];
      ShiftOutBit(x, f.startBit, f.width, b - f.startBit);
      ShiftOutBit(y, f.startBit, f.width, b - f.startBit);
    }
    SameBits(x, y);
  }

  lemma OnlyOne(fields: Fields, k: nat)
    requires Distinct(fields) && k < |fields|
    ensures FindField(fields, fields[k].fieldId) == Some(k)
  {
  }

  // Copying the fields of src named by ids into op, one set after another.
  function CopyFields(fields: Fields, ids: seq<uint8>, src: OpCode, op: OpCode): OpCode
    requires forall id | id in ids :: Access(fields, id)
  {
    if ids == [] then op else CopyFields(fields, ids[1..], src, CopyField(fields, ids[0], src, op))
  }

  function CopyField(fields: Fields, id: uint8, src: OpCode, op: OpCode): OpCode
    requires Access(fields, id)
  {
    var v := GetField(fields, id, src);
    if v.Value? then SetField(fields, id, op, v.val).0 else op
  }

  lemma {:induction false} CopiedValues(fields: Fields, low: nat, ids: seq<uint8>, src: OpCode, op: OpCode)
    requires Usable(fields, low) && forall id | id in ids :: Access(fields, id)
    ensures var v, w := Values(fields, low, op), Values(fields, low, src);
      var v' := Values(fields, low, CopyFields(fields, ids, src, op));
      v.Keys == v'.Keys == w.Keys && forall id | id in w :: v'[id] == if id in ids then w[id] else v[id]
  {
    hide Values, CopyField;
    SameKeys(fields, low, src, op);
    if ids != [] {
      CopyOne(fields, low, ids[0], src, op);
      CopiedValues(fields, low, ids[1..], src, CopyField(fields, ids[0], src, op));
    }
  }

  lemma SameKeys(fields: Fields, low: nat, x: OpCode, y: OpCode)
    requires Usable(fields, low)
    ensures Values(fields, low, x).Keys == Values(fields, low, y).Keys
  {
    hide FieldValue;
  }

  lemma CopyOne(fields: Fields, low: nat, id: uint8, src: OpCode, op: OpCode)
    requires Usable(fields, low) && Access(fields, id)
    ensures var v, w := Values(fields, low, op), Values(fields, low, src);
      Values(fields, low, CopyField(fields, id, src, op)) == if id in w then v[id := w[id]] else v
  {
    hide Bit, ShiftIn, ShiftOut, Fits, Values;
    ValuesAt(fields, low, src, id);
    var k := FindField(fields, id);
    if k.Some? {
      var f := fields[k.value];
      OutFits(src, f.startBit, f.width);
      SetIsUpdate(fields, low, op, ShiftOut(src, f.startBit, f.width), id, k.value);
    }
  }

  lemma OutFits(x: OpCode, startBit: nat, width: nat)
    requires startBit < 64 && width < 64
    ensures Fits(ShiftOut(x, startBit, width), width)
  {
    hide Shr, Ones, And;
    AndBelow(Shr(x, startBit), Ones(width));
  }

  // Reading every field of src and setting those values, in any order, into any opcode
  // rebuilds src.
  lemma Rebuild(fields: Fields, ids: seq<uint8>, src: OpCode, op: OpCode)
    requires Usable(fields, 0) && forall id | id in ids :: Access(fields, id)
    requires forall k | 0 <= k < |fields| :: fields[k].fieldId in ids
    ensures CopyFields(fields, ids, src, op) == src
  {
    CopiedValues(fields, 0, ids, src, op);
    assert Values(fields, 0, CopyFields(fields, ids, src, op)) == Values(fields, 0, src);
    SameValues(fields, CopyFields(fields, ids, src, op), src);
  }
}
