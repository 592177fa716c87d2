/** The opcode definition structure: fields are added one by one into a table of fixed size. */
module OpcodeDef {
  import opened Common
  import opened Bits
  import opened Opcode

  // Why add_opcode_field turns a field down.
  ghost predicate Rejects(fields: Fields, usedBits: nat, name: string, id: uint8, width: uint8) {
    || (exists k :: 0 <= k < |fields| && Clashes(fields[k], name, id))
    || usedBits + width > BITWIDTH
  }

  predicate Clashes(f: FieldDef, name: string, id: uint8) {
    f.name == name || f.fieldId == id
  }

  // A field extends a layout without duplicates exactly if its name and its id are new.
  lemma DistinctMore(fields: Fields, name: string, id: uint8, start: uint8, width: uint8)
    requires Distinct(fields)
    ensures Distinct(fields + [FieldDef(name, id, start, width)])
      <==> forall k | 0 <= k < |fields| :: !Clashes(fields[k], name, id)
  {
    var all := fields + [FieldDef(name, id, start, width)];
    assert forall k | 0 <= k < |fields| :: all[k] == fields[k];
    assert all[|fields|] == FieldDef(name, id, start, width);
  }

  lemma LaidMore(fields: Fields, low: nat, f: FieldDef)
    requires Laid(fields, low) && f.width <= low && f.startBit == low - f.width
    ensures Laid(fields + [f], low - f.width)
  {
    assert (fields + [f])[..|fields|] == fields;
  }

  class Definition {
    const opTitle: string
    var numFields: uint8
    var assignedFields: uint8
    var usedBits: uint8
    var fielddefs: array<FieldDef>

    ghost predicate Valid()
      reads this, fielddefs
    {
      && assignedFields <= numFields == fielddefs.Length
      && usedBits <= BITWIDTH
      && Laid(Assigned(), BITWIDTH - usedBits)
      && Distinct(Assigned())
    }

    ghost function Assigned(): Fields
      requires assignedFields <= fielddefs.Length
      reads this, fielddefs
    {
      fielddefs[..assignedFields]
    }

    constructor (name: string, nofields: uint8)
      ensures Valid() && fresh(fielddefs)
      ensures numFields == nofields && Assigned() == [] && usedBits == 0
    {
      opTitle := name;
      numFields, assignedFields, usedBits := nofields, 0, 0;
      fielddefs := new FieldDef[nofields](_ => FieldDef("", 0, 0, 0));
    }

    // The source writes past the table when a field is accepted into a full one.
    method AddField(name: string, id: uint8, width: uint8) returns (rc: int)
      requires Valid()
      requires assignedFields < numFields || Rejects(Assigned(), usedBits, name, id, width)
      modifies this, fielddefs
      ensures Valid() && fielddefs == old(fielddefs) && numFields == old(numFields)
      ensures rc == if old(Rejects(Assigned(), usedBits, name, id, width)) then -1 else 0
      ensures rc == 0 <==> old(Distinct(Assigned() + [FieldDef(name, id, 0, width)]) && usedBits + width <= 64)
      ensures rc == -1 ==> Assigned() == old(Assigned()) && usedBits == old(usedBits)
      ensures rc == 0 ==> usedBits == old(usedBits) + width
      ensures rc == 0 ==> Assigned() == old(Assigned()) + [FieldDef(name, id, BITWIDTH - usedBits, width)]
    {
      ghost var before := Assigned();
      hide Laid, Distinct;
      DistinctMore(before, name, id, 0, width);
      for i := 0 to assignedFields
        invariant forall k | 0 <= k < i :: !Clashes(before[k], name, id)
      {
        if fielddefs[i].name == name {
          assert Clashes(before[i], name, id);
          return -1;
        }
        if fielddefs[i].fieldId == id {
          assert Clashes(before[i], name, id);
          return -1;
        }
      }
      if usedBits + width > BITWIDTH {
        return -1;
      }
      fielddefs[assignedFields] := FieldDef(name, id, BITWIDTH - (usedBits + width), width);
      usedBits := usedBits + width;
      assignedFields := assignedFields + 1;
      assert Assigned() == before + [FieldDef(name, id, BITWIDTH - usedBits, width)];
      DistinctMore(before, name, id, BITWIDTH - usedBits, width);
      LaidMore(before, BITWIDTH - old(usedBits), FieldDef(name, id, BITWIDTH - usedBits, width));
      return 0;
    }

    method Set(id: uint8, op: OpCode, val: OpCode) returns (r: Reply, op': OpCode)
      requires Valid() && Access(Assigned(), id)
      ensures (op', r) == SetField(Assigned(), id, op, val)
    {
      var i := 0;
      while i < assignedFields
        invariant 0 <= i <= assignedFields && FindField(Assigned(), id) == FindFrom(Assigned(), id, i)
      {
        if fielddefs[i].fieldId == id {
          assert Assigned()[i] == fielddefs[i];
          if !Fits(val, fielddefs[i].width) {
            return Failed, op;
          }
          return Done, ShiftIn(op, val, fielddefs[i].startBit, fielddefs[i].width);
        }
        i := i + 1;
      }
      return Failed, op;
    }

    method Get(id: uint8, op: OpCode) returns (r: Reply)
      requires Valid() && Access(Assigned(), id)
      ensures r == GetField(Assigned(), id, op)
    {
      var i := 0;
      while i < assignedFields
        invariant 0 <= i <= assignedFields && FindField(Assigned(), id) == FindFrom(Assigned(), id, i)
      {
        if fielddefs[i].fieldId == id {
          assert Assigned()[i] == fielddefs[i];
          return Value(ShiftOut(op, fielddefs[i].startBit, fielddefs[i].width));
        }
        i := i + 1;
      }
      return Failed;
    }
  }

  // Layouts with fields of one to sixty-three bits can be accessed throughout.
  lemma NarrowUsable(fields: Fields, low: nat)
    requires Laid(fields, low) && Distinct(fields) && forall k | 0 <= k < |fields| :: 1 <= fields[k].width <= 63
    ensures Usable(fields, low)
  {
    hide Laid, Distinct;
    forall k | 0 <= k < |fields|
      ensures Shiftable(fields[k])
    {
      WidthsShiftable(fields, low, k);
    }
  }

  lemma TwoNames(first: uint8)
    requires 0 < first < 64
    ensures var f := FieldDef("high", 1, 64 - first, first);
      && [] + [FieldDef("high", 1, 0, first)] == [FieldDef("high", 1, 0, first)]
      && Distinct([] + [FieldDef("high", 1, 0, first)]) && Distinct([f] + [FieldDef("low", 2, 0, 64 - first)])
  {
    assert "high"[0] != "low"[0];
  }

  // A layout that fills the 64 bits: the second of two fields may take all that is left.
  method TwoFields(first: uint8) returns (def: Definition)
    requires 0 < first < 64
    ensures def.Valid() && def.usedBits == 64 && Usable(def.Assigned(), 0)
    ensures def.Assigned() == [FieldDef("high", 1, 64 - first, first), FieldDef("low", 2, 0, 64 - first)]
  {
    hide Laid, Distinct, Usable, Rejects;
    def := new Definition("full", 2);
    TwoNames(first);
    var rc := def.AddField("high", 1, first);
    assert def.Assigned() == [FieldDef("high", 1, 64 - first, first)];
    rc := def.AddField("low", 2, 64 - first);
    assert def.Assigned() == [FieldDef("high", 1, 64 - first, first), FieldDef("low", 2, 0, 64 - first)];
    NarrowUsable(def.Assigned(), 0);
  }
}
