/** Bit-level facts about 64-bit words and shifts by a variable amount. */
module Bits {
  import opened Bytes

  type OpCode = bv64

  // A bit number as the machine holds it.
  function Pos(i: nat): (p: bv8)
    requires i <= 64
    ensures i < 64 ==> p < 64
  {
    ByteNum(i);
    NumBelow(Byte(i));
    Byte(i)
  }

  function Shl(x: OpCode, s: nat): OpCode
    requires s < 64
  {
    RawShl(x, Pos(s))
  }

  function Shr(x: OpCode, s: nat): OpCode
    requires s < 64
  {
    RawShr(x, Pos(s))
  }

  function RawShl(x: OpCode, s: bv8): OpCode
    requires s < 64
  {
    x << s
  }

  function RawShr(x: OpCode, s: bv8): OpCode
    requires s < 64
  {
    x >> s
  }

  function And(x: OpCode, y: OpCode): OpCode {
    x & y
  }

  function Or(x: OpCode, y: OpCode): OpCode {
    x | y
  }

  function Not(x: OpCode): OpCode {
    !x
  }

  // All ones on a field of width w at the bottom of the word.
  function Ones(w: nat): OpCode
    requires w < 64
  {
    Dec(Shl(1, w))
  }

  function Dec(x: OpCode): OpCode {
    x - 1
  }

  predicate Bit(x: OpCode, i: nat)
    requires i < 64
  {
    RawBit(x, Pos(i))
  }

  predicate RawBit(x: OpCode, i: bv8)
    requires i < 64
  {
    (x >> i) & 1 == 1
  }

  // ---- Single steps, on the machine words ----

  lemma PosBound(i: nat)
    requires i < 64
    ensures Pos(i) < 64
  {
    hide Num;
    ByteNum(i);
    NumBelow(Byte(i));
  }

  lemma NumBelow(b: byte)
    ensures (Num(b) < 64 <==> b < 64) && (Num(b) == 63 <==> b == 63)
  {
  }

  lemma PosUp(i: nat)
    requires i < 63
    ensures Pos(i + 1) == Pos(i) + 1
  {
  }

  lemma PosEnds(i: nat)
    requires i < 64
    ensures (Pos(i) == 0 <==> i == 0) && (Pos(i) == 63 <==> i == 63)
  {
    hide Num;
    ByteNum(i);
    NumZero(Byte(i));
    NumBelow(Byte(i));
  }

  lemma ShlOneTo8(x: OpCode, s: bv8)
    requires s < 8
    ensures x << (s + 1) == (x << s) << 1
  {
  }

  lemma ShlOneTo16(x: OpCode, s: bv8)
    requires 8 <= s < 16
    ensures x << (s + 1) == (x << s) << 1
  {
  }

  lemma ShlOneTo32(x: OpCode, s: bv8)
    requires 16 <= s < 32
    ensures x << (s + 1) == (x << s) << 1
  {
  }

  lemma ShlOneTo63(x: OpCode, s: bv8)
    requires 32 <= s < 63
    ensures x << (s + 1) == (x << s) << 1
  {
  }

  lemma ShlOne(x: OpCode, s: bv8)
    requires s < 63
    ensures x << (s + 1) == (x << s) << 1
  {
    if s < 8 {
      ShlOneTo8(x, s);
    } else if s < 16 {
      ShlOneTo16(x, s);
    } else if s < 32 {
      ShlOneTo32(x, s);
    } else {
      ShlOneTo63(x, s);
    }
  }

  lemma ShrOneTo8(x: OpCode, s: bv8)
    requires s < 8
    ensures x >> (s + 1) == (x >> s) >> 1
  {
  }

  lemma ShrOneTo16(x: OpCode, s: bv8)
    requires 8 <= s < 16
    ensures x >> (s + 1) == (x >> s) >> 1
  {
  }

  lemma ShrOneTo32(x: OpCode, s: bv8)
    requires 16 <= s < 32
    ensures x >> (s + 1) == (x >> s) >> 1
  {
  }

  lemma ShrOneTo63(x: OpCode, s: bv8)
    requires 32 <= s < 63
    ensures x >> (s + 1) == (x >> s) >> 1
  {
  }

  lemma ShrOne(x: OpCode, s: bv8)
    requires s < 63
    ensures x >> (s + 1) == (x >> s) >> 1
  {
    if s < 8 {
      ShrOneTo8(x, s);
    } else if s < 16 {
      ShrOneTo16(x, s);
    } else if s < 32 {
      ShrOneTo32(x, s);
    } else {
      ShrOneTo63(x, s);
    }
  }

  lemma RawShlStep(x: OpCode, s: bv8)
    requires s < 63
    ensures RawShl(x, s + 1) == RawShl(RawShl(x, s), 1)
  {
    ShlOne(x, s);
  }

  lemma RawShrStep(x: OpCode, s: bv8)
    requires s < 63
    ensures RawShr(x, s + 1) == RawShr(RawShr(x, s), 1)
  {
    ShrOne(x, s);
  }

  lemma RawBitAnd(x: OpCode, y: OpCode, i: bv8)
    requires i < 64
    ensures RawBit(x & y, i) <==> RawBit(x, i) && RawBit(y, i)
  {
  }

  lemma RawBitOr(x: OpCode, y: OpCode, i: bv8)
    requires i < 64
    ensures RawBit(x | y, i) <==> RawBit(x, i) || RawBit(y, i)
  {
  }

  lemma RawBitNot(x: OpCode, i: bv8)
    requires i < 64
    ensures RawBit(!x, i) <==> !RawBit(x, i)
  {
  }

  lemma RawBitShl(x: OpCode, i: bv8)
    requires i < 64
    ensures RawBit(x << 1, i) <==> i > 0 && RawBit(x, i - 1)
  {
  }

  lemma RawBitShr(x: OpCode, i: bv8)
    requires i < 64
    ensures RawBit(x >> 1, i) <==> i < 63 && RawBit(x, i + 1)
  {
  }

  // ---- Single steps, by bit number ----

  lemma PosOne()
    ensures Pos(0) == 0 && Pos(1) == 1
  {
  }

  lemma ShiftStep(x: OpCode, s: nat)
    requires s < 63
    ensures Shl(x, s + 1) == Shl(Shl(x, s), 1)
    ensures Shr(x, s + 1) == Shr(Shr(x, s), 1)
  {
    hide Pos, RawShl, RawShr;
    PosOne();
    PosUp(s);
    PosBelow(s);
    RawShlStep(x, Pos(s));
    RawShrStep(x, Pos(s));
  }

  lemma PosBelow(s: nat)
    requires s < 63
    ensures Pos(s) < 63
  {
    PosBound(s);
    PosEnds(s);
  }

  lemma BitAnd(x: OpCode, y: OpCode, i: nat)
    requires i < 64
    ensures Bit(And(x, y), i) <==> Bit(x, i) && Bit(y, i)
  {
    hide Pos, RawBit;
    PosBound(i);
    RawBitAnd(x, y, Pos(i));
  }

  lemma BitOr(x: OpCode, y: OpCode, i: nat)
    requires i < 64
    ensures Bit(Or(x, y), i) <==> Bit(x, i) || Bit(y, i)
  {
    hide Pos, RawBit;
    PosBound(i);
    RawBitOr(x, y, Pos(i));
  }

  lemma BitNot(x: OpCode, i: nat)
    requires i < 64
    ensures Bit(Not(x), i) <==> !Bit(x, i)
  {
    hide Pos, RawBit;
    PosBound(i);
    RawBitNot(x, Pos(i));
  }

  lemma BitShl1(x: OpCode, i: nat)
    requires i < 64
    ensures Bit(Shl(x, 1), i) <==> i > 0 && Bit(x, i - 1)
  {
    hide Pos, RawBit;
    PosOne();
    PosBound(i);
    PosEnds(i);
    if i > 0 {
      PosUp(i - 1);
    }
    RawBitShl(x, Pos(i));
  }

  lemma BitShr1(x: OpCode, i: nat)
    requires i < 64
    ensures Bit(Shr(x, 1), i) <==> i < 63 && Bit(x, i + 1)
  {
    hide Pos, RawBit;
    PosOne();
    PosBound(i);
    PosEnds(i);
    if i < 63 {
      PosUp(i);
    }
    RawBitShr(x, Pos(i));
  }

  lemma Shift0(x: OpCode)
    ensures Shl(x, 0) == x == Shr(x, 0)
  {
    PosOne();
  }

  lemma BitEnds(x: OpCode)
    ensures Shr(x, 63) == if Bit(x, 63) then 1 else 0
    ensures forall i: nat | i < 64 :: !Bit(0, i)
    ensures Bit(1, 0) && forall i: nat | 0 < i < 64 :: !Bit(1, i)
  {
    TopBit(x);
    forall i: nat | i < 64
      ensures !Bit(0, i) && (Bit(1, i) <==> i == 0)
    {
      PosBound(i);
      PosEnds(i);
      RawBitsOfOne(Pos(i));
    }
  }

  lemma TopBit(x: OpCode)
    ensures Shr(x, 63) == if Bit(x, 63) then 1 else 0
  {
    PosEnds(63);
  }

  lemma RawBitsOfOne(i: bv8)
    requires i < 64
    ensures !RawBit(0, i) && (RawBit(1, i) <==> i == 0)
  {
  }

  // ---- Shifts, masks and equality, bit by bit ----

  lemma {:induction false} BitShl(x: OpCode, s: nat, i: nat)
    requires s < 64 && i < 64
    ensures Bit(Shl(x, s), i) <==> s <= i && Bit(x, i - s)
  {
    hide Bit, Shl, Shr;
    if s == 0 {
      Shift0(x);
    } else {
      ShiftStep(x, s - 1);
      BitShl1(Shl(x, s - 1), i);
      if i > 0 {
        BitShl(x, s - 1, i - 1);
      }
    }
  }

  lemma {:induction false} BitShr(x: OpCode, s: nat, i: nat)
    requires s < 64 && i < 64
    ensures Bit(Shr(x, s), i) <==> i + s < 64 && Bit(x, i + s)
  {
    hide Bit, Shl, Shr;
    if s == 0 {
      Shift0(x);
    } else {
      ShiftStep(x, s - 1);
      BitShr1(Shr(x, s - 1), i);
      if i < 63 {
        BitShr(x, s - 1, i + 1);
      }
    }
  }

  lemma OnesStep(w: nat)
    requires w < 63
    ensures Ones(w + 1) == Or(Shl(Ones(w), 1), 1)
  {
    hide Shl, Shr, Or, Dec;
    ShiftStep(1, w);
    OnesDouble(Shl(1, w));
  }

  lemma OnesDouble(a: OpCode)
    ensures Dec(Shl(a, 1)) == Or(Shl(Dec(a), 1), 1)
  {
    PosOne();
  }

  lemma OnesNone()
    ensures Ones(0) == 0
  {
    hide Shl, Shr;
    Shift0(1);
  }

  lemma {:induction false} BitOnes(w: nat, i: nat)
    requires w < 64 && i < 64
    ensures Bit(Ones(w), i) <==> i < w
  {
    hide Bit, Shl, Shr, Or, Ones;
    BitEnds(0);
    if w == 0 {
      OnesNone();
    } else {
      OnesStep(w - 1);
      BitOr(Shl(Ones(w - 1), 1), 1, i);
      BitShl1(Ones(w - 1), i);
      if i > 0 {
        BitOnes(w - 1, i - 1);
      }
    }
  }

  predicate AtMost(v: OpCode, m: OpCode) {
    v <= m
  }

  // A value no larger than the mask has no bits above it.
  lemma {:induction false} FitsBelow(v: OpCode, w: nat, i: nat)
    requires w <= i < 64 && AtMost(v, Ones(w))
    ensures !Bit(v, i)
    decreases w
  {
    hide Bit, Shl, Shr, Or, Ones, AtMost;
    if w == 0 {
      OnesNone();
      ZeroLeast(v);
      BitEnds(0);
    } else {
      HalfFits(v, w - 1);
      FitsBelow(Shr(v, 1), w - 1, i - 1);
      BitShr1(v, i - 1);
    }
  }

  lemma HalfFits(v: OpCode, w: nat)
    requires w < 63 && AtMost(v, Ones(w + 1))
    ensures AtMost(Shr(v, 1), Ones(w))
  {
    hide Shl, Shr, Or, Ones, AtMost;
    OnesStep(w);
    HalveOr(v, Ones(w));
  }

  lemma ZeroLeast(v: OpCode)
    requires AtMost(v, 0)
    ensures v == 0
  {
  }

  lemma HalveOr(v: OpCode, m: OpCode)
    requires AtMost(v, Or(Shl(m, 1), 1))
    ensures AtMost(Shr(v, 1), m)
  {
    PosOne();
  }

  // Words with the same bits are equal.
  lemma SameBits(x: OpCode, y: OpCode)
    requires forall i: nat | i < 64 :: Bit(x, i) == Bit(y, i)
    ensures x == y
  {
    hide Bit, Shr;
    BitEnds(x);
    BitEnds(y);
    assert Bit(x, 63) == Bit(y, 63);
    SameDown(x, y, 63);
    Shift0(x);
    Shift0(y);
  }

  lemma {:induction false} SameDown(x: OpCode, y: OpCode, s: nat)
    requires s < 64 && Shr(x, s) == Shr(y, s)
    requires forall i: nat | i < 64 :: Bit(x, i) == Bit(y, i)
    ensures Shr(x, 0) == Shr(y, 0)
  {
    hide Bit, Shr;
    if s > 0 {
      ShiftStep(x, s - 1);
      ShiftStep(y, s - 1);
      BitShr(x, s - 1, 0);
      BitShr(y, s - 1, 0);
      assert Bit(x, s - 1) == Bit(y, s - 1);
      FromHalf(Shr(x, s - 1), Shr(y, s - 1));
      SameDown(x, y, s - 1);
    }
  }

  lemma FromHalf(x: OpCode, y: OpCode)
    requires Shr(x, 1) == Shr(y, 1) && Bit(x, 0) == Bit(y, 0)
    ensures x == y
  {
    PosOne();
  }

  lemma AndBelow(x: OpCode, y: OpCode)
    ensures And(x, y) <= y
  {
  }
}
