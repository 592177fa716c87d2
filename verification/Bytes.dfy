// Bytes and the numbers they stand for.
module Bytes {
  import opened Common

  type byte = bv8
  type Octets = seq<byte>

  // The value of a byte, bit by bit.
  function Num(b: byte): (n: nat)
    ensures n < 256
  {
    Weight(b, 0x80, 128) + Weight(b, 0x40, 64) + Weight(b, 0x20, 32) + Weight(b, 0x10, 16)
    + Weight(b, 0x08, 8) + Weight(b, 0x04, 4) + Weight(b, 0x02, 2) + Weight(b, 0x01, 1)
  }

  function Weight(b: byte, mask: byte, w: nat): (n: nat)
    ensures n == 0 || n == w
  {
    if b & mask == 0 then 0 else w
  }

  // The byte of a value, by counting up to it.
  function Byte(n: nat): byte
    requires n < 256
  {
    if n == 0 then 0 else Byte(n - 1) + 1
  }

  lemma NumUp(b: byte)
    requires b < 255
    ensures Num(b + 1) == Num(b) + 1
  {
  }

  lemma NumEnds(b: byte)
    ensures (Num(b) == 0 <==> b == 0) && (Num(b) == 255 <==> b == 255)
  {
  }

  lemma {:induction false} ByteNum(n: nat)
    requires n < 256
    ensures Num(Byte(n)) == n
  {
    hide Num;
    NumEnds(0);
    if n > 0 {
      ByteNum(n - 1);
      NumEnds(Byte(n - 1));
      NumUp(Byte(n - 1));
    }
  }

  lemma {:induction false} NumByte(b: byte)
    ensures Byte(Num(b)) == b
    decreases Num(b)
  {
    hide Num;
    NumEnds(b);
    if b > 0 {
      NumUp(b - 1);
      NumByte(b - 1);
    }
  }

  lemma NumZero(b: byte)
    ensures Num(b) == 0 <==> b == 0
  {
    NumEnds(b);
  }

  // The four bytes of n in memory, least significant first.
  function Memory(n: uint32): (b: Octets)
    ensures |b| == 4
  {
    [Byte(n % 256), Byte(n / 256 % 256), Byte(n / 256 / 256 % 256), Byte(n / 256 / 256 / 256)]
  }

  function FromMemory(b: Octets): (n: uint32)
    requires |b| == 4
  {
    Num(b[0]) + 256 * (Num(b[1]) + 256 * (Num(b[2]) + 256 * Num(b[3])))
  }

  lemma MemoryRoundTrip(n: uint32)
    ensures FromMemory(Memory(n)) == n
  {
    hide Byte, Num;
    var q := n / 256;
    var p := q / 256;
    ByteNum(n % 256);
    ByteNum(q % 256);
    ByteNum(p % 256);
    ByteNum(p / 256);
  }

  lemma MemoryOf(b: Octets)
    requires |b| == 4
    ensures Memory(FromMemory(b)) == b
  {
    hide Byte, Num;
    var b0, b1, b2, b3 := Num(b[0]), Num(b[1]), Num(b[2]), Num(b[3]);
    NumByte(b[0]);
    NumByte(b[1]);
    NumByte(b[2]);
    NumByte(b[3]);
    Digits(b0, b1 + 256 * (b2 + 256 * b3));
    Digits(b1, b2 + 256 * b3);
    Digits(b2, b3);
  }

  lemma Digits(d: nat, q: nat)
    requires d < 256
    ensures (d + 256 * q) % 256 == d && (d + 256 * q) / 256 == q
  {
  }
}
