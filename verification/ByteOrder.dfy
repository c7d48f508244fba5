/**
 Byte order on a little-endian machine: memory byte i of a 32-bit word is its bits 8i to 8i+7.
 */
module ByteOrder {
  function Byte(x: bv32, i: nat): bv8
    requires i < 4
  {
    var shifted := if i == 0 then x else if i == 1 then x >> 8 else if i == 2 then x >> 16 else x >> 24;
    (shifted & 0xff) as bv8
  }

  function Word(b0: bv8, b1: bv8, b2: bv8, b3: bv8): bv32 {
    b0 as bv32 | (b1 as bv32 << 8) | (b2 as bv32 << 16) | (b3 as bv32 << 24)
  }

  /** A word is its four bytes in memory. */
  lemma WordOfBytes(x: bv32)
    ensures Word(Byte(x, 0), Byte(x, 1), Byte(x, 2), Byte(x, 3)) == x
  {
  }

  lemma BytesOfWord(b0: bv8, b1: bv8, b2: bv8, b3: bv8)
    ensures var x := Word(b0, b1, b2, b3);
            Byte(x, 0) == b0 && Byte(x, 1) == b1 && Byte(x, 2) == b2 && Byte(x, 3) == b3
  {
  }

  /** The shifts are done in `int`; the result is cut to 16 bits. */
  function Htons(x: bv16): bv16 {
    var w := x as bv32;
    (((w << 8) | (w >> 8)) & 0xffff) as bv16
  }

  function PpHtons(x: bv32): bv32 {
    ((x & 0x00ff) << 8) | ((x & 0xff00) >> 8)
  }

  function PpHtonl(x: bv32): bv32 {
    ((x & 0x000000ff) << 24) | ((x & 0x0000ff00) << 8) | ((x & 0x00ff0000) >> 8) | ((x & 0xff000000) >> 24)
  }

  /** The four byte stores into the union. */
  method Htonl(x: bv32) returns (y: bv32)
    ensures y == PpHtonl(x)
    ensures forall i: nat :: i < 4 ==> Byte(y, i) == Byte(x, 3 - i)
  {
    var c := new bv8[4];
    c[0] := Byte(x, 3);
    c[1] := Byte(x, 2);
    c[2] := Byte(x, 1);
    c[3] := Byte(x, 0);
    y := Word(c[0], c[1], c[2], c[3]);
    HtonlBytes(x);
    BytesOfWord(Byte(x, 3), Byte(x, 2), Byte(x, 1), Byte(x, 0));
  }

  lemma HtonlBytes(x: bv32)
    ensures PpHtonl(x) == Word(Byte(x, 3), Byte(x, 2), Byte(x, 1), Byte(x, 0))
  {
  }

  /** The run-time function and the macro are the same 16-bit swap, and it is its own inverse. */
  lemma HtonsIsSwap(x: bv16)
    ensures Htons(x) as bv32 == PpHtons(x as bv32)
    ensures Htons(Htons(x)) == x
    ensures Byte(Htons(x) as bv32, 0) == Byte(x as bv32, 1) && Byte(Htons(x) as bv32, 1) == Byte(x as bv32, 0)
  {
  }

  lemma HtonlIsInvolution(x: bv32)
    ensures PpHtonl(PpHtonl(x)) == x
  {
  }

  function MakeU32(a: bv32, b: bv32, c: bv32, d: bv32): bv32 {
    ((a & 0xff) << 24) | ((b & 0xff) << 16) | ((c & 0xff) << 8) | (d & 0xff)
  }

  /** IP4_ADDR. */
  function Ip4Addr(a: bv32, b: bv32, c: bv32, d: bv32): bv32 {
    PpHtonl(MakeU32(a, b, c, d))
  }

  /** An address has its octets in memory in the order they are written, network order. */
  lemma Ip4AddrBytes(a: bv8, b: bv8, c: bv8, d: bv8)
    ensures var ip := Ip4Addr(a as bv32, b as bv32, c as bv32, d as bv32);
            Byte(ip, 0) == a && Byte(ip, 1) == b && Byte(ip, 2) == c && Byte(ip, 3) == d
  {
  }
}
