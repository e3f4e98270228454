/**
 src/byte-order.h: 32-bit byte swapping, and what it makes of a value stored in
 memory on a little-endian or on a big-endian host.
 */
module ByteOrder {

  type Byte = b: int | 0 <= b < 0x100
  type U16 = x: int | 0 <= x < 0x1_0000
  type U32 = x: int | 0 <= x < 0x1_0000_0000

  /** An unsigned 32-bit value converted to int32_t. */
  function Signed(x: U32): int { if x < 0x8000_0000 then x else x - 0x1_0000_0000 }

  /** `do_swap2`: masks and shifts of unsigned values, written as remainders and quotients. */
  function Swap2(x: U16): U16 { (x % 0x100) * 0x100 + x / 0x100 }

  /** `do_swap4`, which is `__swap32` */
  function Swap4(x: U32): U32 { Swap2(x % 0x1_0000) * 0x1_0000 + Swap2(x / 0x1_0000) }

  /** `hton32` and `ntoh32`: swap on a little-endian host, nothing on a big-endian one. */
  function Hton32(little: bool, x: U32): U32 { if little then Swap4(x) else x }

  /** The four bytes of a value, most significant first. */
  function BigEndian(x: U32): (r: seq<Byte>)
    ensures |r| == 4
  {
    [x / 0x100_0000, (x / 0x1_0000) % 0x100, (x / 0x100) % 0x100, x % 0x100]
  }

  /** The four bytes of a variable in memory. */
  function Store32(little: bool, x: U32): (r: seq<Byte>)
    ensures |r| == 4
  {
    var b := BigEndian(x);
    if little then [b[3], b[2], b[1], b[0]] else b
  }

  function Compose(a: Byte, b: Byte, c: Byte, d: Byte): U32 {
    0x100_0000 * (a as int) + 0x1_0000 * (b as int) + 0x100 * (c as int) + d as int
  }

  /** The variable that four bytes of memory make up. */
  function Load32(little: bool, b: seq<Byte>): U32
    requires |b| == 4
  {
    if little then Compose(b[3], b[2], b[1], b[0]) else Compose(b[0], b[1], b[2], b[3])
  }

  lemma Digits(x: U32) returns (a: Byte, b: Byte, c: Byte, d: Byte)
    ensures x == Compose(a, b, c, d) && BigEndian(x) == [a, b, c, d]
  {
    var q := x / 0x100;
    var p := q / 0x100;
    a, b, c, d := p / 0x100, p % 0x100, q % 0x100, x % 0x100;
    assert x / 0x1_0000 == p && x / 0x100_0000 == a;
  }

  /** The most significant byte comes first in network order and on a big-endian host, last on a
      little-endian one, and swapping turns one into the other. */
  lemma PlaceValues(x: U32)
    ensures var b: seq<int> := BigEndian(x); x == 0x100_0000 * b[0] + 0x1_0000 * b[1] + 0x100 * b[2] + b[3]
    ensures var b: seq<int> := BigEndian(x); Swap4(x) == b[0] + 0x100 * b[1] + 0x1_0000 * b[2] + 0x100_0000 * b[3]
    ensures var b: seq<int> := Store32(true, x); x == b[0] + 0x100 * b[1] + 0x1_0000 * b[2] + 0x100_0000 * b[3]
  {
    hide Swap4, BigEndian;
    var a, b, c, d := Digits(x);
    SwapBytes(a, b, c, d);
  }

  lemma BytesOf(a: Byte, b: Byte, c: Byte, d: Byte)
    ensures BigEndian(Compose(a, b, c, d)) == [a, b, c, d]
  {
    var x := Compose(a, b, c, d);
    assert x / 0x100_0000 == a;
    assert x / 0x1_0000 == 0x100 * (a as int) + b as int;
    assert x / 0x100 == 0x1_0000 * (a as int) + 0x100 * (b as int) + c as int;
  }

  lemma SwapBytes(a: Byte, b: Byte, c: Byte, d: Byte)
    ensures Swap4(Compose(a, b, c, d)) == Compose(d, c, b, a)
  {
    var x := Compose(a, b, c, d);
    assert x % 0x1_0000 == 0x100 * (c as int) + d as int;
    assert x / 0x1_0000 == 0x100 * (a as int) + b as int;
  }

  /** Swapping twice is the identity. */
  lemma SwapInvolution(x: U32)
    ensures Swap4(Swap4(x)) == x
  {
    var a, b, c, d := Digits(x);
    SwapBytes(a, b, c, d);
    SwapBytes(d, c, b, a);
  }

  /** Every four bytes are those of a value. */
  lemma Spelled(b: seq<Byte>) returns (x: U32)
    requires |b| == 4
    ensures BigEndian(x) == b
  {
    x := Compose(b[0], b[1], b[2], b[3]);
    BytesOf(b[0], b[1], b[2], b[3]);
  }

  /** A value in network order has the same bytes in memory on every host. */
  lemma NetworkOrder(little: bool, x: U32)
    ensures Store32(little, Hton32(little, x)) == BigEndian(x)
    ensures Hton32(little, Load32(little, BigEndian(x))) == x
  {
    hide Swap4, Compose, BigEndian;
    var a, b, c, d := Digits(x);
    SwapBytes(a, b, c, d);
    SwapBytes(d, c, b, a);
    BytesOf(d, c, b, a);
  }
}
