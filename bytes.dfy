/**
 * Unsigned integers of the widths that the packet headers use, and the
 * big-endian (network byte order) reading and writing of 16- and 32-bit
 * fields.
 */
module Bytes {
  type Byte = x: int | 0 <= x < 0x100
  type U2 = x: int | 0 <= x < 0x4
  type U3 = x: int | 0 <= x < 0x8
  type U4 = x: int | 0 <= x < 0x10
  type U6 = x: int | 0 <= x < 0x40
  type U13 = x: int | 0 <= x < 0x2000
  type U16 = x: int | 0 <= x < 0x1_0000
  type U20 = x: int | 0 <= x < 0x10_0000
  type U32 = x: int | 0 <= x < 0x1_0000_0000

  /** The 16-bit big-endian value stored at b[i], b[i + 1]. */
  function Be16(b: seq<Byte>, i: nat): U16
    requires i + 2 <= |b|
  {
    b[i] as int * 0x100 + b[i + 1]
  }

  /** The 32-bit big-endian value stored at b[i .. i + 4]. */
  function Be32(b: seq<Byte>, i: nat): U32
    requires i + 4 <= |b|
  {
    b[i] as int * 0x100_0000 + b[i + 1] as int * 0x1_0000 + b[i + 2] as int * 0x100 + b[i + 3]
  }

  /** The two bytes of x in network order; reading them back gives x. */
  function Be16Bytes(x: U16): (r: seq<Byte>)
    ensures |r| == 2 && Be16(r, 0) == x
  {
    [x / 0x100, x % 0x100]
  }

  /** The four bytes of x in network order; reading them back gives x. */
  function Be32Bytes(x: U32): (r: seq<Byte>)
    ensures |r| == 4 && Be32(r, 0) == x
  {
    var hi := x / 0x1_0000;
    var lo := x % 0x1_0000;
    assert x == hi * 0x1_0000 + lo;
    assert hi == (hi / 0x100) * 0x100 + hi % 0x100;
    [hi / 0x100, hi % 0x100, lo / 0x100, lo % 0x100]
  }

  /** Reading a 16-bit field depends only on the two bytes it covers. */
  lemma Be16Window(b: seq<Byte>, i: nat, c: seq<Byte>, j: nat)
    requires i + 2 <= |b| && j + 2 <= |c|
    requires b[i] == c[j] && b[i + 1] == c[j + 1]
    ensures Be16(b, i) == Be16(c, j)
  {
  }

  /** Writing x as two bytes anywhere inside a buffer and reading it back gives x. */
  lemma Be16At(pre: seq<Byte>, x: U16, post: seq<Byte>)
    ensures Be16(pre + Be16Bytes(x) + post, |pre|) == x
  {
    var b := pre + Be16Bytes(x) + post;
    assert b[|pre|] == Be16Bytes(x)[0] && b[|pre| + 1] == Be16Bytes(x)[1];
    Be16Window(b, |pre|, Be16Bytes(x), 0);
  }

  /** Writing x as four bytes anywhere inside a buffer and reading it back gives x. */
  lemma Be32At(pre: seq<Byte>, x: U32, post: seq<Byte>)
    ensures Be32(pre + Be32Bytes(x) + post, |pre|) == x
  {
    var b := pre + Be32Bytes(x) + post;
    var w := Be32Bytes(x);
    assert b[|pre|] == w[0] && b[|pre| + 1] == w[1] && b[|pre| + 2] == w[2] && b[|pre| + 3] == w[3];
  }
}
