/** Bytes, big-endian integers and the 32-bit conversions of the browser language. */
module Bytes {

  type byte = x: int | 0 <= x < 256

  datatype Option<+T> = None | Some(value: T)

  const TWO_8: int := 0x100
  const TWO_16: int := 0x1_0000
  const TWO_24: int := 0x100_0000
  const TWO_31: int := 0x8000_0000
  const TWO_32: int := 0x1_0000_0000

  // The low bytes of an integer, most significant first. A negative number is
  // written in two's complement, as the shift operators of the source see it.

  function U8(n: int): (r: seq<byte>)
    ensures |r| == 1
  {
    [n % TWO_8]
  }

  function U16(n: int): (r: seq<byte>)
    ensures |r| == 2
  {
    [n / TWO_8 % TWO_8, n % TWO_8]
  }

  function U32(n: int): (r: seq<byte>)
    ensures |r| == 4
  {
    [n / TWO_24 % TWO_8, n / TWO_16 % TWO_8, n / TWO_8 % TWO_8, n % TWO_8]
  }

  /** The value of a big-endian byte string. */
  function BigEndian(s: seq<byte>): (r: nat)
  {
    if s == [] then 0 else BigEndian(s[..|s| - 1]) * TWO_8 + s[|s| - 1]
  }

  function Pow256(n: nat): (r: nat)
    ensures r > 0
  {
    if n == 0 then 1 else Pow256(n - 1) * TWO_8
  }

  lemma BigEndian1(a: byte)
    ensures BigEndian([a]) == a
  {
    assert [a][..0] == [];
  }

  lemma BigEndian2(a: byte, b: byte)
    ensures BigEndian([a, b]) == a * TWO_8 + b
  {
    BigEndian1(a);
    assert [a, b][..1] == [a];
  }

  lemma BigEndian4(a: byte, b: byte, c: byte, d: byte)
    ensures BigEndian([a, b, c, d]) == a * TWO_24 + b * TWO_16 + c * TWO_8 + d
  {
    BigEndian2(a, b);
    assert [a, b, c][..2] == [a, b];
    assert [a, b, c, d][..3] == [a, b, c];
  }

  lemma MulAtLeast(k: int, d: int)
    requires k >= 1 && d > 0
    ensures k * d >= d
  {
    assert k * d == (k - 1) * d + d;
  }

  lemma UniqueQuotient(d: int, q: int, r: int, q': int, r': int)
    requires q * d + r == q' * d + r' && 0 <= r < d && 0 <= r' < d
    ensures q == q' && r == r'
  {
    if q < q' {
      assert (q' - q) * d == q' * d - q * d;
      MulAtLeast(q' - q, d);
    } else if q' < q {
      assert (q - q') * d == q * d - q' * d;
      MulAtLeast(q - q', d);
    }
  }

  /** Quotient and remainder are determined by the division equation. */
  lemma DivModUnique(n: int, d: int, q: int, r: int)
    requires d > 0 && n == q * d + r && 0 <= r < d
    ensures n / d == q && n % d == r
  {
    assert n == n / d * d + n % d;
    UniqueQuotient(d, q, r, n / d, n % d);
  }

  lemma Quotients(n: int)
    ensures n / TWO_16 == n / TWO_8 / TWO_8
    ensures n / TWO_24 == n / TWO_16 / TWO_8
  {
    var a := n / TWO_8;
    DivModUnique(n, TWO_16, a / TWO_8, a % TWO_8 * TWO_8 + n % TWO_8);
    var b := n / TWO_16;
    DivModUnique(n, TWO_24, b / TWO_8, b % TWO_8 * TWO_16 + n % TWO_16);
  }

  lemma Remainder16(n: int)
    ensures n % TWO_16 == n / TWO_8 % TWO_8 * TWO_8 + n % TWO_8
  {
    var a := n / TWO_8;
    DivModUnique(n, TWO_16, a / TWO_8, a % TWO_8 * TWO_8 + n % TWO_8);
  }

  lemma Remainder32(n: int)
    ensures n % TWO_32 == n / TWO_24 % TWO_8 * TWO_24 + n / TWO_16 % TWO_8 * TWO_16
                          + n / TWO_8 % TWO_8 * TWO_8 + n % TWO_8
  {
    var a := n / TWO_8;
    Quotients(n);
    var b, c := n / TWO_16, n / TWO_24;
    assert b == a / TWO_8 && c == b / TWO_8;
    var r := c % TWO_8 * TWO_24 + b % TWO_8 * TWO_16 + a % TWO_8 * TWO_8 + n % TWO_8;
    DivModUnique(n, TWO_32, c / TWO_8, r);
  }

  /** What a push writes, a shift of the same width reads back, modulo the width. */
  lemma BigEndianInverts(n: int)
    ensures BigEndian(U8(n)) == n % TWO_8
    ensures BigEndian(U16(n)) == n % TWO_16
    ensures BigEndian(U32(n)) == n % TWO_32
  {
    BigEndian1(n % TWO_8);
    BigEndian2(n / TWO_8 % TWO_8, n % TWO_8);
    BigEndian4(n / TWO_24 % TWO_8, n / TWO_16 % TWO_8, n / TWO_8 % TWO_8, n % TWO_8);
    Remainder16(n);
    Remainder32(n);
  }

  lemma {:induction false} BigEndianBound(s: seq<byte>)
    ensures BigEndian(s) < Pow256(|s|)
  {
    if s != [] {
      BigEndianBound(s[..|s| - 1]);
    }
  }

  function Pow2(n: nat): (r: nat)
    ensures r > 0
  {
    if n == 0 then 1 else 2 * Pow2(n - 1)
  }

  /** The pieces of a stream, in order. */
  function Concat(pieces: seq<seq<byte>>): seq<byte> {
    if pieces == [] then [] else pieces[0] + Concat(pieces[1..])
  }

  lemma {:induction false} ConcatLast(pieces: seq<seq<byte>>, last: seq<byte>)
    ensures Concat(pieces + [last]) == Concat(pieces) + last
  {
    if pieces == [] {
      assert [last][1..] == [];
      assert last + [] == [] + last;
    } else {
      assert (pieces + [last])[1..] == pieces[1..] + [last];
      ConcatLast(pieces[1..], last);
    }
  }
}
