/** The bits of the words of the cipher. */
module DesBits {
  import opened DesKeys
  import opened DesWords

  /** One bit each, from the left. */
  const MASKS: seq<seq<bv32>> := [
    [0x80000000, 0x40000000, 0x20000000, 0x10000000, 0x08000000, 0x04000000, 0x02000000, 0x01000000],
    [0x00800000, 0x00400000, 0x00200000, 0x00100000, 0x00080000, 0x00040000, 0x00020000, 0x00010000],
    [0x00008000, 0x00004000, 0x00002000, 0x00001000, 0x00000800, 0x00000400, 0x00000200, 0x00000100],
    [0x00000080, 0x00000040, 0x00000020, 0x00000010, 0x00000008, 0x00000004, 0x00000002, 0x00000001]
  ]

  predicate On(x: bv32, mask: bv32) {
    x & mask != 0
  }

  function Mask(i: nat): bv32
    requires i < 32
  {
    MASKS[i / 8][i % 8]
  }

  predicate Bit(x: bv32, i: int) {
    0 <= i < 32 && On(x, Mask(i))
  }

  function Bits(x: bv32): (b: seq<bool>)
    ensures |b| == 32
  {
    seq(32, i requires 0 <= i < 32 => Bit(x, i))
  }

  /** The words of the rounds are the halves of the standard, turned by one bit. */
  function Rol(b: seq<bool>): (r: seq<bool>)
    requires |b| == 32
    ensures |r| == 32
  {
    seq(32, i requires 0 <= i < 32 => b[(i + 1) % 32])
  }

  /** What holds of each number below 32 holds of all of them. */
  lemma All32(p: nat -> bool)
    requires p(0) && p(1) && p(2) && p(3) && p(4) && p(5) && p(6) && p(7)
      && p(8) && p(9) && p(10) && p(11) && p(12) && p(13) && p(14) && p(15)
      && p(16) && p(17) && p(18) && p(19) && p(20) && p(21) && p(22) && p(23)
      && p(24) && p(25) && p(26) && p(27) && p(28) && p(29) && p(30) && p(31)
    ensures forall i: nat | i < 32 :: p(i)
  {
  }

  // Each bit of a word

  lemma OnMeans(x: bv32, mask: bv32)
    ensures On(x, mask) <==> x & mask != 0
  {
  }

  lemma OnRow0(x: bv32)
    ensures Bit(x, 0) == On(x, 0x80000000) && Bit(x, 1) == On(x, 0x40000000) && Bit(x, 2) == On(x, 0x20000000) && Bit(x, 3) == On(x, 0x10000000)
    ensures Bit(x, 4) == On(x, 0x08000000) && Bit(x, 5) == On(x, 0x04000000) && Bit(x, 6) == On(x, 0x02000000) && Bit(x, 7) == On(x, 0x01000000)
  {
    hide On;
  }

  lemma BitRow0(x: bv32)
    ensures (Bit(x, 0) <==> x & 0x80000000 != 0) && (Bit(x, 1) <==> x & 0x40000000 != 0) && (Bit(x, 2) <==> x & 0x20000000 != 0) && (Bit(x, 3) <==> x & 0x10000000 != 0)
    ensures (Bit(x, 4) <==> x & 0x08000000 != 0) && (Bit(x, 5) <==> x & 0x04000000 != 0) && (Bit(x, 6) <==> x & 0x02000000 != 0) && (Bit(x, 7) <==> x & 0x01000000 != 0)
  {
    hide On, Bit;
    OnRow0(x);
    OnMeans(x, 0x80000000);
    OnMeans(x, 0x40000000);
    OnMeans(x, 0x20000000);
    OnMeans(x, 0x10000000);
    OnMeans(x, 0x08000000);
    OnMeans(x, 0x04000000);
    OnMeans(x, 0x02000000);
    OnMeans(x, 0x01000000);
  }

  lemma OnRow1(x: bv32)
    ensures Bit(x, 8) == On(x, 0x00800000) && Bit(x, 9) == On(x, 0x00400000) && Bit(x, 10) == On(x, 0x00200000) && Bit(x, 11) == On(x, 0x00100000)
    ensures Bit(x, 12) == On(x, 0x00080000) && Bit(x, 13) == On(x, 0x00040000) && Bit(x, 14) == On(x, 0x00020000) && Bit(x, 15) == On(x, 0x00010000)
  {
    hide On;
  }

  lemma BitRow1(x: bv32)
    ensures (Bit(x, 8) <==> x & 0x00800000 != 0) && (Bit(x, 9) <==> x & 0x00400000 != 0) && (Bit(x, 10) <==> x & 0x00200000 != 0) && (Bit(x, 11) <==> x & 0x00100000 != 0)
    ensures (Bit(x, 12) <==> x & 0x00080000 != 0) && (Bit(x, 13) <==> x & 0x00040000 != 0) && (Bit(x, 14) <==> x & 0x00020000 != 0) && (Bit(x, 15) <==> x & 0x00010000 != 0)
  {
    hide On, Bit;
    OnRow1(x);
    OnMeans(x, 0x00800000);
    OnMeans(x, 0x00400000);
    OnMeans(x, 0x00200000);
    OnMeans(x, 0x00100000);
    OnMeans(x, 0x00080000);
    OnMeans(x, 0x00040000);
    OnMeans(x, 0x00020000);
    OnMeans(x, 0x00010000);
  }

  lemma OnRow2(x: bv32)
    ensures Bit(x, 16) == On(x, 0x00008000) && Bit(x, 17) == On(x, 0x00004000) && Bit(x, 18) == On(x, 0x00002000) && Bit(x, 19) == On(x, 0x00001000)
    ensures Bit(x, 20) == On(x, 0x00000800) && Bit(x, 21) == On(x, 0x00000400) && Bit(x, 22) == On(x, 0x00000200) && Bit(x, 23) == On(x, 0x00000100)
  {
    hide On;
  }

  lemma BitRow2(x: bv32)
    ensures (Bit(x, 16) <==> x & 0x00008000 != 0) && (Bit(x, 17) <==> x & 0x00004000 != 0) && (Bit(x, 18) <==> x & 0x00002000 != 0) && (Bit(x, 19) <==> x & 0x00001000 != 0)
    ensures (Bit(x, 20) <==> x & 0x00000800 != 0) && (Bit(x, 21) <==> x & 0x00000400 != 0) && (Bit(x, 22) <==> x & 0x00000200 != 0) && (Bit(x, 23) <==> x & 0x00000100 != 0)
  {
    hide On, Bit;
    OnRow2(x);
    OnMeans(x, 0x00008000);
    OnMeans(x, 0x00004000);
    OnMeans(x, 0x00002000);
    OnMeans(x, 0x00001000);
    OnMeans(x, 0x00000800);
    OnMeans(x, 0x00000400);
    OnMeans(x, 0x00000200);
    OnMeans(x, 0x00000100);
  }

  lemma OnRow3(x: bv32)
    ensures Bit(x, 24) == On(x, 0x00000080) && Bit(x, 25) == On(x, 0x00000040) && Bit(x, 26) == On(x, 0x00000020) && Bit(x, 27) == On(x, 0x00000010)
    ensures Bit(x, 28) == On(x, 0x00000008) && Bit(x, 29) == On(x, 0x00000004) && Bit(x, 30) == On(x, 0x00000002) && Bit(x, 31) == On(x, 0x00000001)
  {
    hide On;
  }

  lemma BitRow3(x: bv32)
    ensures (Bit(x, 24) <==> x & 0x00000080 != 0) && (Bit(x, 25) <==> x & 0x00000040 != 0) && (Bit(x, 26) <==> x & 0x00000020 != 0) && (Bit(x, 27) <==> x & 0x00000010 != 0)
    ensures (Bit(x, 28) <==> x & 0x00000008 != 0) && (Bit(x, 29) <==> x & 0x00000004 != 0) && (Bit(x, 30) <==> x & 0x00000002 != 0) && (Bit(x, 31) <==> x & 0x00000001 != 0)
  {
    hide On, Bit;
    OnRow3(x);
    OnMeans(x, 0x00000080);
    OnMeans(x, 0x00000040);
    OnMeans(x, 0x00000020);
    OnMeans(x, 0x00000010);
    OnMeans(x, 0x00000008);
    OnMeans(x, 0x00000004);
    OnMeans(x, 0x00000002);
    OnMeans(x, 0x00000001);
  }

  // The masks are powers of two

  lemma OneBitNext(k: nat, v: bv32)
    requires OneBit(k) == v
    ensures OneBit(k + 1) == v << 1
  {
  }

  lemma OneBits()
    ensures OneBit(0) == 0x00000001 && OneBit(1) == 0x00000002 && OneBit(2) == 0x00000004 && OneBit(3) == 0x00000008
    ensures OneBit(4) == 0x00000010 && OneBit(5) == 0x00000020 && OneBit(6) == 0x00000040 && OneBit(7) == 0x00000080
    ensures OneBit(8) == 0x00000100 && OneBit(9) == 0x00000200 && OneBit(10) == 0x00000400 && OneBit(11) == 0x00000800
    ensures OneBit(12) == 0x00001000 && OneBit(13) == 0x00002000 && OneBit(14) == 0x00004000 && OneBit(15) == 0x00008000
    ensures OneBit(16) == 0x00010000 && OneBit(17) == 0x00020000 && OneBit(18) == 0x00040000 && OneBit(19) == 0x00080000
    ensures OneBit(20) == 0x00100000 && OneBit(21) == 0x00200000 && OneBit(22) == 0x00400000 && OneBit(23) == 0x00800000
    ensures OneBit(24) == 0x01000000 && OneBit(25) == 0x02000000 && OneBit(26) == 0x04000000 && OneBit(27) == 0x08000000
    ensures OneBit(28) == 0x10000000 && OneBit(29) == 0x20000000 && OneBit(30) == 0x40000000 && OneBit(31) == 0x80000000
  {
    assert OneBit(0) == 1;
    hide OneBit;
    OneBitNext(0, 0x00000001);
    OneBitNext(1, 0x00000002);
    OneBitNext(2, 0x00000004);
    OneBitNext(3, 0x00000008);
    OneBitNext(4, 0x00000010);
    OneBitNext(5, 0x00000020);
    OneBitNext(6, 0x00000040);
    OneBitNext(7, 0x00000080);
    OneBitNext(8, 0x00000100);
    OneBitNext(9, 0x00000200);
    OneBitNext(10, 0x00000400);
    OneBitNext(11, 0x00000800);
    OneBitNext(12, 0x00001000);
    OneBitNext(13, 0x00002000);
    OneBitNext(14, 0x00004000);
    OneBitNext(15, 0x00008000);
    OneBitNext(16, 0x00010000);
    OneBitNext(17, 0x00020000);
    OneBitNext(18, 0x00040000);
    OneBitNext(19, 0x00080000);
    OneBitNext(20, 0x00100000);
    OneBitNext(21, 0x00200000);
    OneBitNext(22, 0x00400000);
    OneBitNext(23, 0x00800000);
    OneBitNext(24, 0x01000000);
    OneBitNext(25, 0x02000000);
    OneBitNext(26, 0x04000000);
    OneBitNext(27, 0x08000000);
    OneBitNext(28, 0x10000000);
    OneBitNext(29, 0x20000000);
    OneBitNext(30, 0x40000000);
  }

  lemma MaskRow0()
    ensures Mask(0) == 0x80000000 && Mask(1) == 0x40000000 && Mask(2) == 0x20000000 && Mask(3) == 0x10000000
    ensures Mask(4) == 0x08000000 && Mask(5) == 0x04000000 && Mask(6) == 0x02000000 && Mask(7) == 0x01000000
  {
  }

  lemma MaskRow1()
    ensures Mask(8) == 0x00800000 && Mask(9) == 0x00400000 && Mask(10) == 0x00200000 && Mask(11) == 0x00100000
    ensures Mask(12) == 0x00080000 && Mask(13) == 0x00040000 && Mask(14) == 0x00020000 && Mask(15) == 0x00010000
  {
  }

  lemma MaskRow2()
    ensures Mask(16) == 0x00008000 && Mask(17) == 0x00004000 && Mask(18) == 0x00002000 && Mask(19) == 0x00001000
    ensures Mask(20) == 0x00000800 && Mask(21) == 0x00000400 && Mask(22) == 0x00000200 && Mask(23) == 0x00000100
  {
  }

  lemma MaskRow3()
    ensures Mask(24) == 0x00000080 && Mask(25) == 0x00000040 && Mask(26) == 0x00000020 && Mask(27) == 0x00000010
    ensures Mask(28) == 0x00000008 && Mask(29) == 0x00000004 && Mask(30) == 0x00000002 && Mask(31) == 0x00000001
  {
  }

  ghost predicate MaskAt(i: nat) {
    i < 32 ==> Mask(i) == OneBit(31 - i)
  }

  lemma MasksAre()
    ensures MaskAt(0) && MaskAt(1) && MaskAt(2) && MaskAt(3) && MaskAt(4) && MaskAt(5) && MaskAt(6) && MaskAt(7)
    ensures MaskAt(8) && MaskAt(9) && MaskAt(10) && MaskAt(11) && MaskAt(12) && MaskAt(13) && MaskAt(14) && MaskAt(15)
    ensures MaskAt(16) && MaskAt(17) && MaskAt(18) && MaskAt(19) && MaskAt(20) && MaskAt(21) && MaskAt(22) && MaskAt(23)
    ensures MaskAt(24) && MaskAt(25) && MaskAt(26) && MaskAt(27) && MaskAt(28) && MaskAt(29) && MaskAt(30) && MaskAt(31)
  {
    hide Mask, OneBit;
    OneBits();
    MaskRow0();
    MaskRow1();
    MaskRow2();
    MaskRow3();
  }

  lemma MaskIsOneBit(i: nat)
    requires i < 32
    ensures Mask(i) == OneBit(31 - i)
  {
    MasksAre();
    assert MaskAt(i) by {
      hide MaskAt;
      All32((k: nat) => MaskAt(k));
    }
    hide Mask, OneBit;
  }

  ghost predicate SingleBit(mask: bv32) {
    mask & (mask - 1) == 0
  }

  lemma ShiftsSingle(mask: bv32)
    requires mask & (mask - 1) == 0
    ensures (mask << 1) & ((mask << 1) - 1) == 0
  {
  }

  lemma {:induction false} OneBitIsSingle(k: nat)
    ensures SingleBit(OneBit(k))
  {
    if k > 0 {
      OneBitIsSingle(k - 1);
      ShiftsSingle(OneBit(k - 1));
    }
  }

  // The bits of combined words

  lemma OrMask(a: bv32, b: bv32, mask: bv32)
    ensures (a | b) & mask != 0 <==> a & mask != 0 || b & mask != 0
  {
  }

  lemma XorMask(a: bv32, b: bv32, mask: bv32)
    requires mask & (mask - 1) == 0
    ensures (a ^ b) & mask != 0 <==> ((a & mask != 0) != (b & mask != 0))
  {
  }

  lemma OrOn(a: bv32, b: bv32, mask: bv32)
    ensures On(Or(a, b), mask) == (On(a, mask) || On(b, mask))
  {
    hide On;
    OnMeans(a | b, mask);
    OnMeans(a, mask);
    OnMeans(b, mask);
    OrMask(a, b, mask);
  }

  lemma XorOn(a: bv32, b: bv32, mask: bv32)
    requires SingleBit(mask)
    ensures On(Xor(a, b), mask) == (On(a, mask) != On(b, mask))
  {
    hide On;
    OnMeans(a ^ b, mask);
    OnMeans(a, mask);
    OnMeans(b, mask);
    XorMask(a, b, mask);
  }

  lemma OrBit(a: bv32, b: bv32, i: int)
    ensures Bit(Or(a, b), i) == (Bit(a, i) || Bit(b, i))
  {
    if 0 <= i < 32 {
      OrOn(a, b, Mask(i));
    }
    hide On, Or, Mask;
  }

  lemma MaskIsSingle(i: nat)
    requires i < 32
    ensures SingleBit(Mask(i))
  {
    hide Mask, OneBit, SingleBit;
    MaskIsOneBit(i);
    OneBitIsSingle(31 - i);
  }

  lemma XorBit(a: bv32, b: bv32, i: int)
    requires 0 <= i < 32
    ensures Bit(Xor(a, b), i) == (Bit(a, i) != Bit(b, i))
  {
    hide On, Xor, Mask, SingleBit;
    MaskIsSingle(i);
    XorOn(a, b, Mask(i));
  }

  lemma NoBits(i: int)
    ensures !Bit(0, i)
  {
    hide Mask;
  }

  lemma ApartMeans(a: bv32, b: bv32)
    requires Apart(a, b)
    ensures !On(a, b)
  {
  }

  lemma SelfMeans(a: bv32)
    requires a != 0
    ensures On(a, a)
  {
  }

  lemma OneBitIsSome(k: nat)
    requires k < 32
    ensures On(OneBit(k), OneBit(k))
  {
    hide On, OneBit;
    OneBits();
    SelfMeans(OneBit(k));
  }

  /** A single bit is where it is put and nowhere else. */
  lemma OneBitAt(k: nat, i: int)
    requires k < 32
    ensures Bit(OneBit(k), i) == (i == 31 - k)
  {
    hide On, Mask, OneBit, Apart;
    if 0 <= i < 32 {
      MaskIsOneBit(i);
      if k == 31 - i {
        OneBitIsSome(k);
      } else {
        BitsDiffer(k, 31 - i);
        ApartMeans(OneBit(k), OneBit(31 - i));
      }
    }
  }
}
