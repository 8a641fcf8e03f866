/** One round of the cipher, with its combined tables and its words turned by a bit, is
    the round of the standard. */
module DesRound {
  import opened DesTables
  import opened DesKeys
  import opened DesWords
  import opened Des
  import opened DesBits
  import opened DesBoxes
  import Fips46

  /** The word is this half of the standard, turned by one bit. */
  ghost predicate Turned(x: bv32, half: seq<bool>) {
    |half| == 32 && forall i | 0 <= i < 32 :: Bit(x, i) == half[(i + 1) % 32]
  }

  /** Bit i of a key of the standard, where the rounds look for it. */
  predicate LaidBit(k: Subkey, i: nat) {
    Bit(if i / 6 % 2 == 0 then k.0 else k.1, 8 * (i / 12) + 2 + i % 6)
  }

  ghost predicate Laid(k: Subkey, key: seq<bool>) {
    |key| == 48 && forall i | 0 <= i < 48 :: key[i] == LaidBit(k, i)
  }

  // What goes into the boxes

  lemma ExpansionsLow()
    ensures Fips46.ExpansionFrom(0) == 31 && Fips46.ExpansionFrom(1) == 0 && Fips46.ExpansionFrom(2) == 1 && Fips46.ExpansionFrom(3) == 2
    ensures Fips46.ExpansionFrom(4) == 3 && Fips46.ExpansionFrom(5) == 4 && Fips46.ExpansionFrom(6) == 3 && Fips46.ExpansionFrom(7) == 4
    ensures Fips46.ExpansionFrom(8) == 5 && Fips46.ExpansionFrom(9) == 6 && Fips46.ExpansionFrom(10) == 7 && Fips46.ExpansionFrom(11) == 8
    ensures Fips46.ExpansionFrom(12) == 7 && Fips46.ExpansionFrom(13) == 8 && Fips46.ExpansionFrom(14) == 9 && Fips46.ExpansionFrom(15) == 10
    ensures Fips46.ExpansionFrom(16) == 11 && Fips46.ExpansionFrom(17) == 12 && Fips46.ExpansionFrom(18) == 11 && Fips46.ExpansionFrom(19) == 12
    ensures Fips46.ExpansionFrom(20) == 13 && Fips46.ExpansionFrom(21) == 14 && Fips46.ExpansionFrom(22) == 15 && Fips46.ExpansionFrom(23) == 16
  {
  }

  lemma ExpansionsHigh()
    ensures Fips46.ExpansionFrom(24) == 15 && Fips46.ExpansionFrom(25) == 16 && Fips46.ExpansionFrom(26) == 17 && Fips46.ExpansionFrom(27) == 18
    ensures Fips46.ExpansionFrom(28) == 19 && Fips46.ExpansionFrom(29) == 20 && Fips46.ExpansionFrom(30) == 19 && Fips46.ExpansionFrom(31) == 20
    ensures Fips46.ExpansionFrom(32) == 21 && Fips46.ExpansionFrom(33) == 22 && Fips46.ExpansionFrom(34) == 23 && Fips46.ExpansionFrom(35) == 24
    ensures Fips46.ExpansionFrom(36) == 23 && Fips46.ExpansionFrom(37) == 24 && Fips46.ExpansionFrom(38) == 25 && Fips46.ExpansionFrom(39) == 26
    ensures Fips46.ExpansionFrom(40) == 27 && Fips46.ExpansionFrom(41) == 28 && Fips46.ExpansionFrom(42) == 27 && Fips46.ExpansionFrom(43) == 28
    ensures Fips46.ExpansionFrom(44) == 29 && Fips46.ExpansionFrom(45) == 30 && Fips46.ExpansionFrom(46) == 31 && Fips46.ExpansionFrom(47) == 0
  {
  }

  lemma ExpansionIs(i: nat)
    requires i < 48
    ensures Fips46.ExpansionFrom(i) == (4 * (i / 6) + 31 + i % 6) % 32
  {
    hide Fips46.ExpansionFrom;
    ExpansionsLow();
    ExpansionsHigh();
  }

  /** Where bit i that goes into the boxes is found, in a word turned by one bit. */
  lemma ExpansionTurned(i: nat)
    requires i < 48
    ensures var q := 8 * (i / 12) + 2 + i % 6;
            q < 32 && Fips46.ExpansionFrom(i) == if i / 6 % 2 == 0 then ((q + 28) % 32 + 1) % 32 else (q + 1) % 32
  {
    hide Fips46.ExpansionFrom;
    ExpansionIs(i);
  }

  lemma RotatedMasks(r: bv32)
    ensures (RotateRight4(r) & 0x80000000 != 0 <==> r & 0x00000008 != 0) && (RotateRight4(r) & 0x40000000 != 0 <==> r & 0x00000004 != 0)
    ensures (RotateRight4(r) & 0x20000000 != 0 <==> r & 0x00000002 != 0) && (RotateRight4(r) & 0x10000000 != 0 <==> r & 0x00000001 != 0)
    ensures (RotateRight4(r) & 0x08000000 != 0 <==> r & 0x80000000 != 0) && (RotateRight4(r) & 0x04000000 != 0 <==> r & 0x40000000 != 0)
    ensures (RotateRight4(r) & 0x02000000 != 0 <==> r & 0x20000000 != 0) && (RotateRight4(r) & 0x01000000 != 0 <==> r & 0x10000000 != 0)
    ensures (RotateRight4(r) & 0x00800000 != 0 <==> r & 0x08000000 != 0) && (RotateRight4(r) & 0x00400000 != 0 <==> r & 0x04000000 != 0)
    ensures (RotateRight4(r) & 0x00200000 != 0 <==> r & 0x02000000 != 0) && (RotateRight4(r) & 0x00100000 != 0 <==> r & 0x01000000 != 0)
    ensures (RotateRight4(r) & 0x00080000 != 0 <==> r & 0x00800000 != 0) && (RotateRight4(r) & 0x00040000 != 0 <==> r & 0x00400000 != 0)
    ensures (RotateRight4(r) & 0x00020000 != 0 <==> r & 0x00200000 != 0) && (RotateRight4(r) & 0x00010000 != 0 <==> r & 0x00100000 != 0)
    ensures (RotateRight4(r) & 0x00008000 != 0 <==> r & 0x00080000 != 0) && (RotateRight4(r) & 0x00004000 != 0 <==> r & 0x00040000 != 0)
    ensures (RotateRight4(r) & 0x00002000 != 0 <==> r & 0x00020000 != 0) && (RotateRight4(r) & 0x00001000 != 0 <==> r & 0x00010000 != 0)
    ensures (RotateRight4(r) & 0x00000800 != 0 <==> r & 0x00008000 != 0) && (RotateRight4(r) & 0x00000400 != 0 <==> r & 0x00004000 != 0)
    ensures (RotateRight4(r) & 0x00000200 != 0 <==> r & 0x00002000 != 0) && (RotateRight4(r) & 0x00000100 != 0 <==> r & 0x00001000 != 0)
    ensures (RotateRight4(r) & 0x00000080 != 0 <==> r & 0x00000800 != 0) && (RotateRight4(r) & 0x00000040 != 0 <==> r & 0x00000400 != 0)
    ensures (RotateRight4(r) & 0x00000020 != 0 <==> r & 0x00000200 != 0) && (RotateRight4(r) & 0x00000010 != 0 <==> r & 0x00000100 != 0)
    ensures (RotateRight4(r) & 0x00000008 != 0 <==> r & 0x00000080 != 0) && (RotateRight4(r) & 0x00000004 != 0 <==> r & 0x00000040 != 0)
    ensures (RotateRight4(r) & 0x00000002 != 0 <==> r & 0x00000020 != 0) && (RotateRight4(r) & 0x00000001 != 0 <==> r & 0x00000010 != 0)
  {
  }

  ghost predicate RotatedAt(r: bv32, i: nat) {
    i < 32 ==> Bit(RotateRight4(r), i) == Bit(r, (i + 28) % 32)
  }

  lemma RotatedBits(r: bv32)
    ensures RotatedAt(r, 0) && RotatedAt(r, 1) && RotatedAt(r, 2) && RotatedAt(r, 3) && RotatedAt(r, 4) && RotatedAt(r, 5) && RotatedAt(r, 6) && RotatedAt(r, 7)
    ensures RotatedAt(r, 8) && RotatedAt(r, 9) && RotatedAt(r, 10) && RotatedAt(r, 11) && RotatedAt(r, 12) && RotatedAt(r, 13) && RotatedAt(r, 14) && RotatedAt(r, 15)
    ensures RotatedAt(r, 16) && RotatedAt(r, 17) && RotatedAt(r, 18) && RotatedAt(r, 19) && RotatedAt(r, 20) && RotatedAt(r, 21) && RotatedAt(r, 22) && RotatedAt(r, 23)
    ensures RotatedAt(r, 24) && RotatedAt(r, 25) && RotatedAt(r, 26) && RotatedAt(r, 27) && RotatedAt(r, 28) && RotatedAt(r, 29) && RotatedAt(r, 30) && RotatedAt(r, 31)
  {
    hide Bit, RotateRight4;
    RotatedMasks(r);
    BitRow0(r);
    BitRow1(r);
    BitRow2(r);
    BitRow3(r);
    BitRow0(RotateRight4(r));
    BitRow1(RotateRight4(r));
    BitRow2(RotateRight4(r));
    BitRow3(RotateRight4(r));
  }

  lemma RotatedBit(r: bv32, i: nat)
    ensures i < 32 ==> RotatedAt(r, i)
  {
    hide RotatedAt;
    RotatedBits(r);
    All32((k: nat) => RotatedAt(r, k));
  }

  /** The word that the boxes of one parity look at. */
  function Mixed(r: bv32, k: Subkey, n: nat): bv32 {
    if n % 2 == 0 then Xor(RotateRight4(r), k.0) else Xor(r, k.1)
  }

  lemma InputBit(r: bv32, k: Subkey, half: seq<bool>, key: seq<bool>, i: nat)
    requires Turned(r, half) && Laid(k, key) && i < 48
    ensures Bit(Mixed(r, k, i / 6), 8 * (i / 12) + 2 + i % 6) == Fips46.Xor(Fips46.Expanded(half), key)[i]
  {
    hide Bit, Xor, RotateRight4, Fips46.ExpansionFrom;
    var q := 8 * (i / 12) + 2 + i % 6;
    ExpansionTurned(i);
    assert key[i] == LaidBit(k, i);
    if i / 6 % 2 == 0 {
      XorBit(RotateRight4(r), k.0, q);
      RotatedBit(r, q);
      assert Bit(r, (q + 28) % 32) == half[((q + 28) % 32 + 1) % 32];
    } else {
      XorBit(r, k.1, q);
      assert Bit(r, q) == half[(q + 1) % 32];
    }
  }

  lemma Field24Masks(x: bv32)
    ensures (Field24(x) & 32 != 0 <==> x & 0x20000000 != 0) && (Field24(x) & 16 != 0 <==> x & 0x10000000 != 0)
    ensures (Field24(x) & 8 != 0 <==> x & 0x08000000 != 0) && (Field24(x) & 4 != 0 <==> x & 0x04000000 != 0)
    ensures (Field24(x) & 2 != 0 <==> x & 0x02000000 != 0) && (Field24(x) & 1 != 0 <==> x & 0x01000000 != 0)
  {
  }

  lemma Field24Bits(x: bv32)
    ensures Six(Field24(x), 0) == Bit(x, 2) && Six(Field24(x), 1) == Bit(x, 3) && Six(Field24(x), 2) == Bit(x, 4)
    ensures Six(Field24(x), 3) == Bit(x, 5) && Six(Field24(x), 4) == Bit(x, 6) && Six(Field24(x), 5) == Bit(x, 7)
  {
    hide Six, Bit, Field24;
    Field24Masks(x);
    SixMeans(Field24(x));
    BitRow0(x);
  }

  lemma Field16Masks(x: bv32)
    ensures (Field16(x) & 32 != 0 <==> x & 0x00200000 != 0) && (Field16(x) & 16 != 0 <==> x & 0x00100000 != 0)
    ensures (Field16(x) & 8 != 0 <==> x & 0x00080000 != 0) && (Field16(x) & 4 != 0 <==> x & 0x00040000 != 0)
    ensures (Field16(x) & 2 != 0 <==> x & 0x00020000 != 0) && (Field16(x) & 1 != 0 <==> x & 0x00010000 != 0)
  {
  }

  lemma Field16Bits(x: bv32)
    ensures Six(Field16(x), 0) == Bit(x, 10) && Six(Field16(x), 1) == Bit(x, 11) && Six(Field16(x), 2) == Bit(x, 12)
    ensures Six(Field16(x), 3) == Bit(x, 13) && Six(Field16(x), 4) == Bit(x, 14) && Six(Field16(x), 5) == Bit(x, 15)
  {
    hide Six, Bit, Field16;
    Field16Masks(x);
    SixMeans(Field16(x));
    BitRow1(x);
  }

  lemma Field8Masks(x: bv32)
    ensures (Field8(x) & 32 != 0 <==> x & 0x00002000 != 0) && (Field8(x) & 16 != 0 <==> x & 0x00001000 != 0)
    ensures (Field8(x) & 8 != 0 <==> x & 0x00000800 != 0) && (Field8(x) & 4 != 0 <==> x & 0x00000400 != 0)
    ensures (Field8(x) & 2 != 0 <==> x & 0x00000200 != 0) && (Field8(x) & 1 != 0 <==> x & 0x00000100 != 0)
  {
  }

  lemma Field8Bits(x: bv32)
    ensures Six(Field8(x), 0) == Bit(x, 18) && Six(Field8(x), 1) == Bit(x, 19) && Six(Field8(x), 2) == Bit(x, 20)
    ensures Six(Field8(x), 3) == Bit(x, 21) && Six(Field8(x), 4) == Bit(x, 22) && Six(Field8(x), 5) == Bit(x, 23)
  {
    hide Six, Bit, Field8;
    Field8Masks(x);
    SixMeans(Field8(x));
    BitRow2(x);
  }

  lemma Field0Masks(x: bv32)
    ensures (Field0(x) & 32 != 0 <==> x & 0x00000020 != 0) && (Field0(x) & 16 != 0 <==> x & 0x00000010 != 0)
    ensures (Field0(x) & 8 != 0 <==> x & 0x00000008 != 0) && (Field0(x) & 4 != 0 <==> x & 0x00000004 != 0)
    ensures (Field0(x) & 2 != 0 <==> x & 0x00000002 != 0) && (Field0(x) & 1 != 0 <==> x & 0x00000001 != 0)
  {
  }

  lemma Field0Bits(x: bv32)
    ensures Six(Field0(x), 0) == Bit(x, 26) && Six(Field0(x), 1) == Bit(x, 27) && Six(Field0(x), 2) == Bit(x, 28)
    ensures Six(Field0(x), 3) == Bit(x, 29) && Six(Field0(x), 4) == Bit(x, 30) && Six(Field0(x), 5) == Bit(x, 31)
  {
    hide Six, Bit, Field0;
    Field0Masks(x);
    SixMeans(Field0(x));
    BitRow3(x);
  }

  /** The field carries the six bits that box n takes from b. */
  ghost predicate Feeds(n: nat, v: bv6, b: seq<bool>) {
    |b| == 48 && n < 8 && forall j | 0 <= j < 6 :: Six(v, j) == b[6 * n + j]
  }

  lemma Input1(r: bv32, k: Subkey, half: seq<bool>, key: seq<bool>)
    requires Turned(r, half) && Laid(k, key)
    ensures Feeds(0, Field24(Xor(RotateRight4(r), k.0)), Fips46.Xor(Fips46.Expanded(half), key))
  {
    hide Bit, Six, Turned, Laid, Field24, Fips46.ExpansionFrom;
    Field24Bits(Mixed(r, k, 0));
    InputBit(r, k, half, key, 0);
    InputBit(r, k, half, key, 1);
    InputBit(r, k, half, key, 2);
    InputBit(r, k, half, key, 3);
    InputBit(r, k, half, key, 4);
    InputBit(r, k, half, key, 5);
  }

  lemma Input2(r: bv32, k: Subkey, half: seq<bool>, key: seq<bool>)
    requires Turned(r, half) && Laid(k, key)
    ensures Feeds(1, Field24(Xor(r, k.1)), Fips46.Xor(Fips46.Expanded(half), key))
  {
    hide Bit, Six, Turned, Laid, Field24, Fips46.ExpansionFrom;
    Field24Bits(Mixed(r, k, 1));
    InputBit(r, k, half, key, 6);
    InputBit(r, k, half, key, 7);
    InputBit(r, k, half, key, 8);
    InputBit(r, k, half, key, 9);
    InputBit(r, k, half, key, 10);
    InputBit(r, k, half, key, 11);
  }

  lemma Input3(r: bv32, k: Subkey, half: seq<bool>, key: seq<bool>)
    requires Turned(r, half) && Laid(k, key)
    ensures Feeds(2, Field16(Xor(RotateRight4(r), k.0)), Fips46.Xor(Fips46.Expanded(half), key))
  {
    hide Bit, Six, Turned, Laid, Field16, Fips46.ExpansionFrom;
    Field16Bits(Mixed(r, k, 2));
    InputBit(r, k, half, key, 12);
    InputBit(r, k, half, key, 13);
    InputBit(r, k, half, key, 14);
    InputBit(r, k, half, key, 15);
    InputBit(r, k, half, key, 16);
    InputBit(r, k, half, key, 17);
  }

  lemma Input4(r: bv32, k: Subkey, half: seq<bool>, key: seq<bool>)
    requires Turned(r, half) && Laid(k, key)
    ensures Feeds(3, Field16(Xor(r, k.1)), Fips46.Xor(Fips46.Expanded(half), key))
  {
    hide Bit, Six, Turned, Laid, Field16, Fips46.ExpansionFrom;
    Field16Bits(Mixed(r, k, 3));
    InputBit(r, k, half, key, 18);
    InputBit(r, k, half, key, 19);
    InputBit(r, k, half, key, 20);
    InputBit(r, k, half, key, 21);
    InputBit(r, k, half, key, 22);
    InputBit(r, k, half, key, 23);
  }

  lemma Input5(r: bv32, k: Subkey, half: seq<bool>, key: seq<bool>)
    requires Turned(r, half) && Laid(k, key)
    ensures Feeds(4, Field8(Xor(RotateRight4(r), k.0)), Fips46.Xor(Fips46.Expanded(half), key))
  {
    hide Bit, Six, Turned, Laid, Field8, Fips46.ExpansionFrom;
    Field8Bits(Mixed(r, k, 4));
    InputBit(r, k, half, key, 24);
    InputBit(r, k, half, key, 25);
    InputBit(r, k, half, key, 26);
    InputBit(r, k, half, key, 27);
    InputBit(r, k, half, key, 28);
    InputBit(r, k, half, key, 29);
  }

  lemma Input6(r: bv32, k: Subkey, half: seq<bool>, key: seq<bool>)
    requires Turned(r, half) && Laid(k, key)
    ensures Feeds(5, Field8(Xor(r, k.1)), Fips46.Xor(Fips46.Expanded(half), key))
  {
    hide Bit, Six, Turned, Laid, Field8, Fips46.ExpansionFrom;
    Field8Bits(Mixed(r, k, 5));
    InputBit(r, k, half, key, 30);
    InputBit(r, k, half, key, 31);
    InputBit(r, k, half, key, 32);
    InputBit(r, k, half, key, 33);
    InputBit(r, k, half, key, 34);
    InputBit(r, k, half, key, 35);
  }

  lemma Input7(r: bv32, k: Subkey, half: seq<bool>, key: seq<bool>)
    requires Turned(r, half) && Laid(k, key)
    ensures Feeds(6, Field0(Xor(RotateRight4(r), k.0)), Fips46.Xor(Fips46.Expanded(half), key))
  {
    hide Bit, Six, Turned, Laid, Field0, Fips46.ExpansionFrom;
    Field0Bits(Mixed(r, k, 6));
    InputBit(r, k, half, key, 36);
    InputBit(r, k, half, key, 37);
    InputBit(r, k, half, key, 38);
    InputBit(r, k, half, key, 39);
    InputBit(r, k, half, key, 40);
    InputBit(r, k, half, key, 41);
  }

  lemma Input8(r: bv32, k: Subkey, half: seq<bool>, key: seq<bool>)
    requires Turned(r, half) && Laid(k, key)
    ensures Feeds(7, Field0(Xor(r, k.1)), Fips46.Xor(Fips46.Expanded(half), key))
  {
    hide Bit, Six, Turned, Laid, Field0, Fips46.ExpansionFrom;
    Field0Bits(Mixed(r, k, 7));
    InputBit(r, k, half, key, 42);
    InputBit(r, k, half, key, 43);
    InputBit(r, k, half, key, 44);
    InputBit(r, k, half, key, 45);
    InputBit(r, k, half, key, 46);
    InputBit(r, k, half, key, 47);
  }

  // What comes out of the boxes

  /** Bit p of a word is a bit of box n, and that is set. */
  ghost predicate Chosen(n: nat, v: bv6, p: nat)
    requires n < 8 && p < 32
  {
    && Source(p) / 4 == n
    && Fips46.NibbleBit(Fips46.Entry(Fips46.Box(n), Six(v, 0), Six(v, 1), Six(v, 2), Six(v, 3), Six(v, 4), Six(v, 5)),
                        Source(p) % 4)
  }

  lemma BoxBit1(v: bv6, p: nat)
    requires p < 32
    ensures Bit(Look(SP1, v), p) == Chosen(0, v, p)
  {
    hide Bit, Six, Look, Source, Fips46.Entry, Fips46.NibbleBit;
    Looked1(v);
    PlacedBit(0, Fips46.Entry(Fips46.S1, Six(v, 0), Six(v, 1), Six(v, 2), Six(v, 3), Six(v, 4), Six(v, 5)), p);
  }

  lemma BoxBit2(v: bv6, p: nat)
    requires p < 32
    ensures Bit(Look(SP2, v), p) == Chosen(1, v, p)
  {
    hide Bit, Six, Look, Source, Fips46.Entry, Fips46.NibbleBit;
    Looked2(v);
    PlacedBit(1, Fips46.Entry(Fips46.S2, Six(v, 0), Six(v, 1), Six(v, 2), Six(v, 3), Six(v, 4), Six(v, 5)), p);
  }

  lemma BoxBit3(v: bv6, p: nat)
    requires p < 32
    ensures Bit(Look(SP3, v), p) == Chosen(2, v, p)
  {
    hide Bit, Six, Look, Source, Fips46.Entry, Fips46.NibbleBit;
    Looked3(v);
    PlacedBit(2, Fips46.Entry(Fips46.S3, Six(v, 0), Six(v, 1), Six(v, 2), Six(v, 3), Six(v, 4), Six(v, 5)), p);
  }

  lemma BoxBit4(v: bv6, p: nat)
    requires p < 32
    ensures Bit(Look(SP4, v), p) == Chosen(3, v, p)
  {
    hide Bit, Six, Look, Source, Fips46.Entry, Fips46.NibbleBit;
    Looked4(v);
    PlacedBit(3, Fips46.Entry(Fips46.S4, Six(v, 0), Six(v, 1), Six(v, 2), Six(v, 3), Six(v, 4), Six(v, 5)), p);
  }

  lemma BoxBit5(v: bv6, p: nat)
    requires p < 32
    ensures Bit(Look(SP5, v), p) == Chosen(4, v, p)
  {
    hide Bit, Six, Look, Source, Fips46.Entry, Fips46.NibbleBit;
    Looked5(v);
    PlacedBit(4, Fips46.Entry(Fips46.S5, Six(v, 0), Six(v, 1), Six(v, 2), Six(v, 3), Six(v, 4), Six(v, 5)), p);
  }

  lemma BoxBit6(v: bv6, p: nat)
    requires p < 32
    ensures Bit(Look(SP6, v), p) == Chosen(5, v, p)
  {
    hide Bit, Six, Look, Source, Fips46.Entry, Fips46.NibbleBit;
    Looked6(v);
    PlacedBit(5, Fips46.Entry(Fips46.S6, Six(v, 0), Six(v, 1), Six(v, 2), Six(v, 3), Six(v, 4), Six(v, 5)), p);
  }

  lemma BoxBit7(v: bv6, p: nat)
    requires p < 32
    ensures Bit(Look(SP7, v), p) == Chosen(6, v, p)
  {
    hide Bit, Six, Look, Source, Fips46.Entry, Fips46.NibbleBit;
    Looked7(v);
    PlacedBit(6, Fips46.Entry(Fips46.S7, Six(v, 0), Six(v, 1), Six(v, 2), Six(v, 3), Six(v, 4), Six(v, 5)), p);
  }

  lemma BoxBit8(v: bv6, p: nat)
    requires p < 32
    ensures Bit(Look(SP8, v), p) == Chosen(7, v, p)
  {
    hide Bit, Six, Look, Source, Fips46.Entry, Fips46.NibbleBit;
    Looked8(v);
    PlacedBit(7, Fips46.Entry(Fips46.S8, Six(v, 0), Six(v, 1), Six(v, 2), Six(v, 3), Six(v, 4), Six(v, 5)), p);
  }

  lemma OddBit(x: bv32, p: nat)
    requires p < 32
    ensures Bit(Odd(x), p) == (Chosen(6, Field0(x), p) || Chosen(4, Field8(x), p) || Chosen(2, Field16(x), p) || Chosen(0, Field24(x), p))
  {
    hide Bit, Look, Or4, Chosen;
    BoxBit7(Field0(x), p);
    BoxBit5(Field8(x), p);
    BoxBit3(Field16(x), p);
    BoxBit1(Field24(x), p);
    Or4Bit(Look(SP7, Field0(x)), Look(SP5, Field8(x)), Look(SP3, Field16(x)), Look(SP1, Field24(x)), p);
  }

  lemma EvenBit(x: bv32, p: nat)
    requires p < 32
    ensures Bit(Even(x), p) == (Chosen(7, Field0(x), p) || Chosen(5, Field8(x), p) || Chosen(3, Field16(x), p) || Chosen(1, Field24(x), p))
  {
    hide Bit, Look, Or4, Chosen;
    BoxBit8(Field0(x), p);
    BoxBit6(Field8(x), p);
    BoxBit4(Field16(x), p);
    BoxBit2(Field24(x), p);
    Or4Bit(Look(SP8, Field0(x)), Look(SP6, Field8(x)), Look(SP4, Field16(x)), Look(SP2, Field24(x)), p);
  }

  lemma ChosenIs(n: nat, v: bv6, b: seq<bool>, p: nat)
    requires n < 8 && p < 32 && Feeds(n, v, b)
    ensures Chosen(n, v, p) == (Source(p) / 4 == n && Fips46.Substituted(b)[Source(p)])
  {
    hide Six, Source, Fips46.Entry, Fips46.NibbleBit, Fips46.Box;
    assert Six(v, 0) == b[6 * n + 0] && Six(v, 1) == b[6 * n + 1] && Six(v, 2) == b[6 * n + 2];
    assert Six(v, 3) == b[6 * n + 3] && Six(v, 4) == b[6 * n + 4] && Six(v, 5) == b[6 * n + 5];
  }

  lemma FBit(r: bv32, k: Subkey, p: nat)
    requires p < 32
    ensures var x, y := Xor(RotateRight4(r), k.0), Xor(r, k.1);
            Bit(F(r, k), p) == (Chosen(0, Field24(x), p) || Chosen(1, Field24(y), p) || Chosen(2, Field16(x), p) || Chosen(3, Field16(y), p) || Chosen(4, Field8(x), p) || Chosen(5, Field8(y), p) || Chosen(6, Field0(x), p) || Chosen(7, Field0(y), p))
  {
    hide Bit, Odd, Even, Or, Xor, RotateRight4, Chosen;
    OrBit(Odd(Xor(RotateRight4(r), k.0)), Even(Xor(r, k.1)), p);
    OddBit(Xor(RotateRight4(r), k.0), p);
    EvenBit(Xor(r, k.1), p);
  }

  lemma RoundBit(r: bv32, k: Subkey, half: seq<bool>, key: seq<bool>, p: nat)
    requires Turned(r, half) && Laid(k, key) && p < 32
    ensures Bit(F(r, k), p) == Fips46.Substituted(Fips46.Xor(Fips46.Expanded(half), key))[Source(p)]
  {
    var b, x, y := Fips46.Xor(Fips46.Expanded(half), key), Xor(RotateRight4(r), k.0), Xor(r, k.1);
    hide Bit, F, Source, Xor, RotateRight4, Turned, Laid, Feeds, Chosen, Fips46.Substituted, Fips46.Expanded, Fips46.Xor;
    FBit(r, k, p);
    Input1(r, k, half, key);
    Input2(r, k, half, key);
    Input3(r, k, half, key);
    Input4(r, k, half, key);
    Input5(r, k, half, key);
    Input6(r, k, half, key);
    Input7(r, k, half, key);
    Input8(r, k, half, key);
    ChosenIs(0, Field24(x), b, p);
    ChosenIs(1, Field24(y), b, p);
    ChosenIs(2, Field16(x), b, p);
    ChosenIs(3, Field16(y), b, p);
    ChosenIs(4, Field8(x), b, p);
    ChosenIs(5, Field8(y), b, p);
    ChosenIs(6, Field0(x), b, p);
    ChosenIs(7, Field0(y), b, p);
  }

  /** The round function is that of the standard: P of the boxes of E and the key. */
  lemma RoundIsStandard(r: bv32, k: Subkey, half: seq<bool>, key: seq<bool>)
    requires Turned(r, half) && Laid(k, key)
    ensures Turned(F(r, k), Fips46.RoundFunction(half, key))
  {
    assert |key| == 48;
    hide Bit, F, Laid, Fips46.Substituted, Fips46.Xor, Fips46.Expanded, Fips46.PermutationFrom;
    forall p | 0 <= p < 32
      ensures Bit(F(r, k), p) == Fips46.RoundFunction(half, key)[(p + 1) % 32]
    {
      RoundBit(r, k, half, key, p);
    }
  }
}
