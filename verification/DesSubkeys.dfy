/** The key schedule of the cipher is that of the standard, for the key that a password
    stands for. */
module DesSubkeys {
  import opened DesTables
  import opened DesKeys
  import opened DesBits
  import opened DesRound
  import Fips46

  /** The n lowest binary digits, the highest first. */
  function Binary(v: nat, n: nat): (b: seq<bool>)
    ensures |b| == n
  {
    if n == 0 then [] else Binary(v / 2, n - 1) + [v % 2 == 1]
  }

  /** Bit m of a byte, from the left. */
  predicate ByteBit(b: bv8, m: nat)
    requires m < 8
  {
    Binary(b as nat, 8)[m]
  }

  /** The key of the standard: each byte of the password from right to left, and zeros
      behind a short one. */
  function KeyText(password: seq<bv8>): (key: seq<bool>)
    ensures |key| == 64
  {
    seq(64, n requires 0 <= n < 64 => n / 8 < |password| && ByteBit(password[n / 8], 7 - n % 8))
  }

  /** The number with these digits. */
  function Eight(b0: bool, b1: bool, b2: bool, b3: bool, b4: bool, b5: bool, b6: bool, b7: bool): nat {
    128 * Fips46.Number(b0) + 64 * Fips46.Number(b1) + 32 * Fips46.Number(b2) + 16 * Fips46.Number(b3)
    + 8 * Fips46.Number(b4) + 4 * Fips46.Number(b5) + 2 * Fips46.Number(b6) + Fips46.Number(b7)
  }

  lemma ByteValue(b: bv8)
    ensures b as nat == Eight(b & 128 != 0, b & 64 != 0, b & 32 != 0, b & 16 != 0, b & 8 != 0, b & 4 != 0, b & 2 != 0, b & 1 != 0)
  {
  }

  lemma BinaryAdds(h: nat, n: nat, b: bool)
    ensures Binary(2 * h + Fips46.Number(b), n + 1) == Binary(h, n) + [b]
  {
  }

  lemma FourBinary(h: nat, n: nat, b0: bool, b1: bool, b2: bool, b3: bool)
    ensures Binary(16 * h + 8 * Fips46.Number(b0) + 4 * Fips46.Number(b1) + 2 * Fips46.Number(b2) + Fips46.Number(b3), n + 4)
            == Binary(h, n) + [b0, b1, b2, b3]
  {
    hide Fips46.Number, Binary;
    var h0 := 2 * h + Fips46.Number(b0);
    var h1 := 2 * h0 + Fips46.Number(b1);
    var h2 := 2 * h1 + Fips46.Number(b2);
    BinaryAdds(h, n, b0);
    BinaryAdds(h0, n + 1, b1);
    BinaryAdds(h1, n + 2, b2);
    BinaryAdds(h2, n + 3, b3);
    assert Binary(h, n) + [b0] + [b1] + [b2] + [b3] == Binary(h, n) + [b0, b1, b2, b3];
  }

  lemma EightBinary(b0: bool, b1: bool, b2: bool, b3: bool, b4: bool, b5: bool, b6: bool, b7: bool)
    ensures Binary(Eight(b0, b1, b2, b3, b4, b5, b6, b7), 8) == [b0, b1, b2, b3, b4, b5, b6, b7]
  {
    NoDigits();
    hide Fips46.Number, Binary;
    var h := 8 * Fips46.Number(b0) + 4 * Fips46.Number(b1) + 2 * Fips46.Number(b2) + Fips46.Number(b3);
    FourBinary(0, 0, b0, b1, b2, b3);
    FourBinary(h, 4, b4, b5, b6, b7);
    Together(b0, b1, b2, b3, b4, b5, b6, b7);
  }

  lemma NoDigits()
    ensures Binary(0, 0) == []
  {
  }

  lemma Together(b0: bool, b1: bool, b2: bool, b3: bool, b4: bool, b5: bool, b6: bool, b7: bool)
    ensures [] + [b0, b1, b2, b3] + [b4, b5, b6, b7] == [b0, b1, b2, b3, b4, b5, b6, b7]
  {
  }

  lemma BitsOf(b: bv8, b0: bool, b1: bool, b2: bool, b3: bool, b4: bool, b5: bool, b6: bool, b7: bool)
    requires b as nat == Eight(b0, b1, b2, b3, b4, b5, b6, b7)
    ensures ByteBit(b, 0) == b0 && ByteBit(b, 1) == b1 && ByteBit(b, 2) == b2 && ByteBit(b, 3) == b3
    ensures ByteBit(b, 4) == b4 && ByteBit(b, 5) == b5 && ByteBit(b, 6) == b6 && ByteBit(b, 7) == b7
  {
    hide Eight, Binary;
    EightBinary(b0, b1, b2, b3, b4, b5, b6, b7);
  }

  lemma ByteMasks(b: bv8)
    ensures (ByteBit(b, 0) <==> b & 128 != 0) && (ByteBit(b, 1) <==> b & 64 != 0)
    ensures (ByteBit(b, 2) <==> b & 32 != 0) && (ByteBit(b, 3) <==> b & 16 != 0)
    ensures (ByteBit(b, 4) <==> b & 8 != 0) && (ByteBit(b, 5) <==> b & 4 != 0)
    ensures (ByteBit(b, 6) <==> b & 2 != 0) && (ByteBit(b, 7) <==> b & 1 != 0)
  {
    hide ByteBit, Eight;
    ByteValue(b);
    BitsOf(b, b & 128 != 0, b & 64 != 0, b & 32 != 0, b & 16 != 0, b & 8 != 0, b & 4 != 0, b & 2 != 0, b & 1 != 0);
  }

  lemma Bit8Is(b: bv8, k: nat)
    requires k < 8
    ensures b & Bit8(k) != 0 <==> ByteBit(b, 7 - k)
  {
    hide ByteBit;
    ByteMasks(b);
  }

  lemma PasswordBitIs(password: seq<bv8>, n: nat)
    requires n < 64
    ensures PasswordBit(password, n) == KeyText(password)[n]
  {
    hide ByteBit, Bit8;
    if n / 8 < |password| {
      Bit8Is(password[n / 8], n % 8);
    }
  }

  lemma FirstChoices1()
    ensures PC1(0) == Fips46.Choice1From(0) && PC1(1) == Fips46.Choice1From(1) && PC1(2) == Fips46.Choice1From(2) && PC1(3) == Fips46.Choice1From(3)
    ensures PC1(4) == Fips46.Choice1From(4) && PC1(5) == Fips46.Choice1From(5) && PC1(6) == Fips46.Choice1From(6) && PC1(7) == Fips46.Choice1From(7)
    ensures PC1(8) == Fips46.Choice1From(8) && PC1(9) == Fips46.Choice1From(9) && PC1(10) == Fips46.Choice1From(10) && PC1(11) == Fips46.Choice1From(11)
    ensures PC1(12) == Fips46.Choice1From(12) && PC1(13) == Fips46.Choice1From(13)
  {
  }

  lemma FirstChoices2()
    ensures PC1(14) == Fips46.Choice1From(14) && PC1(15) == Fips46.Choice1From(15) && PC1(16) == Fips46.Choice1From(16) && PC1(17) == Fips46.Choice1From(17)
    ensures PC1(18) == Fips46.Choice1From(18) && PC1(19) == Fips46.Choice1From(19) && PC1(20) == Fips46.Choice1From(20) && PC1(21) == Fips46.Choice1From(21)
    ensures PC1(22) == Fips46.Choice1From(22) && PC1(23) == Fips46.Choice1From(23) && PC1(24) == Fips46.Choice1From(24) && PC1(25) == Fips46.Choice1From(25)
    ensures PC1(26) == Fips46.Choice1From(26) && PC1(27) == Fips46.Choice1From(27)
  {
  }

  lemma FirstChoices3()
    ensures PC1(28) == Fips46.Choice1From(28) && PC1(29) == Fips46.Choice1From(29) && PC1(30) == Fips46.Choice1From(30) && PC1(31) == Fips46.Choice1From(31)
    ensures PC1(32) == Fips46.Choice1From(32) && PC1(33) == Fips46.Choice1From(33) && PC1(34) == Fips46.Choice1From(34) && PC1(35) == Fips46.Choice1From(35)
    ensures PC1(36) == Fips46.Choice1From(36) && PC1(37) == Fips46.Choice1From(37) && PC1(38) == Fips46.Choice1From(38) && PC1(39) == Fips46.Choice1From(39)
    ensures PC1(40) == Fips46.Choice1From(40) && PC1(41) == Fips46.Choice1From(41)
  {
  }

  lemma FirstChoices4()
    ensures PC1(42) == Fips46.Choice1From(42) && PC1(43) == Fips46.Choice1From(43) && PC1(44) == Fips46.Choice1From(44) && PC1(45) == Fips46.Choice1From(45)
    ensures PC1(46) == Fips46.Choice1From(46) && PC1(47) == Fips46.Choice1From(47) && PC1(48) == Fips46.Choice1From(48) && PC1(49) == Fips46.Choice1From(49)
    ensures PC1(50) == Fips46.Choice1From(50) && PC1(51) == Fips46.Choice1From(51) && PC1(52) == Fips46.Choice1From(52) && PC1(53) == Fips46.Choice1From(53)
    ensures PC1(54) == Fips46.Choice1From(54) && PC1(55) == Fips46.Choice1From(55)
  {
  }

  lemma FirstChoiceIs(j: nat)
    requires j < 56
    ensures PC1(j) == Fips46.Choice1From(j)
  {
    hide PC1, Fips46.Choice1From;
    FirstChoices1();
    FirstChoices2();
    FirstChoices3();
    FirstChoices4();
  }

  lemma KeyBitsAreChosen(password: seq<bv8>)
    ensures KeyBits(password) == Fips46.Chosen1(KeyText(password))
  {
    hide PC1, Fips46.Choice1From, PasswordBit, KeyText;
    forall j | 0 <= j < 56
      ensures KeyBits(password)[j] == Fips46.Chosen1(KeyText(password))[j]
    {
      FirstChoiceIs(j);
      PasswordBitIs(password, PC1(j));
    }
  }

  // Rotating

  /** How far both halves have been shifted after n rounds. */
  function Total(n: nat): nat
    requires n <= 16
  {
    if n == 0 then 0 else TOTROT[n - 1]
  }

  lemma Totals()
    ensures Total(0) == 0 && Total(1) == 1 && Total(2) == 2 && Total(3) == 4 && Total(4) == 6 && Total(5) == 8
    ensures Total(6) == 10 && Total(7) == 12 && Total(8) == 14 && Total(9) == 15 && Total(10) == 17 && Total(11) == 19
    ensures Total(12) == 21 && Total(13) == 23 && Total(14) == 25 && Total(15) == 27 && Total(16) == 28
  {
  }

  lemma TotalAdds(n: nat)
    requires 0 < n <= 16
    ensures Total(n) == Total(n - 1) + Fips46.SHIFTS[n - 1]
  {
    hide Total;
    Totals();
  }

  lemma ShiftedFurther(all: seq<bool>, from: nat, half: seq<bool>, s: nat, t: nat, total: nat)
    requires total == t + s && |all| == 56 && from in {0, 28} && |half| == 28
    requires forall i | 0 <= i < 28 :: half[i] == all[from + (i + t) % 28]
    ensures forall i | 0 <= i < 28 :: Fips46.Shifted(half, s)[i] == all[from + (i + total) % 28]
  {
    forall i | 0 <= i < 28
      ensures Fips46.Shifted(half, s)[i] == all[from + (i + total) % 28]
    {
      ShiftedTwice(i, s, t);
      assert Fips46.Shifted(half, s)[i] == half[(i + s) % 28];
    }
  }

  lemma {:induction false} HalvesAre(key: seq<bool>, n: nat)
    requires |key| == 64 && n <= 16
    ensures forall i | 0 <= i < 28 :: Fips46.HalvesAfter(key, n).0[i] == Fips46.Chosen1(key)[(i + Total(n)) % 28]
    ensures forall i | 0 <= i < 28 :: Fips46.HalvesAfter(key, n).1[i] == Fips46.Chosen1(key)[28 + (i + Total(n)) % 28]
  {
    hide Fips46.Chosen1, Fips46.Shifted, Total;
    Totals();
    if n > 0 {
      HalvesAre(key, n - 1);
      TotalAdds(n);
      var before, all, s := Fips46.HalvesAfter(key, n - 1), Fips46.Chosen1(key), Fips46.SHIFTS[n - 1];
      ShiftedFurther(all, 0, before.0, s, Total(n - 1), Total(n));
      ShiftedFurther(all, 28, before.1, s, Total(n - 1), Total(n));
      assert Fips46.HalvesAfter(key, n) == (Fips46.Shifted(before.0, s), Fips46.Shifted(before.1, s));
    }
  }

  lemma ShiftedTwice(i: nat, s: nat, t: nat)
    ensures ((i + s) % 28 + t) % 28 == (i + s + t) % 28
  {
  }

  lemma SecondChoices1()
    ensures Choice(0) == Fips46.Choice2From(0) && Choice(1) == Fips46.Choice2From(1) && Choice(2) == Fips46.Choice2From(2) && Choice(3) == Fips46.Choice2From(3)
    ensures Choice(4) == Fips46.Choice2From(4) && Choice(5) == Fips46.Choice2From(5) && Choice(6) == Fips46.Choice2From(6) && Choice(7) == Fips46.Choice2From(7)
    ensures Choice(8) == Fips46.Choice2From(8) && Choice(9) == Fips46.Choice2From(9) && Choice(10) == Fips46.Choice2From(10) && Choice(11) == Fips46.Choice2From(11)
    ensures Choice(12) == Fips46.Choice2From(12) && Choice(13) == Fips46.Choice2From(13) && Choice(14) == Fips46.Choice2From(14) && Choice(15) == Fips46.Choice2From(15)
    ensures Choice(16) == Fips46.Choice2From(16) && Choice(17) == Fips46.Choice2From(17) && Choice(18) == Fips46.Choice2From(18) && Choice(19) == Fips46.Choice2From(19)
    ensures Choice(20) == Fips46.Choice2From(20) && Choice(21) == Fips46.Choice2From(21) && Choice(22) == Fips46.Choice2From(22) && Choice(23) == Fips46.Choice2From(23)
  {
  }

  lemma SecondChoices2()
    ensures Choice(24) == Fips46.Choice2From(24) && Choice(25) == Fips46.Choice2From(25) && Choice(26) == Fips46.Choice2From(26) && Choice(27) == Fips46.Choice2From(27)
    ensures Choice(28) == Fips46.Choice2From(28) && Choice(29) == Fips46.Choice2From(29) && Choice(30) == Fips46.Choice2From(30) && Choice(31) == Fips46.Choice2From(31)
    ensures Choice(32) == Fips46.Choice2From(32) && Choice(33) == Fips46.Choice2From(33) && Choice(34) == Fips46.Choice2From(34) && Choice(35) == Fips46.Choice2From(35)
    ensures Choice(36) == Fips46.Choice2From(36) && Choice(37) == Fips46.Choice2From(37) && Choice(38) == Fips46.Choice2From(38) && Choice(39) == Fips46.Choice2From(39)
    ensures Choice(40) == Fips46.Choice2From(40) && Choice(41) == Fips46.Choice2From(41) && Choice(42) == Fips46.Choice2From(42) && Choice(43) == Fips46.Choice2From(43)
    ensures Choice(44) == Fips46.Choice2From(44) && Choice(45) == Fips46.Choice2From(45) && Choice(46) == Fips46.Choice2From(46) && Choice(47) == Fips46.Choice2From(47)
  {
  }

  lemma SecondChoiceIs(j: nat)
    requires j < 48
    ensures Choice(j) == Fips46.Choice2From(j)
  {
    hide Choice, Fips46.Choice2From;
    SecondChoices1();
    SecondChoices2();
  }

  /** The selected bits are those of the standard's key for the round. */
  lemma SelectedIsRoundKey(key: seq<bool>, i: nat, h: nat, j: nat)
    requires |key| == 64 && i < 16 && h < 2 && j < 24
    ensures Selected(Fips46.Chosen1(key), i, h)[j] == Fips46.RoundKey(key, i + 1)[24 * h + j]
  {
    hide Choice, Fips46.Choice2From, Fips46.Chosen1, Fips46.HalvesAfter;
    var q := 24 * h + j;
    SecondChoiceIs(q);
    HalvesAre(key, i + 1);
    var cd, c := Fips46.HalvesAfter(key, i + 1), Choice(q);
    assert Selected(Fips46.Chosen1(key), i, h)[j] == Fips46.Chosen1(key)[RotatedFrom(c, TOTROT[i])];
    assert Fips46.RoundKey(key, i + 1)[q] == (cd.0 + cd.1)[c];
    if c < 28 {
      assert cd.0[c] == Fips46.Chosen1(key)[(c + TOTROT[i]) % 28];
    } else {
      assert cd.1[c - 28] == Fips46.Chosen1(key)[28 + (c - 28 + TOTROT[i]) % 28];
    }
  }

  // Laying out

  lemma {:induction false} PackedHas(s: seq<bool>, n: nat, k: nat)
    requires k < n <= |s| <= 24
    ensures On(Packed(s, n), OneBit(23 - k)) == s[k]
  {
    hide On, OneBit, Or, Apart;
    if k == n - 1 {
      PackedLeaves(s, n - 1, 24 - n);
      ApartMeans(Packed(s, n - 1), OneBit(24 - n));
      OneBitIsSome(24 - n);
    } else {
      PackedHas(s, n - 1, k);
      BitsDiffer(24 - n, 23 - k);
      ApartMeans(OneBit(24 - n), OneBit(23 - k));
    }
    OrOn(Packed(s, n - 1), OneBit(24 - n), OneBit(23 - k));
  }

  lemma RawBit(bits: seq<bool>, i: nat, h: nat, j: nat)
    requires |bits| == 56 && i < 16 && h < 2 && j < 24
    ensures Bit(Raw(bits, i, h), 8 + j) == Selected(bits, i, h)[j]
  {
    hide On, OneBit, Packed, Selected, Mask;
    MaskIsOneBit(8 + j);
    PackedHas(Selected(bits, i, h), 24, j);
  }

  lemma Cook0Masks(a: bv32, b: bv32)
    ensures (Cook0(a, b) & 0x20000000 != 0 <==> a & 0x00800000 != 0) && (Cook0(a, b) & 0x10000000 != 0 <==> a & 0x00400000 != 0)
    ensures (Cook0(a, b) & 0x08000000 != 0 <==> a & 0x00200000 != 0) && (Cook0(a, b) & 0x04000000 != 0 <==> a & 0x00100000 != 0)
    ensures (Cook0(a, b) & 0x02000000 != 0 <==> a & 0x00080000 != 0) && (Cook0(a, b) & 0x01000000 != 0 <==> a & 0x00040000 != 0)
    ensures (Cook0(a, b) & 0x00200000 != 0 <==> a & 0x00000800 != 0) && (Cook0(a, b) & 0x00100000 != 0 <==> a & 0x00000400 != 0)
    ensures (Cook0(a, b) & 0x00080000 != 0 <==> a & 0x00000200 != 0) && (Cook0(a, b) & 0x00040000 != 0 <==> a & 0x00000100 != 0)
    ensures (Cook0(a, b) & 0x00020000 != 0 <==> a & 0x00000080 != 0) && (Cook0(a, b) & 0x00010000 != 0 <==> a & 0x00000040 != 0)
    ensures (Cook0(a, b) & 0x00002000 != 0 <==> b & 0x00800000 != 0) && (Cook0(a, b) & 0x00001000 != 0 <==> b & 0x00400000 != 0)
    ensures (Cook0(a, b) & 0x00000800 != 0 <==> b & 0x00200000 != 0) && (Cook0(a, b) & 0x00000400 != 0 <==> b & 0x00100000 != 0)
    ensures (Cook0(a, b) & 0x00000200 != 0 <==> b & 0x00080000 != 0) && (Cook0(a, b) & 0x00000100 != 0 <==> b & 0x00040000 != 0)
    ensures (Cook0(a, b) & 0x00000020 != 0 <==> b & 0x00000800 != 0) && (Cook0(a, b) & 0x00000010 != 0 <==> b & 0x00000400 != 0)
    ensures (Cook0(a, b) & 0x00000008 != 0 <==> b & 0x00000200 != 0) && (Cook0(a, b) & 0x00000004 != 0 <==> b & 0x00000100 != 0)
    ensures (Cook0(a, b) & 0x00000002 != 0 <==> b & 0x00000080 != 0) && (Cook0(a, b) & 0x00000001 != 0 <==> b & 0x00000040 != 0)
  {
  }

  lemma Cook1Masks(a: bv32, b: bv32)
    ensures (Cook1(a, b) & 0x20000000 != 0 <==> a & 0x00020000 != 0) && (Cook1(a, b) & 0x10000000 != 0 <==> a & 0x00010000 != 0)
    ensures (Cook1(a, b) & 0x08000000 != 0 <==> a & 0x00008000 != 0) && (Cook1(a, b) & 0x04000000 != 0 <==> a & 0x00004000 != 0)
    ensures (Cook1(a, b) & 0x02000000 != 0 <==> a & 0x00002000 != 0) && (Cook1(a, b) & 0x01000000 != 0 <==> a & 0x00001000 != 0)
    ensures (Cook1(a, b) & 0x00200000 != 0 <==> a & 0x00000020 != 0) && (Cook1(a, b) & 0x00100000 != 0 <==> a & 0x00000010 != 0)
    ensures (Cook1(a, b) & 0x00080000 != 0 <==> a & 0x00000008 != 0) && (Cook1(a, b) & 0x00040000 != 0 <==> a & 0x00000004 != 0)
    ensures (Cook1(a, b) & 0x00020000 != 0 <==> a & 0x00000002 != 0) && (Cook1(a, b) & 0x00010000 != 0 <==> a & 0x00000001 != 0)
    ensures (Cook1(a, b) & 0x00002000 != 0 <==> b & 0x00020000 != 0) && (Cook1(a, b) & 0x00001000 != 0 <==> b & 0x00010000 != 0)
    ensures (Cook1(a, b) & 0x00000800 != 0 <==> b & 0x00008000 != 0) && (Cook1(a, b) & 0x00000400 != 0 <==> b & 0x00004000 != 0)
    ensures (Cook1(a, b) & 0x00000200 != 0 <==> b & 0x00002000 != 0) && (Cook1(a, b) & 0x00000100 != 0 <==> b & 0x00001000 != 0)
    ensures (Cook1(a, b) & 0x00000020 != 0 <==> b & 0x00000020 != 0) && (Cook1(a, b) & 0x00000010 != 0 <==> b & 0x00000010 != 0)
    ensures (Cook1(a, b) & 0x00000008 != 0 <==> b & 0x00000008 != 0) && (Cook1(a, b) & 0x00000004 != 0 <==> b & 0x00000004 != 0)
    ensures (Cook1(a, b) & 0x00000002 != 0 <==> b & 0x00000002 != 0) && (Cook1(a, b) & 0x00000001 != 0 <==> b & 0x00000001 != 0)
  {
  }

  lemma Cook0Bits(a: bv32, b: bv32)
    ensures Bit(Cook0(a, b), 2) == Bit(a, 8) && Bit(Cook0(a, b), 3) == Bit(a, 9) && Bit(Cook0(a, b), 4) == Bit(a, 10)
    ensures Bit(Cook0(a, b), 5) == Bit(a, 11) && Bit(Cook0(a, b), 6) == Bit(a, 12) && Bit(Cook0(a, b), 7) == Bit(a, 13)
    ensures Bit(Cook0(a, b), 10) == Bit(a, 20) && Bit(Cook0(a, b), 11) == Bit(a, 21) && Bit(Cook0(a, b), 12) == Bit(a, 22)
    ensures Bit(Cook0(a, b), 13) == Bit(a, 23) && Bit(Cook0(a, b), 14) == Bit(a, 24) && Bit(Cook0(a, b), 15) == Bit(a, 25)
    ensures Bit(Cook0(a, b), 18) == Bit(b, 8) && Bit(Cook0(a, b), 19) == Bit(b, 9) && Bit(Cook0(a, b), 20) == Bit(b, 10)
    ensures Bit(Cook0(a, b), 21) == Bit(b, 11) && Bit(Cook0(a, b), 22) == Bit(b, 12) && Bit(Cook0(a, b), 23) == Bit(b, 13)
    ensures Bit(Cook0(a, b), 26) == Bit(b, 20) && Bit(Cook0(a, b), 27) == Bit(b, 21) && Bit(Cook0(a, b), 28) == Bit(b, 22)
    ensures Bit(Cook0(a, b), 29) == Bit(b, 23) && Bit(Cook0(a, b), 30) == Bit(b, 24) && Bit(Cook0(a, b), 31) == Bit(b, 25)
  {
    hide Bit, Cook0;
    Cook0Masks(a, b);
    BitRow1(a);
    BitRow2(a);
    BitRow3(a);
    BitRow1(b);
    BitRow2(b);
    BitRow3(b);
    BitRow0(Cook0(a, b));
    BitRow1(Cook0(a, b));
    BitRow2(Cook0(a, b));
    BitRow3(Cook0(a, b));
  }

  lemma Cook1Bits(a: bv32, b: bv32)
    ensures Bit(Cook1(a, b), 2) == Bit(a, 14) && Bit(Cook1(a, b), 3) == Bit(a, 15) && Bit(Cook1(a, b), 4) == Bit(a, 16)
    ensures Bit(Cook1(a, b), 5) == Bit(a, 17) && Bit(Cook1(a, b), 6) == Bit(a, 18) && Bit(Cook1(a, b), 7) == Bit(a, 19)
    ensures Bit(Cook1(a, b), 10) == Bit(a, 26) && Bit(Cook1(a, b), 11) == Bit(a, 27) && Bit(Cook1(a, b), 12) == Bit(a, 28)
    ensures Bit(Cook1(a, b), 13) == Bit(a, 29) && Bit(Cook1(a, b), 14) == Bit(a, 30) && Bit(Cook1(a, b), 15) == Bit(a, 31)
    ensures Bit(Cook1(a, b), 18) == Bit(b, 14) && Bit(Cook1(a, b), 19) == Bit(b, 15) && Bit(Cook1(a, b), 20) == Bit(b, 16)
    ensures Bit(Cook1(a, b), 21) == Bit(b, 17) && Bit(Cook1(a, b), 22) == Bit(b, 18) && Bit(Cook1(a, b), 23) == Bit(b, 19)
    ensures Bit(Cook1(a, b), 26) == Bit(b, 26) && Bit(Cook1(a, b), 27) == Bit(b, 27) && Bit(Cook1(a, b), 28) == Bit(b, 28)
    ensures Bit(Cook1(a, b), 29) == Bit(b, 29) && Bit(Cook1(a, b), 30) == Bit(b, 30) && Bit(Cook1(a, b), 31) == Bit(b, 31)
  {
    hide Bit, Cook1;
    Cook1Masks(a, b);
    BitRow1(a);
    BitRow2(a);
    BitRow3(a);
    BitRow1(b);
    BitRow2(b);
    BitRow3(b);
    BitRow0(Cook1(a, b));
    BitRow1(Cook1(a, b));
    BitRow2(Cook1(a, b));
    BitRow3(Cook1(a, b));
  }

  ghost predicate CookedAt(a: bv32, b: bv32, c: nat) {
    c < 48 ==> LaidBit((Cook0(a, b), Cook1(a, b)), c) == Bit(if c < 24 then a else b, 8 + c % 24)
  }

  lemma Cooks1(a: bv32, b: bv32)
    ensures CookedAt(a, b, 0) && CookedAt(a, b, 1) && CookedAt(a, b, 2) && CookedAt(a, b, 3)
    ensures CookedAt(a, b, 4) && CookedAt(a, b, 5) && CookedAt(a, b, 6) && CookedAt(a, b, 7)
  {
    hide Bit, Cook0, Cook1;
    Cook0Bits(a, b);
    Cook1Bits(a, b);
  }

  lemma Cooks2(a: bv32, b: bv32)
    ensures CookedAt(a, b, 8) && CookedAt(a, b, 9) && CookedAt(a, b, 10) && CookedAt(a, b, 11)
    ensures CookedAt(a, b, 12) && CookedAt(a, b, 13) && CookedAt(a, b, 14) && CookedAt(a, b, 15)
  {
    hide Bit, Cook0, Cook1;
    Cook0Bits(a, b);
    Cook1Bits(a, b);
  }

  lemma Cooks3(a: bv32, b: bv32)
    ensures CookedAt(a, b, 16) && CookedAt(a, b, 17) && CookedAt(a, b, 18) && CookedAt(a, b, 19)
    ensures CookedAt(a, b, 20) && CookedAt(a, b, 21) && CookedAt(a, b, 22) && CookedAt(a, b, 23)
  {
    hide Bit, Cook0, Cook1;
    Cook0Bits(a, b);
    Cook1Bits(a, b);
  }

  lemma Cooks4(a: bv32, b: bv32)
    ensures CookedAt(a, b, 24) && CookedAt(a, b, 25) && CookedAt(a, b, 26) && CookedAt(a, b, 27)
    ensures CookedAt(a, b, 28) && CookedAt(a, b, 29) && CookedAt(a, b, 30) && CookedAt(a, b, 31)
  {
    hide Bit, Cook0, Cook1;
    Cook0Bits(a, b);
    Cook1Bits(a, b);
  }

  lemma Cooks5(a: bv32, b: bv32)
    ensures CookedAt(a, b, 32) && CookedAt(a, b, 33) && CookedAt(a, b, 34) && CookedAt(a, b, 35)
    ensures CookedAt(a, b, 36) && CookedAt(a, b, 37) && CookedAt(a, b, 38) && CookedAt(a, b, 39)
  {
    hide Bit, Cook0, Cook1;
    Cook0Bits(a, b);
    Cook1Bits(a, b);
  }

  lemma Cooks6(a: bv32, b: bv32)
    ensures CookedAt(a, b, 40) && CookedAt(a, b, 41) && CookedAt(a, b, 42) && CookedAt(a, b, 43)
    ensures CookedAt(a, b, 44) && CookedAt(a, b, 45) && CookedAt(a, b, 46) && CookedAt(a, b, 47)
  {
    hide Bit, Cook0, Cook1;
    Cook0Bits(a, b);
    Cook1Bits(a, b);
  }

  lemma CooksEverywhere(a: bv32, b: bv32, c: nat)
    ensures c < 48 ==> CookedAt(a, b, c)
  {
    hide CookedAt;
    Cooks1(a, b);
    Cooks2(a, b);
    Cooks3(a, b);
    Cooks4(a, b);
    Cooks5(a, b);
    Cooks6(a, b);
  }

  /** Each pair of words holds the standard's key for its round, for every password. */
  lemma ScheduleIsStandard(password: seq<bv8>, i: nat)
    requires i < 16
    ensures Laid(Schedule(password)[i], Fips46.RoundKey(KeyText(password), i + 1))
  {
    var key := KeyText(password);
    var bits := KeyBits(password);
    KeyBitsAreChosen(password);
    hide KeyText, KeyBits, Fips46.Chosen1, Fips46.RoundKey, Cook0, Cook1, Raw, Bit, Selected, LaidBit;
    forall c | 0 <= c < 48
      ensures Fips46.RoundKey(key, i + 1)[c] == LaidBit(SubkeyOf(bits, i), c)
    {
      CooksEverywhere(Raw(bits, i, 0), Raw(bits, i, 1), c);
      RawBit(bits, i, c / 24, c % 24);
      SelectedIsRoundKey(key, i, c / 24, c % 24);
    }
  }
}
