/** The cipher is the Data Encryption Standard, on every password and every block. */
module DesStandard {
  import opened DesTables
  import opened DesKeys
  import opened DesWords
  import opened Des
  import opened DesBits
  import opened DesWires
  import opened DesRound
  import opened DesSubkeys
  import Fips46

  /** The bits of a block of eight bytes, from left to right. */
  function BlockText(text: seq<bv8>): (b: seq<bool>)
    requires |text| == 8
    ensures |b| == 64
  {
    seq(64, n requires 0 <= n < 64 => ByteBit(text[n / 8], n % 8))
  }

  // Bytes and words

  lemma WordMasks(a: bv8, b: bv8, c: bv8, d: bv8)
    ensures (Word(a, b, c, d) & 0x80000000 != 0 <==> a & 128 != 0) && (Word(a, b, c, d) & 0x40000000 != 0 <==> a & 64 != 0)
    ensures (Word(a, b, c, d) & 0x20000000 != 0 <==> a & 32 != 0) && (Word(a, b, c, d) & 0x10000000 != 0 <==> a & 16 != 0)
    ensures (Word(a, b, c, d) & 0x08000000 != 0 <==> a & 8 != 0) && (Word(a, b, c, d) & 0x04000000 != 0 <==> a & 4 != 0)
    ensures (Word(a, b, c, d) & 0x02000000 != 0 <==> a & 2 != 0) && (Word(a, b, c, d) & 0x01000000 != 0 <==> a & 1 != 0)
    ensures (Word(a, b, c, d) & 0x00800000 != 0 <==> b & 128 != 0) && (Word(a, b, c, d) & 0x00400000 != 0 <==> b & 64 != 0)
    ensures (Word(a, b, c, d) & 0x00200000 != 0 <==> b & 32 != 0) && (Word(a, b, c, d) & 0x00100000 != 0 <==> b & 16 != 0)
    ensures (Word(a, b, c, d) & 0x00080000 != 0 <==> b & 8 != 0) && (Word(a, b, c, d) & 0x00040000 != 0 <==> b & 4 != 0)
    ensures (Word(a, b, c, d) & 0x00020000 != 0 <==> b & 2 != 0) && (Word(a, b, c, d) & 0x00010000 != 0 <==> b & 1 != 0)
    ensures (Word(a, b, c, d) & 0x00008000 != 0 <==> c & 128 != 0) && (Word(a, b, c, d) & 0x00004000 != 0 <==> c & 64 != 0)
    ensures (Word(a, b, c, d) & 0x00002000 != 0 <==> c & 32 != 0) && (Word(a, b, c, d) & 0x00001000 != 0 <==> c & 16 != 0)
    ensures (Word(a, b, c, d) & 0x00000800 != 0 <==> c & 8 != 0) && (Word(a, b, c, d) & 0x00000400 != 0 <==> c & 4 != 0)
    ensures (Word(a, b, c, d) & 0x00000200 != 0 <==> c & 2 != 0) && (Word(a, b, c, d) & 0x00000100 != 0 <==> c & 1 != 0)
    ensures (Word(a, b, c, d) & 0x00000080 != 0 <==> d & 128 != 0) && (Word(a, b, c, d) & 0x00000040 != 0 <==> d & 64 != 0)
    ensures (Word(a, b, c, d) & 0x00000020 != 0 <==> d & 32 != 0) && (Word(a, b, c, d) & 0x00000010 != 0 <==> d & 16 != 0)
    ensures (Word(a, b, c, d) & 0x00000008 != 0 <==> d & 8 != 0) && (Word(a, b, c, d) & 0x00000004 != 0 <==> d & 4 != 0)
    ensures (Word(a, b, c, d) & 0x00000002 != 0 <==> d & 2 != 0) && (Word(a, b, c, d) & 0x00000001 != 0 <==> d & 1 != 0)
  {
  }

  ghost predicate WordAt(a: bv8, b: bv8, c: bv8, d: bv8, i: nat) {
    i < 32 ==> Bit(Word(a, b, c, d), i) == ByteBit(if i < 8 then a else if i < 16 then b else if i < 24 then c else d, i % 8)
  }

  lemma WordRow0(a: bv8, b: bv8, c: bv8, d: bv8)
    ensures WordAt(a, b, c, d, 0) && WordAt(a, b, c, d, 1) && WordAt(a, b, c, d, 2) && WordAt(a, b, c, d, 3)
    ensures WordAt(a, b, c, d, 4) && WordAt(a, b, c, d, 5) && WordAt(a, b, c, d, 6) && WordAt(a, b, c, d, 7)
  {
    hide Bit, ByteBit, Word;
    WordMasks(a, b, c, d);
    BitRow0(Word(a, b, c, d));
    ByteMasks(a);
  }

  lemma WordRow1(a: bv8, b: bv8, c: bv8, d: bv8)
    ensures WordAt(a, b, c, d, 8) && WordAt(a, b, c, d, 9) && WordAt(a, b, c, d, 10) && WordAt(a, b, c, d, 11)
    ensures WordAt(a, b, c, d, 12) && WordAt(a, b, c, d, 13) && WordAt(a, b, c, d, 14) && WordAt(a, b, c, d, 15)
  {
    hide Bit, ByteBit, Word;
    WordMasks(a, b, c, d);
    BitRow1(Word(a, b, c, d));
    ByteMasks(b);
  }

  lemma WordRow2(a: bv8, b: bv8, c: bv8, d: bv8)
    ensures WordAt(a, b, c, d, 16) && WordAt(a, b, c, d, 17) && WordAt(a, b, c, d, 18) && WordAt(a, b, c, d, 19)
    ensures WordAt(a, b, c, d, 20) && WordAt(a, b, c, d, 21) && WordAt(a, b, c, d, 22) && WordAt(a, b, c, d, 23)
  {
    hide Bit, ByteBit, Word;
    WordMasks(a, b, c, d);
    BitRow2(Word(a, b, c, d));
    ByteMasks(c);
  }

  lemma WordRow3(a: bv8, b: bv8, c: bv8, d: bv8)
    ensures WordAt(a, b, c, d, 24) && WordAt(a, b, c, d, 25) && WordAt(a, b, c, d, 26) && WordAt(a, b, c, d, 27)
    ensures WordAt(a, b, c, d, 28) && WordAt(a, b, c, d, 29) && WordAt(a, b, c, d, 30) && WordAt(a, b, c, d, 31)
  {
    hide Bit, ByteBit, Word;
    WordMasks(a, b, c, d);
    BitRow3(Word(a, b, c, d));
    ByteMasks(d);
  }

  lemma WordBit(a: bv8, b: bv8, c: bv8, d: bv8, i: nat)
    ensures i < 32 ==> WordAt(a, b, c, d, i)
  {
    hide WordAt;
    WordRow0(a, b, c, d);
    WordRow1(a, b, c, d);
    WordRow2(a, b, c, d);
    WordRow3(a, b, c, d);
  }

  lemma JoinBit(text: seq<bv8>, i: nat)
    requires |text| == 8 && i < 64
    ensures BlockBit(Join(text), i) == BlockText(text)[i]
  {
    hide Bit, Word, ByteBit;
    if i < 32 {
      WordBit(text[0], text[1], text[2], text[3], i);
    } else {
      WordBit(text[4], text[5], text[6], text[7], i - 32);
    }
  }

  lemma SplitBit(s: Halves, i: nat)
    requires i < 64
    ensures BlockText(Split(s))[i] == BlockBit(s, i)
  {
    hide Join, Split, BlockBit, BlockText;
    JoinUndoesSplit(s);
    JoinBit(Split(s), i);
  }

  // The rounds

  /** Both words are the halves of the standard, turned by one bit. */
  ghost predicate BothTurned(s: Halves, lr: (seq<bool>, seq<bool>)) {
    Turned(s.0, lr.0) && Turned(s.1, lr.1)
  }

  lemma OpensStandard(text: seq<bv8>)
    requires |text| == 8
    ensures var first := Fips46.Initial(BlockText(text));
            BothTurned(Open(Join(text)), (first[..32], first[32..]))
  {
    hide Open, Join, Bit, BlockText, BlockBit, Fips46.InitialFrom;
    var s, block := Join(text), BlockText(text);
    var first := Fips46.Initial(block);
    forall i | 0 <= i < 32
      ensures Bit(Open(s).0, i) == first[..32][(i + 1) % 32] && Bit(Open(s).1, i) == first[32..][(i + 1) % 32]
    {
      OpenBits(s, i);
      JoinBit(text, Fips46.InitialFrom((i + 1) % 32));
      JoinBit(text, Fips46.InitialFrom(32 + (i + 1) % 32));
    }
  }

  lemma XorTurned(a: bv32, b: bv32, p: seq<bool>, q: seq<bool>)
    requires Turned(a, p) && Turned(b, q)
    ensures Turned(Xor(a, b), Fips46.Xor(p, q))
  {
    hide Bit, Xor;
    forall i | 0 <= i < 32
      ensures Bit(Xor(a, b), i) == Fips46.Xor(p, q)[(i + 1) % 32]
    {
      XorBit(a, b, i);
    }
  }

  lemma RoundTurned(s: Halves, k: Subkey, lr: (seq<bool>, seq<bool>), key: seq<bool>)
    requires BothTurned(s, lr) && Laid(k, key)
    ensures BothTurned(Round(s, k), (lr.1, Fips46.Xor(lr.0, Fips46.RoundFunction(lr.1, key))))
  {
    RoundIsStandard(s.1, k, lr.1, key);
    hide F, Xor, Laid, Fips46.Xor, Fips46.RoundFunction;
    XorTurned(s.0, F(s.1, k), lr.0, Fips46.RoundFunction(lr.1, key));
  }

  lemma NextAfter(block: seq<bool>, key: seq<bool>, n: nat)
    requires |block| == 64 && |key| == 64 && 0 < n <= 16
    ensures var lr := Fips46.AfterRounds(block, key, n - 1);
            Fips46.AfterRounds(block, key, n) == (lr.1, Fips46.Xor(lr.0, Fips46.RoundFunction(lr.1, Fips46.RoundKey(key, n))))
  {
  }

  lemma NoneAfter(block: seq<bool>, key: seq<bool>)
    requires |block| == 64 && |key| == 64
    ensures Fips46.AfterRounds(block, key, 0) == (Fips46.Initial(block)[..32], Fips46.Initial(block)[32..])
  {
  }

  lemma {:induction false} RoundsAreStandard(s: Halves, block: seq<bool>, password: seq<bv8>, n: nat)
    requires |block| == 64 && n <= 16
    requires BothTurned(s, (Fips46.Initial(block)[..32], Fips46.Initial(block)[32..]))
    ensures BothTurned(Rounds(s, Schedule(password)[..n]), Fips46.AfterRounds(block, KeyText(password), n))
  {
    hide KeyText, Schedule, Rounds, Round, Laid, BothTurned, Fips46.AfterRounds, Fips46.Initial;
    var key, ks := KeyText(password), Schedule(password);
    if n == 0 {
      NoRounds(s, ks);
      NoneAfter(block, key);
    } else {
      RoundsAreStandard(s, block, password, n - 1);
      ScheduleIsStandard(password, n - 1);
      NextRound(s, ks, n - 1);
      NextAfter(block, key, n);
      RoundTurned(Rounds(s, ks[..n - 1]), ks[n - 1], Fips46.AfterRounds(block, key, n - 1), Fips46.RoundKey(key, n));
    }
  }

  lemma TurnedBack(q: nat)
    requires q < 64
    ensures ((q + 31) % 32 + 1) % 32 == q % 32
  {
  }

  lemma UnturnedBit(s: Halves, lr: (seq<bool>, seq<bool>), q: nat)
    requires BothTurned(s, lr) && q < 64
    ensures Unturned(s, q) == (lr.1 + lr.0)[q]
  {
    hide Bit;
    TurnedBack(q);
    if q < 32 {
      assert Bit(s.1, (q + 31) % 32) == lr.1[q];
    } else {
      assert Bit(s.0, (q + 31) % 32) == lr.0[q - 32];
    }
  }

  lemma CloseBit(s: Halves, i: nat)
    requires i < 64
    ensures BlockBit(Close(s), i) == Unturned(s, Fips46.FinalFrom(i))
  {
    hide Close, Bit, Fips46.FinalFrom, Unturned;
    if i < 32 {
      CloseBits(s, i);
    } else {
      CloseBits(s, i - 32);
    }
  }

  lemma FinalAt(b: seq<bool>, i: nat)
    requires |b| == 64 && i < 64
    ensures Fips46.Final(b)[i] == b[Fips46.FinalFrom(i)]
  {
    hide Fips46.FinalFrom;
  }

  lemma ClosesStandard(s: Halves, lr: (seq<bool>, seq<bool>), i: nat)
    requires BothTurned(s, lr) && i < 64
    ensures BlockBit(Close(s), i) == Fips46.Final(lr.1 + lr.0)[i]
  {
    assert |lr.1 + lr.0| == 64;
    hide Close, BlockBit, Fips46.FinalFrom, Fips46.Final, Unturned, BothTurned;
    CloseBit(s, i);
    FinalAt(lr.1 + lr.0, i);
    UnturnedBit(s, lr, Fips46.FinalFrom(i));
  }

  lemma EncipheredIs(block: seq<bool>, key: seq<bool>)
    requires |block| == 64 && |key| == 64
    ensures var lr := Fips46.AfterRounds(block, key, 16);
            Fips46.Enciphered(block, key) == Fips46.Final(lr.1 + lr.0)
  {
  }

  /** For every password and block: what the cipher makes of it is what FIPS 46-3 says,
      for the key whose bytes are the password's read from right to left. */
  lemma EncryptIsStandard(text: seq<bv8>, password: seq<bv8>)
    requires |text| == 8
    ensures BlockText(Encrypt(text, Schedule(password))) == Fips46.Enciphered(BlockText(text), KeyText(password))
  {
    hide Open, Close, Join, Split, Rounds, BlockText, BlockBit, KeyText, Schedule, BothTurned, Fips46.AfterRounds, Fips46.Final, Fips46.Initial, Fips46.Enciphered;
    var block, key, ks := BlockText(text), KeyText(password), Schedule(password);
    assert ks[..16] == ks;
    OpensStandard(text);
    RoundsAreStandard(Open(Join(text)), block, password, 16);
    EncipheredIs(block, key);
    var s, lr := Rounds(Open(Join(text)), ks), Fips46.AfterRounds(block, key, 16);
    forall i | 0 <= i < 64
      ensures BlockText(Split(Close(s)))[i] == Fips46.Final(lr.1 + lr.0)[i]
    {
      SplitBit(Close(s), i);
      ClosesStandard(s, lr, i);
    }
  }
}
