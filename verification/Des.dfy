/** The DES cipher on eight bytes: complementation and invertibility. */
module Des {
  import opened DesTables
  import opened DesKeys
  import opened DesWords

  // The round function

  ghost predicate IsBox(box: seq<seq<bv32>>) {
    |box| == 8 && forall r | 0 <= r < 8 :: |box[r]| == 8
  }

  function Look(box: seq<seq<bv32>>, i: bv6): bv32
    requires IsBox(box)
  {
    box[i as nat / 8][i as nat % 8]
  }

  function Odd(x: bv32): bv32 {
    Or4(Look(SP7, Field0(x)), Look(SP5, Field8(x)), Look(SP3, Field16(x)), Look(SP1, Field24(x)))
  }

  function Even(x: bv32): bv32 {
    Or4(Look(SP8, Field0(x)), Look(SP6, Field8(x)), Look(SP4, Field16(x)), Look(SP2, Field24(x)))
  }

  function F(r: bv32, k: Subkey): bv32 {
    Or(Odd(Xor(RotateRight4(r), k.0)), Even(Xor(r, k.1)))
  }

  // The opening permutation and its inverse, in steps that undo themselves

  function Open(s: Halves): Halves {
    var a := Swap4(s.0, s.1);
    var b := Swap16(a.0, a.1);
    var c := Swap2(b.1, b.0);
    var d := Swap8(c.0, c.1);
    var e := SwapOdd(d.1, RotateLeft(d.0));
    (RotateLeft(e.0), e.1)
  }

  /** The closing permutation, as the two words that are put out. */
  function Close(s: Halves): Halves {
    var e := SwapOdd(s.0, RotateRight(s.1));
    var d := Swap8(RotateRight(e.0), e.1);
    var c := Swap2(d.0, d.1);
    var b := Swap16(c.1, c.0);
    var a := Swap4(b.0, b.1);
    a
  }

  function Round(s: Halves, k: Subkey): Halves {
    (s.1, Xor(s.0, F(s.1, k)))
  }

  function Rounds(s: Halves, ks: seq<Subkey>): Halves {
    if ks == [] then s else Round(Rounds(s, ks[..|ks| - 1]), ks[|ks| - 1])
  }

  function Cipher(s: Halves, ks: seq<Subkey>): Halves {
    Close(Rounds(Open(s), ks))
  }

  function Join(text: seq<bv8>): Halves
    requires |text| == 8
  {
    (Word(text[0], text[1], text[2], text[3]), Word(text[4], text[5], text[6], text[7]))
  }

  function Split(s: Halves): (text: seq<bv8>)
    ensures |text| == 8
  {
    Spread(s.0) + Spread(s.1)
  }

  /** What enc8 computes with given subkeys. */
  function Encrypt(text: seq<bv8>, ks: seq<Subkey>): (r: seq<bv8>)
    requires |text| == 8
    ensures |r| == 8
  {
    Split(Cipher(Join(text), ks))
  }

  // Undoing

  /** The closing permutation is the exact inverse of the opening one, with the
      halves exchanged. */
  lemma CloseUndoesOpen(s: Halves)
    ensures Close(Turn(Open(s))) == s
    ensures Open(Close(s)) == Turn(s)
  {
    hide Swap4, Swap16, Swap2, Swap8, SwapOdd, RotateLeft, RotateRight;
    OpenThenClose(s);
    CloseThenOpen(s);
  }

  lemma OpenThenClose(s: Halves)
    ensures Close(Turn(Open(s))) == s
  {
    hide Swap4, Swap16, Swap2, Swap8, SwapOdd, RotateLeft, RotateRight;
    var a := Swap4(s.0, s.1);
    SwapsUndo(s.0, s.1);
    var b := Swap16(a.0, a.1);
    SwapsUndo(a.0, a.1);
    var c := Swap2(b.1, b.0);
    SwapsUndo(b.1, b.0);
    var d := Swap8(c.0, c.1);
    SwapsUndo(c.0, c.1);
    RotationsUndo(d.0);
    SwapsUndo(d.1, RotateLeft(d.0));
    var e := SwapOdd(d.1, RotateLeft(d.0));
    RotationsUndo(e.0);
    SwapOddTurns(e.0, e.1);
  }

  lemma CloseThenOpen(s: Halves)
    ensures Open(Close(s)) == Turn(s)
  {
    hide Swap4, Swap16, Swap2, Swap8, SwapOdd, RotateLeft, RotateRight;
    RotationsUndo(s.1);
    var e := SwapOdd(s.0, RotateRight(s.1));
    SwapsUndo(s.0, RotateRight(s.1));
    RotationsUndo(e.0);
    var d := Swap8(RotateRight(e.0), e.1);
    SwapsUndo(RotateRight(e.0), e.1);
    var c := Swap2(d.0, d.1);
    SwapsUndo(d.0, d.1);
    var b := Swap16(c.1, c.0);
    SwapsUndo(c.1, c.0);
    SwapsUndo(b.0, b.1);
    SwapOddTurns(e.0, e.1);
  }

  function Backwards(ks: seq<Subkey>): (r: seq<Subkey>)
    ensures |r| == |ks|
  {
    seq(|ks|, i requires 0 <= i < |ks| => ks[|ks| - 1 - i])
  }

  lemma {:induction false} RoundsFrom(s: Halves, k: Subkey, ks: seq<Subkey>)
    ensures Rounds(s, [k] + ks) == Rounds(Round(s, k), ks)
  {
    hide Round;
    if ks == [] {
      assert [k] + ks == [k] && [k][..0] == [];
    } else {
      RoundsFrom(s, k, ks[..|ks| - 1]);
      assert ([k] + ks)[..|ks|] == [k] + ks[..|ks| - 1];
    }
  }

  /** The rounds, run on the exchanged halves with the subkeys backwards, undo
      themselves. */
  lemma {:induction false} RoundsUndo(s: Halves, ks: seq<Subkey>)
    ensures Rounds(Turn(Rounds(s, ks)), Backwards(ks)) == Turn(s)
  {
    hide F, Xor;
    if ks != [] {
      var n := |ks| - 1;
      var before := Rounds(s, ks[..n]);
      assert Backwards(ks) == [ks[n]] + Backwards(ks[..n]);
      RoundsFrom(Turn(Round(before, ks[n])), ks[n], Backwards(ks[..n]));
      XorTwice(before.0, F(before.1, ks[n]));
      assert Round(Turn(Round(before, ks[n])), ks[n]) == Turn(before);
      RoundsUndo(s, ks[..n]);
    }
  }

  lemma SplitUndoesJoin(text: seq<bv8>)
    requires |text| == 8
    ensures Split(Join(text)) == text
  {
    SpreadUndoesWord(text[0], text[1], text[2], text[3]);
    SpreadUndoesWord(text[4], text[5], text[6], text[7]);
    hide Spread, Word;
  }

  lemma JoinUndoesSplit(s: Halves)
    ensures Join(Split(s)) == s
  {
    WordUndoesSpread(s.0);
    WordUndoesSpread(s.1);
    hide Spread, Word;
  }

  /** For every key schedule, encrypting with the subkey pairs backwards undoes
      encrypting, on every block. */
  lemma BackwardsDecrypts(text: seq<bv8>, ks: seq<Subkey>)
    requires |text| == 8
    ensures Encrypt(Encrypt(text, ks), Backwards(ks)) == text
  {
    hide Open, Close, Rounds, Join, Split, Turn;
    var s := Join(text);
    JoinUndoesSplit(Cipher(s, ks));
    CloseUndoesOpen(Rounds(Open(s), ks));
    RoundsUndo(Open(s), ks);
    CloseUndoesOpen(s);
    SplitUndoesJoin(text);
  }

  /** So two different blocks never have the same ciphertext. */
  lemma EncryptInjective(a: seq<bv8>, b: seq<bv8>, ks: seq<Subkey>)
    requires |a| == |b| == 8 && Encrypt(a, ks) == Encrypt(b, ks)
    ensures a == b
  {
    hide Encrypt;
    BackwardsDecrypts(a, ks);
    BackwardsDecrypts(b, ks);
  }

  // Complementing

  lemma OpenFlips(s: Halves)
    ensures Open(FlipHalves(s)) == FlipHalves(Open(s))
  {
    hide Swap4, Swap16, Swap2, Swap8, SwapOdd, RotateLeft, RotateRight, FlipWord;
    var a := Swap4(s.0, s.1);
    SwapsFlip(s.0, s.1);
    var b := Swap16(a.0, a.1);
    SwapsFlip(a.0, a.1);
    var c := Swap2(b.1, b.0);
    SwapsFlip(b.1, b.0);
    var d := Swap8(c.0, c.1);
    SwapsFlip(c.0, c.1);
    RotationsFlip(d.0);
    var e := SwapOdd(d.1, RotateLeft(d.0));
    SwapsFlip(d.1, RotateLeft(d.0));
    RotationsFlip(e.0);
  }

  lemma CloseFlips(s: Halves)
    ensures Close(FlipHalves(s)) == FlipHalves(Close(s))
  {
    hide Swap4, Swap16, Swap2, Swap8, SwapOdd, RotateLeft, RotateRight, FlipWord;
    RotationsFlip(s.1);
    var e := SwapOdd(s.0, RotateRight(s.1));
    SwapsFlip(s.0, RotateRight(s.1));
    RotationsFlip(e.0);
    var d := Swap8(RotateRight(e.0), e.1);
    SwapsFlip(RotateRight(e.0), e.1);
    var c := Swap2(d.0, d.1);
    SwapsFlip(d.0, d.1);
    var b := Swap16(c.1, c.0);
    SwapsFlip(c.1, c.0);
    SwapsFlip(b.0, b.1);
  }

  lemma SameLooks(a: bv32, b: bv32)
    requires SameFields(a, b)
    ensures Odd(a) == Odd(b) && Even(a) == Even(b)
  {
    hide Look, Field0, Field8, Field16, Field24, Or4;
  }

  /** The complement of the key cancels that of the half. */
  lemma FIgnoresFlip(r: bv32, k: Subkey)
    ensures F(FlipWord(r), FlipKey(k)) == F(r, k)
  {
    hide Xor, RotateRight4, FlipWord, Odd, Even, Or, SameFields;
    MixedSame(r, k.0);
    MixedSame(r, k.1);
    SameLooks(Xor(RotateRight4(r), k.0), Xor(RotateRight4(FlipWord(r)), k.0 ^ KEY_MASK));
    SameLooks(Xor(r, k.1), Xor(FlipWord(r), k.1 ^ KEY_MASK));
  }

  lemma {:induction false} RoundsFlip(s: Halves, ks: seq<Subkey>)
    ensures Rounds(FlipHalves(s), FlipKeys(ks)) == FlipHalves(Rounds(s, ks))
  {
    hide F, FlipKey, FlipWord, Xor;
    if ks != [] {
      var n := |ks| - 1;
      RoundsFlip(s, ks[..n]);
      assert FlipKeys(ks)[..n] == FlipKeys(ks[..n]);
      var before := Rounds(s, ks[..n]);
      FIgnoresFlip(before.1, ks[n]);
      XorFlip(before.0, F(before.1, ks[n]));
    }
  }

  lemma JoinFlips(text: seq<bv8>)
    requires |text| == 8
    ensures Join(Flip8(text)) == FlipHalves(Join(text))
  {
    WordFlips(text[0], text[1], text[2], text[3]);
    WordFlips(text[4], text[5], text[6], text[7]);
    hide Word, FlipWord, FlipByte;
  }

  lemma SplitFlips(s: Halves)
    ensures Split(FlipHalves(s)) == Flip8(Split(s))
  {
    SpreadFlips(s.0);
    SpreadFlips(s.1);
    hide Spread, FlipWord, FlipByte;
  }

  /** Complementing all bytes of a full-length key and of the block complements
      the ciphertext. */
  lemma Complementation(password: seq<bv8>, text: seq<bv8>)
    requires |password| >= 8 && |text| == 8
    ensures Encrypt(Flip8(text), Schedule(Flip8(password))) == Flip8(Encrypt(text, Schedule(password)))
  {
    var ks, s := Schedule(password), Join(text);
    hide Open, Close, Rounds, Join, Split, Schedule, FlipKeys, Flip8, FlipHalves;
    ScheduleFlip(password);
    JoinFlips(text);
    OpenFlips(s);
    RoundsFlip(Open(s), ks);
    CloseFlips(Rounds(Open(s), ks));
    SplitFlips(Cipher(s, ks));
  }

  // The cipher object

  /** The counter of the first loop, before it is adjusted. */
  function PC1Before(j: nat): int
    requires j <= 56
  {
    if j == 0 then 56 else PC1(j - 1) - 8
  }

  function Adjusted(l: int): int {
    l + if l < -5 then 65 else if l < -3 then 31 else if l < -1 then 63 else if l == 27 then 35 else 0
  }

  lemma PC1Steps(j: nat)
    requires j < 56
    ensures Adjusted(PC1Before(j)) == PC1(j)
  {
    if 0 < j < 28 {
      Eights(j);
    } else if 28 < j < 52 {
      Eights(j - 28);
    }
  }

  lemma Eights(n: nat)
    requires 0 < n
    ensures n % 8 == 0 ==> (n - 1) % 8 == 7 && n / 8 == (n - 1) / 8 + 1
    ensures n % 8 != 0 ==> n % 8 == (n - 1) % 8 + 1 && n / 8 == (n - 1) / 8
  {
  }

  lemma NothingPacked(s: seq<bool>)
    requires |s| == 24
    ensures Packed(s, 0) == 0
  {
  }

  lemma PackedLast(s: seq<bool>, n: nat)
    requires 0 < n <= |s| <= 24
    ensures Packed(s, n) == if s[n - 1] then Or(Packed(s, n - 1), OneBit(24 - n)) else Packed(s, n - 1)
  {
  }

  lemma NoRounds(s: Halves, ks: seq<Subkey>)
    ensures Rounds(s, ks[..0]) == s
  {
  }

  lemma NextRound(s: Halves, ks: seq<Subkey>, n: nat)
    requires n < |ks|
    ensures Rounds(s, ks[..n + 1]) == Round(Rounds(s, ks[..n]), ks[n])
  {
    assert ks[..n + 1][..n] == ks[..n];
  }

  class DES {
    const keys: array<bv32>

    ghost predicate HasSchedule(ks: seq<Subkey>)
      reads keys
    {
      |ks| == 16 && keys.Length == 32 && forall i | 0 <= i < 16 :: (keys[2 * i], keys[2 * i + 1]) == ks[i]
    }

    constructor (password: seq<bv8>)
      ensures HasSchedule(Schedule(password)) && fresh(keys)
    {
      keys := new bv32[32](_ => 0);
      new;
      var pc1m := ReadKeyBits(password);
      ghost var ks := Schedule(password);
      hide SubkeyOf, KeyBits, StoredTo;
      for i := 0 to 16
        invariant StoredTo(keys[..], ks, i)
      {
        ghost var before := keys[..];
        StoreSubkey(pc1m, i);
        StoredOneMore(before, keys[..], ks, i);
      }
    }

    /** The words hold the first n subkeys. */
    static ghost predicate StoredTo(words: seq<bv32>, ks: seq<Subkey>, n: nat) {
      n <= 16 == |ks| && |words| == 32 && forall i | 0 <= i < n :: (words[2 * i], words[2 * i + 1]) == ks[i]
    }

    static lemma StoredOneMore(before: seq<bv32>, words: seq<bv32>, ks: seq<Subkey>, n: nat)
      requires StoredTo(before, ks, n) && n < 16 && |words| == 32 && (words[2 * n], words[2 * n + 1]) == ks[n]
      requires forall k | 0 <= k < 32 && k != 2 * n && k != 2 * n + 1 :: words[k] == before[k]
      ensures StoredTo(words, ks, n + 1)
    {
    }

    method StoreSubkey(pc1m: seq<bool>, i: nat)
      requires |pc1m| == 56 && i < 16 && keys.Length == 32
      modifies keys
      ensures (keys[2 * i], keys[2 * i + 1]) == SubkeyOf(pc1m, i)
      ensures forall k | 0 <= k < 32 && k != 2 * i && k != 2 * i + 1 :: keys[k] == old(keys[k])
    {
      hide Cook0, Cook1, Raw;
      var pcr := Rotated(pc1m, i);
      var raw0, raw1 := Select(pc1m, pcr, i);
      keys[2 * i] := Cook0(raw0, raw1);
      keys[2 * i + 1] := Cook1(raw0, raw1);
    }

    static method ReadKeyBits(password: seq<bv8>) returns (pc1m: seq<bool>)
      ensures pc1m == KeyBits(password)
    {
      hide PasswordBit, PC1, Adjusted;
      pc1m := [];
      var l: int := 56;
      for j := 0 to 56
        invariant |pc1m| == j && forall k | 0 <= k < j :: pc1m[k] == PasswordBit(password, PC1(k))
        invariant l == PC1Before(j)
      {
        PC1Steps(j);
        l := Adjusted(l);
        pc1m := pc1m + [PasswordBit(password, l)];
        l := l - 8;
      }
    }

    /** Both halves, rotated to the left. */
    static method Rotated(pc1m: seq<bool>, i: nat) returns (pcr: array<bool>)
      requires |pc1m| == 56 && i < 16
      ensures fresh(pcr) && pcr.Length == 56
      ensures forall j | 0 <= j < 56 :: pcr[j] == pc1m[RotatedFrom(j, TOTROT[i])]
    {
      pcr := new bool[56](_ => false);
      var o: int := 28;
      while o < 59
        invariant o in {28, 56, 84}
        invariant forall j | 0 <= j < o - 28 :: pcr[j] == pc1m[RotatedFrom(j, TOTROT[i])]
        decreases 84 - o
      {
        for j := o - 28 to o
          invariant forall k | 0 <= k < j :: pcr[k] == pc1m[RotatedFrom(k, TOTROT[i])]
        {
          var l: int := j + TOTROT[i];
          pcr[j] := if l < o then pc1m[l] else pc1m[l - 28];
        }
        o := o + 28;
      }
    }

    static method Select(pc1m: seq<bool>, pcr: array<bool>, i: nat) returns (raw0: bv32, raw1: bv32)
      requires |pc1m| == 56 && i < 16 && pcr.Length == 56
      requires forall j | 0 <= j < 56 :: pcr[j] == pc1m[RotatedFrom(j, TOTROT[i])]
      ensures raw0 == Raw(pc1m, i, 0) && raw1 == Raw(pc1m, i, 1)
    {
      NothingPacked(Selected(pc1m, i, 0));
      NothingPacked(Selected(pc1m, i, 1));
      hide OneBit, Or, Packed;
      raw0, raw1 := 0, 0;
      for j := 0 to 24
        invariant raw0 == Packed(Selected(pc1m, i, 0), j) && raw1 == Packed(Selected(pc1m, i, 1), j)
      {
        PackedLast(Selected(pc1m, i, 0), j + 1);
        PackedLast(Selected(pc1m, i, 1), j + 1);
        if pcr[Choice(j)] {
          raw0 := Or(raw0, OneBit(23 - j));
        }
        if pcr[Choice(j + 24)] {
          raw1 := Or(raw1, OneBit(23 - j));
        }
      }
    }

    method Enc8(text: seq<bv8>, ghost ks: seq<Subkey>) returns (b: seq<bv8>)
      requires |text| == 8 && HasSchedule(ks)
      ensures b == Encrypt(text, ks)
    {
      hide Open, Close, F, Xor, Word, Spread, Rounds;
      NoRounds(Open(Join(text)), ks);
      var s := Open(Join(text));
      var l, r := s.0, s.1;
      for i := 0 to 8
        invariant (l, r) == Rounds(s, ks[..2 * i])
      {
        NextRound(s, ks, 2 * i);
        NextRound(s, ks, 2 * i + 1);
        l := Xor(l, F(r, (keys[4 * i], keys[4 * i + 1])));
        r := Xor(r, F(l, (keys[4 * i + 2], keys[4 * i + 3])));
      }
      assert ks[..16] == ks;
      b := Split(Close((l, r)));
    }
  }
}
