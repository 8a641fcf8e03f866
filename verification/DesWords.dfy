/** Words and bytes of the DES cipher, and how its bit steps undo themselves and
    commute with complementing. */
module DesWords {
  import opened DesKeys

  /** The left and the right half. */
  type Halves = (bv32, bv32)

  // the four fields of six bits that select from the boxes
  function Field0(x: bv32): bv6 { (x & 0x3f) as bv6 }

  function Field8(x: bv32): bv6 { ((x >> 8) & 0x3f) as bv6 }

  function Field16(x: bv32): bv6 { ((x >> 16) & 0x3f) as bv6 }

  function Field24(x: bv32): bv6 { ((x >> 24) & 0x3f) as bv6 }

  function Or4(a: bv32, b: bv32, c: bv32, d: bv32): bv32 {
    Or(Or(Or(a, b), c), d)
  }

  function Xor(a: bv32, b: bv32): bv32 {
    a ^ b
  }

  function Left28(r: bv32): bv32 { r << 28 }
  function Right4(r: bv32): bv32 { r >> 4 }

  function RotateRight4(r: bv32): bv32 {
    Or(Left28(r), Right4(r))
  }

  function Swap4(a: bv32, b: bv32): Halves {
    var x := ((a >> 4) ^ b) & 0x0f0f0f0f;
    (a ^ (x << 4), b ^ x)
  }

  function Swap16(a: bv32, b: bv32): Halves {
    var x := ((a >> 16) ^ b) & 0x0000ffff;
    (a ^ (x << 16), b ^ x)
  }

  function Swap2(a: bv32, b: bv32): Halves {
    var x := ((a >> 2) ^ b) & 0x33333333;
    (a ^ (x << 2), b ^ x)
  }

  function Swap8(a: bv32, b: bv32): Halves {
    var x := ((a >> 8) ^ b) & 0x00ff00ff;
    (a ^ (x << 8), b ^ x)
  }

  function SwapOdd(a: bv32, b: bv32): Halves {
    var x := (a ^ b) & 0xaaaaaaaa;
    (a ^ x, b ^ x)
  }

  function RotateLeft(x: bv32): bv32 {
    (x << 1) | ((x >> 31) & 1)
  }

  function RotateRight(x: bv32): bv32 {
    (x << 31) | (x >> 1)
  }

  function Turn(s: Halves): Halves {
    (s.1, s.0)
  }

  function FlipWord(x: bv32): bv32 {
    !x
  }

  function FlipHalves(s: Halves): Halves {
    (FlipWord(s.0), FlipWord(s.1))
  }

  function Word(a: bv8, b: bv8, c: bv8, d: bv8): bv32 {
    ((a as bv32) << 24) | ((b as bv32) << 16) | ((c as bv32) << 8) | (d as bv32)
  }

  function Spread(x: bv32): (s: seq<bv8>)
    ensures |s| == 4
  {
    [Byte3(x), Byte2(x), Byte1(x), Byte0(x)]
  }

  function Byte3(x: bv32): bv8 { ((x >> 24) & 0xff) as bv8 }

  function Byte2(x: bv32): bv8 { ((x >> 16) & 0xff) as bv8 }

  function Byte1(x: bv32): bv8 { ((x >> 8) & 0xff) as bv8 }

  function Byte0(x: bv32): bv8 { (x & 0xff) as bv8 }

  lemma Swap4Undoes(a: bv32, b: bv32)
    ensures var s := Swap4(a, b); Swap4(s.0, s.1) == (a, b)
  {
  }

  lemma Swap16Undoes(a: bv32, b: bv32)
    ensures var s := Swap16(a, b); Swap16(s.0, s.1) == (a, b)
  {
  }

  lemma Swap2Undoes(a: bv32, b: bv32)
    ensures var s := Swap2(a, b); Swap2(s.0, s.1) == (a, b)
  {
  }

  lemma Swap8Undoes(a: bv32, b: bv32)
    ensures var s := Swap8(a, b); Swap8(s.0, s.1) == (a, b)
  {
  }

  lemma SwapOddUndoes(a: bv32, b: bv32)
    ensures var s := SwapOdd(a, b); SwapOdd(s.0, s.1) == (a, b)
  {
  }

  lemma SwapsUndo(a: bv32, b: bv32)
    ensures var s := Swap4(a, b); Swap4(s.0, s.1) == (a, b)
    ensures var s := Swap16(a, b); Swap16(s.0, s.1) == (a, b)
    ensures var s := Swap2(a, b); Swap2(s.0, s.1) == (a, b)
    ensures var s := Swap8(a, b); Swap8(s.0, s.1) == (a, b)
    ensures var s := SwapOdd(a, b); SwapOdd(s.0, s.1) == (a, b)
  {
    hide *;
    Swap4Undoes(a, b);
    Swap16Undoes(a, b);
    Swap2Undoes(a, b);
    Swap8Undoes(a, b);
    SwapOddUndoes(a, b);
  }

  lemma RotationsUndo(x: bv32)
    ensures RotateRight(RotateLeft(x)) == x && RotateLeft(RotateRight(x)) == x
  {
  }

  lemma SwapOddTurns(a: bv32, b: bv32)
    ensures SwapOdd(b, a) == Turn(SwapOdd(a, b))
  {
  }

  lemma XorTwice(a: bv32, f: bv32)
    ensures Xor(Xor(a, f), f) == a
  {
  }

  lemma SpreadUndoesWord(a: bv8, b: bv8, c: bv8, d: bv8)
    ensures Spread(Word(a, b, c, d)) == [a, b, c, d]
  {
  }

  lemma WordUndoesSpread(x: bv32)
    ensures var s := Spread(x); Word(s[0], s[1], s[2], s[3]) == x
  {
  }

  lemma Swap4Flips(a: bv32, b: bv32)
    ensures Swap4(FlipWord(a), FlipWord(b)) == FlipHalves(Swap4(a, b))
  {
  }

  lemma Swap16Flips(a: bv32, b: bv32)
    ensures Swap16(FlipWord(a), FlipWord(b)) == FlipHalves(Swap16(a, b))
  {
  }

  lemma Swap2Flips(a: bv32, b: bv32)
    ensures Swap2(FlipWord(a), FlipWord(b)) == FlipHalves(Swap2(a, b))
  {
  }

  lemma Swap8Flips(a: bv32, b: bv32)
    ensures Swap8(FlipWord(a), FlipWord(b)) == FlipHalves(Swap8(a, b))
  {
  }

  lemma SwapOddFlips(a: bv32, b: bv32)
    ensures SwapOdd(FlipWord(a), FlipWord(b)) == FlipHalves(SwapOdd(a, b))
  {
  }

  lemma SwapsFlip(a: bv32, b: bv32)
    ensures Swap4(FlipWord(a), FlipWord(b)) == FlipHalves(Swap4(a, b))
    ensures Swap16(FlipWord(a), FlipWord(b)) == FlipHalves(Swap16(a, b))
    ensures Swap2(FlipWord(a), FlipWord(b)) == FlipHalves(Swap2(a, b))
    ensures Swap8(FlipWord(a), FlipWord(b)) == FlipHalves(Swap8(a, b))
    ensures SwapOdd(FlipWord(a), FlipWord(b)) == FlipHalves(SwapOdd(a, b))
  {
    hide *;
    Swap4Flips(a, b);
    Swap16Flips(a, b);
    Swap2Flips(a, b);
    Swap8Flips(a, b);
    SwapOddFlips(a, b);
  }

  lemma RotationsFlip(x: bv32)
    ensures RotateLeft(FlipWord(x)) == FlipWord(RotateLeft(x)) && RotateRight(FlipWord(x)) == FlipWord(RotateRight(x))
  {
  }

  ghost predicate SameFields(x: bv32, y: bv32) {
    Field0(x) == Field0(y) && Field8(x) == Field8(y) && Field16(x) == Field16(y) && Field24(x) == Field24(y)
  }

  /** Two words that agree wherever a subkey does. */
  ghost predicate Agree(x: bv32, y: bv32) {
    x & KEY_MASK == y & KEY_MASK
  }

  lemma AgreeOnLowFields(x: bv32, y: bv32)
    requires Agree(x, y)
    ensures Field0(x) == Field0(y) && Field8(x) == Field8(y)
  {
  }

  lemma AgreeOnHighFields(x: bv32, y: bv32)
    requires Agree(x, y)
    ensures Field16(x) == Field16(y) && Field24(x) == Field24(y)
  {
  }

  lemma AgreeOnFields(x: bv32, y: bv32)
    requires Agree(x, y)
    ensures SameFields(x, y)
  {
    AgreeOnLowFields(x, y);
    AgreeOnHighFields(x, y);
    hide Agree, Field0, Field8, Field16, Field24;
  }

  lemma Left28Flips(r: bv32)
    ensures Left28(FlipWord(r)) == Left28(r) ^ 0xf0000000 && Left28(r) & 0x0fffffff == 0
  {
  }

  lemma Right4Flips(r: bv32)
    ensures Right4(FlipWord(r)) == Right4(r) ^ 0x0fffffff && Right4(r) & 0xf0000000 == 0
  {
  }

  lemma PartsTogether(a: bv32, b: bv32, c: bv32, d: bv32)
    requires a & 0x0fffffff == 0 && b & 0xf0000000 == 0 && c == a ^ 0xf0000000 && d == b ^ 0x0fffffff
    ensures Or(c, d) == FlipWord(Or(a, b))
  {
  }

  lemma TurnFlips(r: bv32)
    ensures RotateRight4(FlipWord(r)) == FlipWord(RotateRight4(r))
  {
    hide Left28, Right4, Or, FlipWord;
    Left28Flips(r);
    Right4Flips(r);
    PartsTogether(Left28(r), Right4(r), Left28(FlipWord(r)), Right4(FlipWord(r)));
  }

  lemma XorAgrees(r: bv32, k: bv32)
    ensures Agree(Xor(r, k), Xor(FlipWord(r), k ^ KEY_MASK))
  {
  }

  lemma MixedAgree(r: bv32, k: bv32)
    ensures Agree(Xor(RotateRight4(r), k), Xor(RotateRight4(FlipWord(r)), k ^ KEY_MASK))
    ensures Agree(Xor(r, k), Xor(FlipWord(r), k ^ KEY_MASK))
  {
    hide *;
    TurnFlips(r);
    XorAgrees(RotateRight4(r), k);
    XorAgrees(r, k);
  }

  lemma MixedSame(r: bv32, k: bv32)
    ensures SameFields(Xor(RotateRight4(r), k), Xor(RotateRight4(FlipWord(r)), k ^ KEY_MASK))
    ensures SameFields(Xor(r, k), Xor(FlipWord(r), k ^ KEY_MASK))
  {
    hide *;
    MixedAgree(r, k);
    AgreeOnFields(Xor(RotateRight4(r), k), Xor(RotateRight4(FlipWord(r)), k ^ KEY_MASK));
    AgreeOnFields(Xor(r, k), Xor(FlipWord(r), k ^ KEY_MASK));
  }

  lemma XorFlip(a: bv32, f: bv32)
    ensures Xor(FlipWord(a), f) == FlipWord(Xor(a, f))
  {
  }

  lemma PartsFlip(a: bv8)
    ensures FlipByte(a) as bv32 == (a as bv32) ^ 0xff && (a as bv32) & 0xffffff00 == 0
  {
  }

  lemma PartsJoin(a: bv32, b: bv32, c: bv32, d: bv32)
    requires a & 0xffffff00 == 0 && b & 0xffffff00 == 0 && c & 0xffffff00 == 0 && d & 0xffffff00 == 0
    ensures ((a ^ 0xff) << 24) | ((b ^ 0xff) << 16) | ((c ^ 0xff) << 8) | (d ^ 0xff)
            == !((a << 24) | (b << 16) | (c << 8) | d)
  {
  }

  lemma WordFlips(a: bv8, b: bv8, c: bv8, d: bv8)
    ensures Word(FlipByte(a), FlipByte(b), FlipByte(c), FlipByte(d)) == FlipWord(Word(a, b, c, d))
  {
    PartsFlip(a);
    PartsFlip(b);
    PartsFlip(c);
    PartsFlip(d);
    PartsJoin(a as bv32, b as bv32, c as bv32, d as bv32);
    hide FlipByte;
  }

  lemma ByteFlips(x: bv32)
    ensures Byte3(FlipWord(x)) == FlipByte(Byte3(x)) && Byte2(FlipWord(x)) == FlipByte(Byte2(x))
    ensures Byte1(FlipWord(x)) == FlipByte(Byte1(x)) && Byte0(FlipWord(x)) == FlipByte(Byte0(x))
  {
  }

  lemma SpreadFlips(x: bv32)
    ensures Spread(FlipWord(x)) == Flip8(Spread(x))
  {
    ByteFlips(x);
    hide Byte0, Byte1, Byte2, Byte3, FlipWord, FlipByte;
  }
}
