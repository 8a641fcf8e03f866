/** CMAC over a block cipher (section 6 of NIST SP 800-38B), with its subkeys. */
module Cmac {

  type Bytes = seq<bv8>

  const ZERO: Bytes := [0, 0, 0, 0, 0, 0, 0, 0, 0, 0, 0, 0, 0, 0, 0, 0]

  type Block = s: Bytes | |s| == 16 witness ZERO

  function Xor8(a: bv8, b: bv8): bv8 {
    a ^ b
  }

  function XorBlock(a: Block, b: Block): Block {
    seq(16, i requires 0 <= i < 16 => Xor8(a[i], b[i]))
  }

  // Subkeys

  function TopBit(b: bv8): bool {
    b >> 7 == 1
  }

  /** One byte of a shift to the left by one bit. */
  function ShiftedByte(b: bv8, next: bv8): bv8 {
    (next >> 7) | (b << 1)
  }

  function LastByte(b: bv8, carry: bool): bv8 {
    (b << 1) ^ (if carry then 0x87 else 0)
  }

  /** Doubling: a shift by one bit, and 0x87 into the last byte if a bit falls out. */
  function Double(s: Block): (d: Block)
  {
    seq(15, i requires 0 <= i < 15 => ShiftedByte(s[i], s[i + 1])) + [LastByte(s[15], TopBit(s[0]))]
  }

  /** Whether bit m of a byte is set. */
  function BitOf(b: bv8, m: nat): bool
    requires m < 8
  {
    if m == 0 then b & 1 != 0 else if m == 1 then b & 2 != 0 else if m == 2 then b & 4 != 0
    else if m == 3 then b & 8 != 0 else if m == 4 then b & 16 != 0 else if m == 5 then b & 32 != 0
    else if m == 6 then b & 64 != 0 else b & 128 != 0
  }

  /** The coefficient of x to the k, of a block as a polynomial. */
  function Coefficient(s: Block, k: nat): bool
    requires k < 128
  {
    BitOf(s[15 - k / 8], k % 8)
  }

  lemma ShiftedBits(b: bv8, next: bv8, m: nat)
    requires m < 8
    ensures BitOf(ShiftedByte(b, next), m) == if m == 0 then BitOf(next, 7) else BitOf(b, m - 1)
  {
  }

  lemma LastBits(b: bv8, carry: bool, m: nat)
    requires m < 8
    ensures BitOf(LastByte(b, carry), m) == ((if m == 0 then false else BitOf(b, m - 1)) != (carry && m in {0, 1, 2, 7}))
  {
  }

  lemma TopIsBit7(b: bv8)
    ensures TopBit(b) == BitOf(b, 7)
  {
  }

  /** Doubling multiplies by x in GF(2^128), modulo x^128 + x^7 + x^2 + x + 1. */
  lemma DoubleIsMultiplication(s: Block, k: nat)
    requires k < 128
    ensures Coefficient(Double(s), k)
            == ((if k == 0 then false else Coefficient(s, k - 1)) != (Coefficient(s, 127) && k in {0, 1, 2, 7}))
  {
    var i := 15 - k / 8;
    TopIsBit7(s[0]);
    if i == 15 {
      LastBits(s[15], TopBit(s[0]), k % 8);
    } else {
      ShiftedBits(s[i], s[i + 1], k % 8);
    }
    hide BitOf, ShiftedByte, LastByte, TopBit;
    if k > 0 && k % 8 == 0 {
      assert (k - 1) / 8 == k / 8 - 1 && (k - 1) % 8 == 7;
    } else if k > 0 {
      assert (k - 1) / 8 == k / 8 && (k - 1) % 8 == k % 8 - 1;
    }
  }

  // The subkey loop works on both subkeys at once.

  function ShiftedTwice(b: bv8, next: bv8): bv8 {
    (next >> 6) | (b << 2)
  }

  /** What two doublings bring into the last byte, by the two bits that fall out. */
  function Lut(v: bv8): bv8 {
    if v == 0 then 0x00 else if v == 1 then 0x87 else if v == 2 then 0x0e else 0x89
  }

  function Shl1(b: bv8): bv8 { b << 1 }
  function Shl2(b: bv8): bv8 { b << 2 }
  function Shr1(b: bv8): bv8 { b >> 1 }
  function Shr6(b: bv8): bv8 { b >> 6 }

  lemma TwiceShifted(a: bv8, b: bv8, c: bv8)
    ensures ShiftedByte(ShiftedByte(a, b), ShiftedByte(b, c)) == ShiftedTwice(a, b)
  {
  }

  lemma TwiceLast(first: bv8, b: bv8, last: bv8)
    ensures LastByte(last, TopBit(first)) == Xor8(Shl1(last), Lut(Shr1(Shr6(first))))
    ensures ShiftedByte(ShiftedByte(b, last), LastByte(last, TopBit(first)))
            == Xor8(ShiftedTwice(b, last), Shr1(Shr6(first)))
  {
  }

  lemma TwiceLastByte(first: bv8, second: bv8, last: bv8)
    ensures LastByte(LastByte(last, TopBit(first)), TopBit(ShiftedByte(first, second))) == Xor8(Shl2(last), Lut(Shr6(first)))
  {
  }

  ghost predicate BothShifted(block: Block, k1: Bytes, k2: Bytes, n: nat) {
    n <= 15 && |k1| == 16 && |k2| == 16 &&
    forall j | 0 <= j < n :: k1[j] == ShiftedByte(block[j], block[j + 1]) && k2[j] == ShiftedTwice(block[j], block[j + 1])
  }

  lemma DoubleAt(s: Block, i: nat)
    requires i < 16
    ensures Double(s)[i] == if i < 15 then ShiftedByte(s[i], s[i + 1]) else LastByte(s[15], TopBit(s[0]))
  {
  }

  lemma FirstSubkey(block: Block, k1: Bytes, k2: Bytes, last: bv8)
    requires BothShifted(block, k1, k2, 15) && last == LastByte(block[15], TopBit(block[0]))
    ensures k1[15 := last] == Double(block)
  {
    hide ShiftedByte, ShiftedTwice, LastByte, TopBit, Double;
    forall i | 0 <= i < 16
      ensures k1[15 := last][i] == Double(block)[i]
    {
      DoubleAt(block, i);
    }
  }

  lemma DoubleTwiceAt(s: Block, i: nat)
    requires i < 16
    ensures i < 14 ==> Double(Double(s))[i] == ShiftedTwice(s[i], s[i + 1])
    ensures i == 14 ==> Double(Double(s))[i] == Xor8(ShiftedTwice(s[14], s[15]), Shr1(Shr6(s[0])))
    ensures i == 15 ==> Double(Double(s))[i] == Xor8(Shl2(s[15]), Lut(Shr6(s[0])))
  {
    hide ShiftedByte, ShiftedTwice, LastByte, TopBit, Lut, Shl1, Shl2, Shr1, Shr6, Xor8, Double;
    DoubleAt(Double(s), i);
    DoubleAt(s, i);
    if i < 14 {
      DoubleAt(s, i + 1);
      TwiceShifted(s[i], s[i + 1], s[i + 2]);
    } else {
      DoubleAt(s, 0);
      DoubleAt(s, 15);
      TwiceLast(s[0], s[14], s[15]);
      TwiceLastByte(s[0], s[1], s[15]);
    }
  }

  lemma SecondSubkey(block: Block, k1: Bytes, k2: Bytes)
    requires BothShifted(block, k1, k2, 15)
    ensures var v := Shr6(block[0]);
            k2[14 := Xor8(k2[14], Shr1(v))][15 := Xor8(Shl2(block[15]), Lut(v))] == Double(Double(block))
  {
    hide ShiftedByte, ShiftedTwice, Lut, Shl2, Shr1, Shr6, Xor8, Double;
    var v := Shr6(block[0]);
    var k := k2[14 := Xor8(k2[14], Shr1(v))][15 := Xor8(Shl2(block[15]), Lut(v))];
    forall i | 0 <= i < 16
      ensures k[i] == Double(Double(block))[i]
    {
      DoubleTwiceAt(block, i);
    }
  }

  method ShiftBoth(block: Block, k1: array<bv8>, k2: array<bv8>)
    requires k1 != k2 && k1[..] == block && k2.Length == 16
    modifies k1, k2
    ensures BothShifted(block, k1[..], k2[..], 15) && k1[15] == block[15]
  {
    hide ShiftedByte, ShiftedTwice;
    for i := 0 to 15
      invariant BothShifted(block, k1[..], k2[..], i)
      invariant forall j | i <= j < 16 :: k1[j] == block[j]
    {
      k2[i] := ShiftedTwice(k1[i], k1[i + 1]);
      k1[i] := ShiftedByte(k1[i], k1[i + 1]);
    }
  }

  /** The subkeys are the first and the second doubling of the encrypted zero block. */
  method InitCMAC(enc: Block -> Block) returns (k1: array<bv8>, k2: array<bv8>)
    ensures fresh(k1) && fresh(k2) && k1 != k2
    ensures k1[..] == Double(enc(ZERO)) && k2[..] == Double(Double(enc(ZERO)))
  {
    hide BothShifted, Lut, Shl1, Shl2, Shr1, Shr6, Xor8, Double, ShiftedByte, ShiftedTwice, LastByte, TopBit;
    var block := enc(ZERO);
    k1 := new bv8[16](i requires 0 <= i < 16 => block[i]);
    k2 := new bv8[16](_ => 0);
    var v := Shr6(k1[0]);
    assert k1[..] == block;
    ShiftBoth(block, k1, k2);
    SecondSubkey(block, k1[..], k2[..]);
    TwiceLast(block[0], block[14], block[15]);
    FirstSubkey(block, k1[..], k2[..], Xor8(Shl1(block[15]), Lut(Shr1(v))));
    k2[14] := Xor8(k2[14], Shr1(v));
    k2[15] := Xor8(Shl2(k1[15]), Lut(v));
    k1[15] := Xor8(Shl1(k1[15]), Lut(Shr1(v)));
  }

  // The code

  /** A message that does not end a block is filled up with a bit and zeros. */
  function Padded(m: Bytes): Block
    requires |m| < 16
  {
    m + [0x80] + seq(15 - |m|, i => 0)
  }

  /** The code of a message, after blocks that left the chaining value c. */
  function CmacFrom(enc: Block -> Block, c: Block, m: Bytes): Block
    decreases |m|
  {
    var k1 := Double(enc(ZERO));
    if |m| > 16 then CmacFrom(enc, enc(XorBlock(c, m[..16])), m[16..])
    else if |m| == 16 then enc(XorBlock(c, XorBlock(m, k1)))
    else enc(XorBlock(c, XorBlock(Padded(m), Double(k1))))
  }

  function CMAC(enc: Block -> Block, m: Bytes): Block {
    CmacFrom(enc, ZERO, m)
  }

  // The decoder's way: one chain of blocks over a prepared buffer

  /** Cipher block chaining; the last ciphertext block. */
  function Chain(enc: Block -> Block, c: Block, data: Bytes): Block
    requires |data| % 16 == 0
    decreases |data|
  {
    if data == [] then c else Chain(enc, enc(XorBlock(c, data[..16])), data[16..])
  }

  /** All ciphertext blocks. */
  function Cbc(enc: Block -> Block, c: Block, data: Bytes): (r: Bytes)
    requires |data| % 16 == 0
    ensures |r| == |data|
    decreases |data|
  {
    if data == [] then [] else
    var x := enc(XorBlock(c, data[..16]));
    x + Cbc(enc, x, data[16..])
  }

  /** The browser's encryption appends a block of padding: sixteen bytes of 16. */
  const PADDING: Block := seq(16, i => 16)

  function CbcEncrypt(enc: Block -> Block, data: Bytes): (r: Bytes)
    requires |data| % 16 == 0
    ensures |r| == |data| + 16
  {
    var body := Cbc(enc, ZERO, data);
    body + enc(XorBlock(Chain(enc, ZERO, data), PADDING))
  }

  lemma {:induction false} CbcEndsWithChain(enc: Block -> Block, c: Block, data: Bytes)
    requires |data| % 16 == 0 && data != []
    ensures Cbc(enc, c, data)[|data| - 16..] == Chain(enc, c, data)
    decreases |data|
  {
    var x := enc(XorBlock(c, data[..16]));
    if data[16..] != [] {
      CbcEndsWithChain(enc, x, data[16..]);
    }
  }

  /** A message with its last block changed as its length demands. */
  function Prepared(enc: Block -> Block, m: Bytes): (r: Bytes)
    ensures |r| % 16 == 0 && r != []
    decreases |m|
  {
    var k1 := Double(enc(ZERO));
    if |m| > 16 then m[..16] + Prepared(enc, m[16..])
    else if |m| == 16 then XorBlock(m, k1)
    else XorBlock(Padded(m), Double(k1))
  }

  lemma {:induction false} CmacIsChain(enc: Block -> Block, c: Block, m: Bytes)
    ensures CmacFrom(enc, c, m) == Chain(enc, c, Prepared(enc, m))
    decreases |m|
  {
    var p := Prepared(enc, m);
    if |m| > 16 {
      assert p[..16] == m[..16] && p[16..] == Prepared(enc, m[16..]);
      CmacIsChain(enc, enc(XorBlock(c, m[..16])), m[16..]);
    } else {
      assert p[..16] == p && p[16..] == [];
    }
  }

  lemma {:induction false} PreparedKeepsHead(enc: Block -> Block, head: Bytes, tail: Bytes)
    requires |head| % 16 == 0 && 0 < |tail| <= 16
    ensures Prepared(enc, head + tail) == head + Prepared(enc, tail)
    decreases |head|
  {
    if head == [] {
      assert head + tail == tail && head + Prepared(enc, tail) == Prepared(enc, tail);
    } else {
      assert (head + tail)[..16] == head[..16] && (head + tail)[16..] == head[16..] + tail;
      PreparedKeepsHead(enc, head[16..], tail);
      assert head == head[..16] + head[16..];
    }
  }

  /** Xors sixteen bytes into an array from index `at` on. */
  method XorInto(a: array<bv8>, at: nat, k: Block)
    requires at + 16 <= a.Length
    modifies a
    ensures a[..at] == old(a[..at]) && a[at..at + 16] == XorBlock(old(a[at..at + 16]), k) && a[at + 16..] == old(a[at + 16..])
  {
    hide Xor8;
    for i := 0 to 16
      invariant forall p | 0 <= p < at || at + i <= p < a.Length :: a[p] == old(a[p])
      invariant forall p | at <= p < at + i :: a[p] == Xor8(old(a[p]), k[p - at])
    {
      a[at + i] := Xor8(a[at + i], k[i]);
    }
  }

  /** How a message is cut into blocks: n whole ones, m in all, r bytes left over. */
  lemma BlockCounts(size: nat, n: nat, m: nat, r: int)
    requires n == size / 16 && m == (size + 15) / 16 && r == size - n * 16
    ensures 0 <= r < 16 && m == if r == 0 then n else n + 1
  {
  }

  /** The last block is complete. */
  method PrepareWhole(enc: Block -> Block, k1: Block, text: Bytes, n: nat, cbcData: array<bv8>)
    requires k1 == Double(enc(ZERO)) && |text| == (n + 1) * 16 && cbcData[..] == text
    modifies cbcData
    ensures cbcData[..] == Prepared(enc, text)
  {
    hide Double, XorBlock;
    ghost var head, tail := text[..n * 16], text[n * 16..];
    assert text == head + tail && cbcData[n * 16..n * 16 + 16] == tail && cbcData[..n * 16] == head;
    PreparedKeepsHead(enc, head, tail);
    XorInto(cbcData, n * 16, k1);
    assert cbcData[..] == cbcData[..n * 16] + cbcData[n * 16..n * 16 + 16];
  }

  /** The last block is filled up. */
  method PreparePadded(enc: Block -> Block, k2: Block, text: Bytes, at: nat, r: nat, cbcData: array<bv8>)
    requires k2 == Double(Double(enc(ZERO))) && 0 < r < 16 && at % 16 == 0 && |text| == at + r
    requires cbcData[..] == text + seq(16 - r, i => 0)
    modifies cbcData
    ensures cbcData[..] == Prepared(enc, text)
  {
    hide Double, XorBlock;
    ghost var head, tail := text[..at], text[at..];
    assert text == head + tail;
    PreparedKeepsHead(enc, head, tail);
    cbcData[at + r] := 0x80;
    assert cbcData[at..at + 16] == Padded(tail) && cbcData[..at] == head;
    XorInto(cbcData, at, k2);
    assert cbcData[..] == cbcData[..at] + cbcData[at..at + 16];
  }

  /** The code of the prefix block followed by the data, for data of any length. */
  method ComputeCMAC(enc: Block -> Block, k1: Block, k2: Block, data: Bytes, prefix: Block) returns (mac: Block)
    requires k1 == Double(enc(ZERO)) && k2 == Double(Double(enc(ZERO)))
    ensures mac == CMAC(enc, prefix + data)
  {
    hide Double, Prepared, CmacFrom, Chain, Cbc;
    var n := |data| / 16;
    var m := (|data| + 15) / 16;
    var r := |data| - n * 16;
    BlockCounts(|data|, n, m, r);
    var text := prefix + data;
    var cbcData := new bv8[(m + 1) * 16](i requires 0 <= i < (m + 1) * 16 => if i < |text| then text[i] else 0);
    if r == 0 {
      assert cbcData[..] == text;
      PrepareWhole(enc, k1, text, n, cbcData);
    } else {
      assert cbcData[..] == text + seq(16 - r, i => 0);
      PreparePadded(enc, k2, text, (n + 1) * 16, r, cbcData);
    }
    CmacIsChain(enc, ZERO, text);
    CbcEndsWithChain(enc, ZERO, cbcData[..]);
    var encrypted := CbcEncrypt(enc, cbcData[..]);
    mac := encrypted[|encrypted| - 32..|encrypted| - 16];
    assert mac == Cbc(enc, ZERO, cbcData[..])[|cbcData[..]| - 16..];
  }
}
