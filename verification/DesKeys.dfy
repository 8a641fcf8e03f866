/** The DES key schedule: from a password to sixteen pairs of subkey words. */
module DesKeys {
  import opened DesTables

  /** Bit number j of the permuted key is this bit of the password. */
  function PC1(j: nat): (l: nat)
    requires j < 56
    ensures l < 64
  {
    if j < 28 then 56 - 8 * (j % 8) + j / 8
    else if j < 52 then 62 - 8 * ((j - 28) % 8) - (j - 28) / 8
    else 27 - 8 * (j - 52)
  }

  function Bit8(m: nat): bv8
    requires m < 8
  {
    if m == 0 then 1 else if m == 1 then 2 else if m == 2 then 4 else if m == 3 then 8
    else if m == 4 then 16 else if m == 5 then 32 else if m == 6 then 64 else 128
  }

  /** A byte beyond the password's end reads as zero. */
  predicate PasswordBit(password: seq<bv8>, l: nat)
    requires l < 64
  {
    l / 8 < |password| && password[l / 8] & Bit8(l % 8) != 0
  }

  function KeyBits(password: seq<bv8>): (bits: seq<bool>)
    ensures |bits| == 56
  {
    seq(56, j requires 0 <= j < 56 => PasswordBit(password, PC1(j)))
  }

  /** Position j of a half of 28 bits, after a rotation to the left. */
  function RotatedFrom(j: nat, rot: nat): (l: nat)
    requires j < 56 && rot <= 28
    ensures l < 56
  {
    if j < 28 then (j + rot) % 28 else 28 + (j - 28 + rot) % 28
  }

  /** The 24 bits of subkey half h of round i. */
  function Selected(bits: seq<bool>, i: nat, h: nat): (s: seq<bool>)
    requires |bits| == 56 && i < 16 && h < 2
    ensures |s| == 24
  {
    seq(24, j requires 0 <= j < 24 => bits[RotatedFrom(Choice(j + 24 * h), TOTROT[i])])
  }

  /** 1 << k */
  function OneBit(k: nat): bv32 {
    if k == 0 then 1 else OneBit(k - 1) << 1
  }

  function Or(a: bv32, b: bv32): bv32 {
    a | b
  }

  /** The first n bits, the first at position 23. */
  function Packed(s: seq<bool>, n: nat): bv32
    requires n <= |s| <= 24
  {
    if n == 0 then 0 else if s[n - 1] then Or(Packed(s, n - 1), OneBit(24 - n)) else Packed(s, n - 1)
  }

  function Raw(bits: seq<bool>, i: nat, h: nat): bv32
    requires |bits| == 56 && i < 16 && h < 2
  {
    Packed(Selected(bits, i, h), 24)
  }

  /** The layout in which the rounds use the two halves. */
  function Cook0(raw0: bv32, raw1: bv32): bv32 {
    ((raw0 & 0x00fc0000) << 6) | ((raw0 & 0x00000fc0) << 10) | ((raw1 & 0x00fc0000) >> 10) | ((raw1 & 0x00000fc0) >> 6)
  }

  function Cook1(raw0: bv32, raw1: bv32): bv32 {
    ((raw0 & 0x0003f000) << 12) | ((raw0 & 0x0000003f) << 16) | ((raw1 & 0x0003f000) >> 4) | (raw1 & 0x0000003f)
  }

  type Subkey = (bv32, bv32)

  function SubkeyOf(bits: seq<bool>, i: nat): Subkey
    requires |bits| == 56 && i < 16
  {
    (Cook0(Raw(bits, i, 0), Raw(bits, i, 1)), Cook1(Raw(bits, i, 0), Raw(bits, i, 1)))
  }

  function Schedule(password: seq<bv8>): (ks: seq<Subkey>)
    ensures |ks| == 16
  {
    seq(16, i requires 0 <= i < 16 => SubkeyOf(KeyBits(password), i))
  }

  // Complementing the password

  function Flip8(s: seq<bv8>): (r: seq<bv8>)
    ensures |r| == |s|
  {
    seq(|s|, i requires 0 <= i < |s| => FlipByte(s[i]))
  }

  function FlipByte(b: bv8): bv8 {
    !b
  }

  function FlipBits(s: seq<bool>): (r: seq<bool>)
    ensures |r| == |s|
  {
    seq(|s|, i requires 0 <= i < |s| => !s[i])
  }

  /** The bits of a subkey word that the rounds look at. */
  const KEY_MASK: bv32 := 0x3f3f3f3f

  function FlipKey(k: Subkey): Subkey {
    (k.0 ^ KEY_MASK, k.1 ^ KEY_MASK)
  }

  function FlipKeys(ks: seq<Subkey>): (r: seq<Subkey>)
    ensures |r| == |ks|
  {
    seq(|ks|, i requires 0 <= i < |ks| => FlipKey(ks[i]))
  }

  lemma FlippedBit(b: bv8, m: nat)
    requires m < 8
    ensures b & Bit8(m) != 0 <==> FlipByte(b) & Bit8(m) == 0
  {
    assert b & 1 != 0 <==> (!b) & 1 == 0;
    assert b & 2 != 0 <==> (!b) & 2 == 0;
    assert b & 4 != 0 <==> (!b) & 4 == 0;
    assert b & 8 != 0 <==> (!b) & 8 == 0;
    assert b & 16 != 0 <==> (!b) & 16 == 0;
    assert b & 32 != 0 <==> (!b) & 32 == 0;
    assert b & 64 != 0 <==> (!b) & 64 == 0;
    assert b & 128 != 0 <==> (!b) & 128 == 0;
  }

  lemma KeyBitsFlip(password: seq<bv8>)
    requires |password| >= 8
    ensures KeyBits(Flip8(password)) == FlipBits(KeyBits(password))
  {
    forall j | 0 <= j < 56
      ensures KeyBits(Flip8(password))[j] == !KeyBits(password)[j]
    {
      FlippedBit(password[PC1(j) / 8], PC1(j) % 8);
    }
  }

  lemma {:induction false} BitsDiffer(i: nat, k: nat)
    requires i != k
    ensures Apart(OneBit(i), OneBit(k))
  {
    if i == 0 {
      LowBit(OneBit(k - 1));
    } else if k == 0 {
      LowBit(OneBit(i - 1));
    } else {
      BitsDiffer(i - 1, k - 1);
      ShiftApart(OneBit(i - 1), OneBit(k - 1));
    }
  }

  lemma LowBit(b: bv32)
    ensures 1 & (b << 1) == 0 && (b << 1) & 1 == 0
  {
  }

  lemma ShiftApart(a: bv32, b: bv32)
    requires a & b == 0
    ensures (a << 1) & (b << 1) == 0
  {
  }

  ghost predicate Apart(a: bv32, b: bv32) {
    a & b == 0
  }

  /** b is a with the bits of t complemented. */
  ghost predicate Flips(a: bv32, b: bv32, t: bv32) {
    b == a ^ t
  }

  lemma {:induction false} PackedLeaves(s: seq<bool>, n: nat, k: nat)
    requires n <= |s| <= 24 && k < 24 - n
    ensures Apart(Packed(s, n), OneBit(k))
  {
    if n > 0 {
      PackedLeaves(s, n - 1, k);
      BitsDiffer(24 - n, k);
      OrApart(Packed(s, n - 1), OneBit(24 - n), OneBit(k));
      hide Apart, Or, OneBit;
    }
  }

  lemma OrApart(a: bv32, b: bv32, c: bv32)
    requires Apart(a, c) && Apart(b, c)
    ensures Apart(Or(a, b), c)
  {
  }

  /** The n highest of 24 bits. */
  function Top(n: nat): bv32
    requires n <= 24
  {
    if n == 0 then 0 else Or(Top(n - 1), OneBit(24 - n))
  }

  lemma {:induction false} PackedFlip(s: seq<bool>, n: nat)
    requires n <= |s| <= 24
    ensures Flips(Packed(s, n), Packed(FlipBits(s), n), Top(n))
  {
    hide Apart, Flips, Or, OneBit;
    if n == 0 {
      NothingFlips();
    } else {
      PackedFlip(s, n - 1);
      PackedLeaves(s, n - 1, 24 - n);
      PackedLeaves(FlipBits(s), n - 1, 24 - n);
      OrFlips(Packed(s, n - 1), Packed(FlipBits(s), n - 1), Top(n - 1), OneBit(24 - n));
    }
  }

  lemma NothingFlips()
    ensures Flips(0, 0, 0)
  {
  }

  lemma OrFlips(a: bv32, b: bv32, t: bv32, o: bv32)
    requires Apart(a, o) && Apart(b, o) && Flips(a, b, t)
    ensures Flips(Or(a, o), b, Or(t, o)) && Flips(a, Or(b, o), Or(t, o))
  {
  }

  lemma TopIsAll()
    ensures Top(24) == 0x00ffffff
  {
    assert OneBit(4) == 0x10 && OneBit(8) == 0x100 && OneBit(12) == 0x1000;
    assert OneBit(16) == 0x10000 && OneBit(20) == 0x100000;
    assert Top(4) == 0xf00000 && Top(8) == 0xff0000;
    assert Top(12) == 0xfff000 && Top(16) == 0xffff00;
    assert Top(20) == 0xfffff0;
  }

  lemma CookFlip(raw0: bv32, raw1: bv32)
    ensures Cook0(raw0 ^ 0x00ffffff, raw1 ^ 0x00ffffff) == Cook0(raw0, raw1) ^ KEY_MASK
    ensures Cook1(raw0 ^ 0x00ffffff, raw1 ^ 0x00ffffff) == Cook1(raw0, raw1) ^ KEY_MASK
  {
  }

  lemma RawFlip(bits: seq<bool>, i: nat, h: nat)
    requires |bits| == 56 && i < 16 && h < 2
    ensures Raw(FlipBits(bits), i, h) == Raw(bits, i, h) ^ 0x00ffffff
  {
    hide OneBit, Top;
    forall j | 0 <= j < 24
      ensures Selected(FlipBits(bits), i, h)[j] == FlipBits(Selected(bits, i, h))[j]
    {
      assert Choice(j + 24 * h) < 56;
    }
    assert Selected(FlipBits(bits), i, h) == FlipBits(Selected(bits, i, h));
    PackedFlip(Selected(bits, i, h), 24);
    TopIsAll();
  }

  /** Complementing every byte of a full-length password complements every bit of
      every subkey. */
  lemma ScheduleFlip(password: seq<bv8>)
    requires |password| >= 8
    ensures Schedule(Flip8(password)) == FlipKeys(Schedule(password))
  {
    var bits := KeyBits(password);
    KeyBitsFlip(password);
    hide Raw, Cook0, Cook1, KeyBits;
    forall i | 0 <= i < 16
      ensures SubkeyOf(FlipBits(bits), i) == FlipKey(SubkeyOf(bits, i))
    {
      RawFlip(bits, i, 0);
      RawFlip(bits, i, 1);
      CookFlip(Raw(bits, i, 0), Raw(bits, i, 1));
    }
  }

  /** It does so only then: a shorter password leaves bits of the key at zero. */
  lemma ScheduleFlipsExactlyWhenFull(password: seq<bv8>)
    ensures Schedule(Flip8(password)) == FlipKeys(Schedule(password)) <==> |password| >= 8
  {
    if |password| >= 8 {
      ScheduleFlip(password);
    } else {
      UnusedBit(password);
      UnusedBit(Flip8(password));
      var k, k' := SubkeyOf(KeyBits(password), 0), SubkeyOf(KeyBits(Flip8(password)), 0);
      assert Schedule(password)[0] == k && Schedule(Flip8(password))[0] == k';
      assert FlipKeys(Schedule(password))[0] == FlipKey(k);
      NotFlipped(k.1, k'.1);
    }
  }

  lemma NotFlipped(k: bv32, k': bv32)
    requires k & 0x10000000 == 0 && k' & 0x10000000 == 0
    ensures k' != k ^ KEY_MASK
  {
  }

  /** The lowest bit of the eighth byte becomes bit 28 of the first pair's second word. */
  lemma UnusedBit(password: seq<bv8>)
    requires |password| < 8
    ensures SubkeyOf(KeyBits(password), 0).1 & 0x10000000 == 0
  {
    var bits := KeyBits(password);
    var s := Selected(bits, 0, 0);
    assert Choice(7) == 27 && TOTROT[0] == 1 && RotatedFrom(27, 1) == 0 && PC1(0) == 56;
    assert s[7] == bits[0] == false;
    PackedBit(s, 24, 7);
    assert OneBit(4) == 0x10 && OneBit(8) == 0x100 && OneBit(12) == 0x1000 && OneBit(16) == 0x10000;
    hide Packed, Selected, KeyBits, OneBit;
    CookedBit(Raw(bits, 0, 0), Raw(bits, 0, 1));
  }

  lemma CookedBit(raw0: bv32, raw1: bv32)
    requires raw0 & 0x10000 == 0
    ensures Cook1(raw0, raw1) & 0x10000000 == 0
  {
  }

  lemma {:induction false} PackedBit(s: seq<bool>, n: nat, k: nat)
    requires k < n <= |s| <= 24 && !s[k]
    ensures Apart(Packed(s, n), OneBit(23 - k))
  {
    if k == n - 1 {
      PackedLeaves(s, n - 1, 24 - n);
    } else {
      PackedBit(s, n - 1, k);
      BitsDiffer(24 - n, 23 - k);
      OrApart(Packed(s, n - 1), OneBit(24 - n), OneBit(23 - k));
    }
    hide Apart, Or, OneBit;
  }
}
