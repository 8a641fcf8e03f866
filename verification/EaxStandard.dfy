/** CMAC as in section 6 of NIST SP 800-38B and EAX as its authors define it, block by
    block, and that the cipher computes exactly them. */
module EaxStandard {
  import opened Bytes
  import Cmac
  import Eax

  type Octets = seq<bv8>
  type Block = Cmac.Block
  type Cipher = Block -> Block

  function Mixed(a: Octets, b: Octets): (r: Octets)
    requires |a| == |b|
    ensures |r| == |a|
  {
    seq(|a|, i requires 0 <= i < |a| => a[i] ^ b[i])
  }

  function Zeros(n: nat): (r: Octets)
    ensures |r| == n
  {
    seq(n, i => 0)
  }

  // CMAC

  /** The number of blocks; an empty message has one, too. */
  function Blocks(m: Octets): (n: nat)
    ensures n > 0 && 16 * (n - 1) <= |m| <= 16 * n
  {
    if m == [] then 1 else (|m| + 15) / 16
  }

  /** Block number i; the last one is filled up if it must be, and mixed with a subkey
      that tells whether it was. */
  function BlockOf(enc: Cipher, m: Octets, i: nat): Block
    requires i < Blocks(m)
  {
    if i < Blocks(m) - 1 then m[16 * i..16 * i + 16] else
    var k1 := Cmac.Double(enc(Zeros(16)));
    var last := m[16 * i..];
    if |last| == 16 then Mixed(last, k1) else Mixed(last + [0x80] + Zeros(15 - |last|), Cmac.Double(k1))
  }

  /** The chaining value after i blocks. */
  function ChainedTo(enc: Cipher, m: Octets, i: nat): Block
    requires i <= Blocks(m)
  {
    if i == 0 then Zeros(16) else enc(Mixed(ChainedTo(enc, m, i - 1), BlockOf(enc, m, i - 1)))
  }

  function Code(enc: Cipher, m: Octets): Block {
    ChainedTo(enc, m, Blocks(m))
  }

  lemma MixedIs(a: Block, b: Block)
    ensures Cmac.XorBlock(a, b) == Mixed(a, b)
  {
  }

  lemma BlockStep(enc: Cipher, m: Octets, i: nat, c: Block)
    requires i < Blocks(m) && 16 * i <= |m|
    ensures var rest := m[16 * i..];
            Cmac.CmacFrom(enc, c, rest)
            == (var x := enc(Mixed(c, BlockOf(enc, m, i)));
                if i == Blocks(m) - 1 then x else Cmac.CmacFrom(enc, x, m[16 * (i + 1)..]))
  {
    hide Cmac.Double, Cmac.XorBlock;
    var rest := m[16 * i..];
    assert Zeros(16) == Cmac.ZERO;
    if i < Blocks(m) - 1 {
      assert rest[..16] == m[16 * i..16 * i + 16] && rest[16..] == m[16 * (i + 1)..];
      MixedIs(c, rest[..16]);
    } else {
      var k1 := Cmac.Double(enc(Cmac.ZERO));
      if |rest| == 16 {
        MixedIs(rest, k1);
        MixedIs(c, Mixed(rest, k1));
      } else {
        assert Cmac.Padded(rest) == rest + [0x80] + Zeros(15 - |rest|);
        MixedIs(Cmac.Padded(rest), Cmac.Double(k1));
        MixedIs(c, Mixed(Cmac.Padded(rest), Cmac.Double(k1)));
      }
    }
  }

  lemma {:induction false} CodeFrom(enc: Cipher, m: Octets, i: nat)
    requires i < Blocks(m)
    ensures 16 * i <= |m| && Cmac.CmacFrom(enc, ChainedTo(enc, m, i), m[16 * i..]) == Code(enc, m)
    decreases Blocks(m) - i
  {
    hide Cmac.CmacFrom, BlockOf, Mixed;
    BlockStep(enc, m, i, ChainedTo(enc, m, i));
    if i < Blocks(m) - 1 {
      CodeFrom(enc, m, i + 1);
    }
  }

  /** The code is the standard's, for messages of every length. */
  lemma CodeIsStandard(enc: Cipher, m: Octets)
    ensures Cmac.CMAC(enc, m) == Code(enc, m)
  {
    CodeFrom(enc, m, 0);
    assert m[16 * 0..] == m && Zeros(16) == Cmac.ZERO;
    hide Cmac.CmacFrom, BlockOf;
  }

  // Numbers as blocks

  function Low(v: nat): bv8 {
    (v % 256) as bv8
  }

  function Digit(b: bv8): (d: nat)
    ensures d < 256
  {
    b as nat
  }

  lemma LowOf(b: bv8, h: nat)
    ensures Low(256 * h + Digit(b)) == b
  {
    DivModUnique(256 * h + Digit(b), 256, h, Digit(b));
  }

  function Value(s: Octets): nat {
    if s == [] then 0 else 256 * Value(s[..|s| - 1]) + Digit(s[|s| - 1])
  }

  /** The n low bytes of a number, the highest first. */
  function Numbered(v: nat, n: nat): (s: Octets)
    ensures |s| == n
  {
    if n == 0 then [] else Numbered(v / 256, n - 1) + [Low(v)]
  }

  lemma {:induction false} NumberedValue(s: Octets)
    ensures Value(s) < Pow256(|s|) && Numbered(Value(s), |s|) == s
  {
    hide Digit, Low;
    if s != [] {
      var n := |s| - 1;
      NumberedValue(s[..n]);
      LowOf(s[n], Value(s[..n]));
      DivModUnique(Value(s), 256, Value(s[..n]), Digit(s[n]));
      assert s == s[..n] + [s[n]];
    }
  }

  lemma WrapsOnce(v: nat, p: nat)
    requires p > 0
    ensures var r := v % (256 * p); r / 256 == v / 256 % p && r % 256 == v % 256
  {
    var w := v / 256;
    var r := 256 * (w % p) + v % 256;
    assert 256 * (w / p * p) == w / p * (256 * p);
    DivModUnique(v, 256 * p, w / p, r);
    DivModUnique(r, 256, w % p, v % 256);
  }

  lemma {:induction false} NumberedWraps(v: nat, n: nat)
    ensures Numbered(v % Pow256(n), n) == Numbered(v, n)
  {
    hide Low;
    if n > 0 {
      var p := Pow256(n - 1);
      WrapsOnce(v, p);
      assert Pow256(n) == 256 * p;
      NumberedWraps(v / 256, n - 1);
      SameLow(v % (256 * p), v);
    }
  }

  lemma SameLow(v: nat, w: nat)
    requires v % 256 == w % 256
    ensures Low(v) == Low(w)
  {
  }

  // Counter mode

  lemma ValueOf(s: Octets, b: bv8)
    ensures Value(s + [b]) == 256 * Value(s) + Digit(b)
  {
    assert (s + [b])[..|s|] == s;
  }

  lemma NextDigit(b: bv8)
    ensures Digit(0) == 0 && Digit(255) == 255
    ensures b != 255 ==> Digit(b + 1) == Digit(b) + 1 && Digit(b) < 255
  {
  }

  lemma LastPut(s: Octets, n: nat, b: bv8)
    requires 0 < n <= |s|
    ensures s[..n] == s[..n - 1] + [s[n - 1]]
    ensures var u := s[n - 1 := b];
            u[..n - 1] == s[..n - 1] && u[..n] == s[..n - 1] + [b] && u[n..] == s[n..]
  {
  }

  /** Counting up adds one, and wraps. */
  lemma {:induction false} CountUpAdds(s: Octets, n: nat)
    requires n <= |s|
    ensures var t := Eax.CountUp(s, n);
            t[n..] == s[n..] && Value(t[..n]) == (if Value(s[..n]) + 1 == Pow256(n) then 0 else Value(s[..n]) + 1)
    decreases n
  {
    hide Digit, Value, Pow256;
    NumberedValue(s[..n]);
    if n == 0 {
      NoValue();
    } else {
      var b, t := s[n - 1], Eax.CountUp(s, n);
      NextDigit(b);
      PowerStep(n);
      LastPut(s, n, if b == 255 then 0 else b + 1);
      ValueOf(s[..n - 1], b);
      if b == 255 {
        var u := s[n - 1 := 0];
        CountUpAdds(u, n - 1);
        LastPut(t, n, 0);
        assert t == Eax.CountUp(u, n - 1) && t[n - 1..] == u[n - 1..] && t[n - 1] == 0 && t[n..] == s[n..];
        ValueOf(t[..n - 1], 0);
      } else {
        assert t == s[n - 1 := b + 1];
        ValueOf(s[..n - 1], b + 1);
        NumberedValue(t[..n]);
      }
    }
  }

  lemma NoValue()
    ensures Value([]) == 0 && Pow256(0) == 1
  {
  }

  lemma PowerStep(n: nat)
    requires n > 0
    ensures Pow256(n) == 256 * Pow256(n - 1)
  {
  }

  /** The counter block that is k blocks after the first, as a number modulo 2^128. */
  function CounterAt(first: Block, k: nat): Block {
    Numbered(Value(first) + k, 16)
  }

  lemma {:induction false} KeyBlocksCount(enc: Cipher, counter: Block, k: nat)
    ensures Eax.KeyBlock(enc, counter, k) == enc(CounterAt(counter, k))
    decreases k
  {
    hide Eax.CountUp, Numbered, Value, Pow256;
    NumberedValue(counter);
    if k > 0 {
      var next := Eax.CountUp(counter, 16);
      CountUpAdds(counter, 16);
      assert counter[..16] == counter && next[..16] == next;
      KeyBlocksCount(enc, next, k - 1);
      CounterGoesOn(Value(counter), Value(next), k - 1);
    }
  }

  lemma CounterGoesOn(v: nat, w: nat, k: nat)
    requires w == if v + 1 == Pow256(16) then 0 else v + 1
    ensures Numbered(w + k, 16) == Numbered(v + 1 + k, 16)
  {
    hide Numbered, Pow256;
    NumberedWraps(w + k, 16);
    NumberedWraps(v + 1 + k, 16);
    if v + 1 == Pow256(16) {
      var p := Pow256(16);
      DivModUnique(p + k, p, k / p + 1, k % p);
    }
  }

  // EAX

  /** The code of a message behind a block that holds the number t. */
  function Omac(enc: Cipher, t: nat, m: Octets): Block {
    Code(enc, Numbered(t, 16) + m)
  }

  lemma Prefixes()
    ensures Numbered(0, 16) == Eax.PREFIX0 && Numbered(1, 16) == Eax.PREFIX1 && Numbered(2, 16) == Eax.PREFIX2
  {
    NumberedZero(15);
    NumberedZero(16);
    assert Low(1) == 1 && Low(2) == 2;
    assert Numbered(1, 16) == Numbered(0, 15) + [1] && Numbered(2, 16) == Numbered(0, 15) + [2];
  }

  lemma {:induction false} NumberedZero(n: nat)
    ensures Numbered(0, n) == Zeros(n)
  {
    if n > 0 {
      NumberedZero(n - 1);
    }
  }

  /** Byte k of the encrypted message is byte k of the message, mixed with that of the
      key stream; the tag mixes the codes of nonce, header and encrypted message. */
  lemma SealIsEax(enc: Cipher, header: Octets, nonce: Octets, message: Octets)
    ensures var sealed, n := Eax.Seal(enc, header, nonce, message), |message|;
            && |sealed| == n + 16
            && (forall k | 0 <= k < n :: sealed[k] == message[k] ^ enc(CounterAt(Omac(enc, 0, nonce), k / 16))[k % 16])
            && sealed[n..] == Mixed(Mixed(Omac(enc, 0, nonce), Omac(enc, 1, header)), Omac(enc, 2, sealed[..n]))
  {
    hide Cmac.CMAC, Eax.KeyBlock, CounterAt, Code, Numbered;
    var sealed, n, counter := Eax.Seal(enc, header, nonce, message), |message|, Omac(enc, 0, nonce);
    Prefixes();
    CodeIsStandard(enc, Eax.PREFIX0 + nonce);
    CodeIsStandard(enc, Eax.PREFIX1 + header);
    assert sealed[..n] == Eax.Ctr(enc, counter, message);
    CodeIsStandard(enc, Eax.PREFIX2 + sealed[..n]);
    forall k | 0 <= k < n
      ensures sealed[k] == message[k] ^ enc(CounterAt(counter, k / 16))[k % 16]
    {
      KeyBlocksCount(enc, counter, k / 16);
    }
    TagMixes(Omac(enc, 0, nonce), Omac(enc, 1, header), Omac(enc, 2, sealed[..n]));
  }

  lemma TagMixes(a: Block, b: Block, c: Block)
    ensures Cmac.XorBlock(c, Cmac.XorBlock(a, b)) == Mixed(Mixed(a, b), c)
  {
    forall i | 0 <= i < 16
      ensures Cmac.XorBlock(c, Cmac.XorBlock(a, b))[i] == Mixed(Mixed(a, b), c)[i]
    {
      XorTurns(a[i] ^ b[i], c[i]);
    }
  }

  lemma XorTurns(a: bv8, b: bv8)
    ensures a ^ b == b ^ a
  {
  }
}
