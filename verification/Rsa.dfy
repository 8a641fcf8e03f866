/** RSA with PKCS#1 v1.5 padding (section 7.2 of RFC 8017). */
module Rsa {
  import opened Bytes
  import opened ModPow

  /** A key pair undoes itself on every number below the modulus. */
  ghost predicate Matching(n: nat, e: nat, d: nat) {
    n > 1 && forall m: nat | m < n :: Power(Power(m, e), d) % n == m
  }

  /** A random byte, spread over the values that are not zero. */
  function NonZero(v: byte): (r: byte)
    ensures r > 0
  {
    v * 254 / 255 + 1
  }

  function Padding(random: seq<byte>): (ps: seq<byte>)
    ensures |ps| == |random| && forall i | 0 <= i < |ps| :: ps[i] > 0
  {
    seq(|random|, i requires 0 <= i < |random| => NonZero(random[i]))
  }

  /** The encoded message: 0, 2, the padding, 0, the message. */
  function Encoded(ps: seq<byte>, message: seq<byte>): (em: seq<byte>)
    ensures |em| == |ps| + |message| + 3
  {
    [0, 2] + ps + [0] + message
  }

  /** The index of the first zero from i on, or the length. */
  function ZeroFrom(em: seq<byte>, i: nat): (k: nat)
    requires i <= |em|
    ensures i <= k <= |em|
    ensures k < |em| ==> em[k] == 0
    ensures forall j | i <= j < k :: em[j] != 0
    decreases |em| - i
  {
    if i == |em| || em[i] == 0 then i else ZeroFrom(em, i + 1)
  }

  function Decoded(em: seq<byte>): Option<seq<byte>>
    requires |em| >= 2
  {
    if em[0] != 0 || em[1] != 2 then None else
    var i := ZeroFrom(em, 2);
    if i == |em| then None else Some(em[i + 1..])
  }

  /** What the padding wraps, the scan unwraps, whatever the padding bytes are, as
      long as none is zero. */
  lemma DecodedUndoesEncoded(ps: seq<byte>, message: seq<byte>)
    requires forall i | 0 <= i < |ps| :: ps[i] > 0
    ensures Decoded(Encoded(ps, message)) == Some(message)
  {
    var em := Encoded(ps, message);
    assert em[2 + |ps|] == 0;
    forall j | 2 <= j < 2 + |ps|
      ensures em[j] != 0
    {
      assert em[j] == ps[j - 2];
    }
    assert ZeroFrom(em, 2) == 2 + |ps|;
    assert em[2 + |ps| + 1..] == message;
  }

  /** None when the message is too long for the key. */
  function Encrypted(n: nat, e: nat, k: nat, random: seq<byte>, message: seq<byte>): Option<seq<byte>>
    requires n > 0
  {
    if |message| > k - 11 then None
    else Some(ToBytes(ModPower(BigEndian(Encoded(Padding(random), message)), e, n), k))
  }

  function Decrypted(n: nat, d: nat, k: nat, c: seq<byte>): Option<seq<byte>>
    requires n > 0 && k >= 2 && n < Pow256(k)
  {
    if |c| != k then None else
    FitsKey(BigEndian(c), d, n, k);
    Decoded(ToBytes(ModPower(BigEndian(c), d, n), k))
  }

  lemma FitsKey(b: nat, e: nat, n: nat, k: nat)
    requires n > 0 && k >= 2 && n < Pow256(k)
    ensures ModPower(b, e, n) < Pow256(k) && |ToBytes(ModPower(b, e, n), k)| == k
    ensures BigEndian(ToBytes(ModPower(b, e, n), k)) == ModPower(b, e, n)
  {
    assert Pow256(k) > 1 by { assert Pow256(k) == 256 * Pow256(k - 1); }
    ToBytesValue(ModPower(b, e, n), k);
  }

  lemma {:induction false} LeadingZero(s: seq<byte>)
    ensures BigEndian([0] + s) == BigEndian(s)
    decreases |s|
  {
    var z: seq<byte> := [0] + s;
    if s == [] {
      assert z[..0] == [];
    } else {
      assert z[..|z| - 1] == [0] + s[..|s| - 1];
      LeadingZero(s[..|s| - 1]);
    }
  }

  /** An encoded message is a number of one byte less. */
  lemma EncodedIsSmall(ps: seq<byte>, message: seq<byte>)
    ensures BigEndian(Encoded(ps, message)) < Pow256(|ps| + |message| + 2)
  {
    var rest := [2] + ps + [0] + message;
    assert Encoded(ps, message) == [0] + rest;
    LeadingZero(rest);
    BigEndianBound(rest);
  }

  lemma PowersUndo(n: nat, e: nat, d: nat, m: nat)
    requires Matching(n, e, d) && m < n
    ensures ModPower(ModPower(m, e, n), d, n) == m
  {
    ModPowerIsRemainder(m, e, n);
    ModPowerIsRemainder(ModPower(m, e, n), d, n);
    PowerModulo(Power(m, e), d, n);
  }

  /** With a matching key pair whose modulus fills its k bytes, decryption undoes
      encryption, for every message of at most k - 11 bytes and any random bytes. */
  lemma DecryptUndoesEncrypt(n: nat, e: nat, d: nat, k: nat, random: seq<byte>, message: seq<byte>)
    requires Matching(n, e, d) && |message| <= k - 11 && |random| == k - |message| - 3
    requires Pow256(k - 1) <= n < Pow256(k)
    ensures Encrypted(n, e, k, random, message).Some?
    ensures Decrypted(n, d, k, Encrypted(n, e, k, random, message).value) == Some(message)
  {
    hide Power, ModPower, ToBytes, BigEndian, Pow256, Encoded, Decoded, Matching;
    var em := Encoded(Padding(random), message);
    EncodedIsSmall(Padding(random), message);
    FitsKey(BigEndian(em), e, n, k);
    var c := ToBytes(ModPower(BigEndian(em), e, n), k);
    FitsKey(BigEndian(c), d, n, k);
    IsMoreThanOne(n, e, d);
    PowersUndo(n, e, d, BigEndian(em));
    BigEndianInjective(ToBytes(ModPower(BigEndian(c), d, n), k), em);
    DecodedUndoesEncoded(Padding(random), message);
  }

  /** Padding bytes of PKCS#1: none is zero. */
  ghost predicate Pads(ps: seq<byte>, n: nat) {
    |ps| == n && forall i | 0 <= i < n :: ps[i] != 0
  }

  /** The cipher text of a message: the number 0, 2, padding, 0, message to the power e,
      modulo n, in k bytes; at least eight bytes are padding. */
  lemma CipherTextIs(n: nat, e: nat, k: nat, random: seq<byte>, message: seq<byte>)
    requires n > 1 && n < Pow256(k) && |message| <= k - 11 && |random| == k - |message| - 3
    ensures var c := Encrypted(n, e, k, random, message);
            c.Some? && |c.value| == k
            && exists ps :: Pads(ps, k - |message| - 3) && |ps| >= 8
                            && BigEndian(c.value) == Power(BigEndian([0, 2] + ps + [0] + message), e) % n
  {
    hide Power, ModPower, ToBytes, BigEndian, Pow256, Padding;
    var ps := Padding(random);
    assert Pads(ps, k - |message| - 3);
    var m := BigEndian([0, 2] + ps + [0] + message);
    FitsKey(m, e, n, k);
    ModPowerIsRemainder(m, e, n);
  }

  /** What a cipher text decrypts to is exactly what its power, in k bytes, pads; the
      padding may be short. */
  lemma DecryptedIs(n: nat, d: nat, k: nat, c: seq<byte>, message: seq<byte>)
    requires n > 1 && k >= 2 && n < Pow256(k)
    ensures Decrypted(n, d, k, c) == Some(message)
            <==> |c| == k && k >= |message| + 3
                 && exists ps, em :: Pads(ps, k - |message| - 3) && |em| == k && em == [0, 2] + ps + [0] + message
                                     && BigEndian(em) == Power(BigEndian(c), d) % n
  {
    hide Power, ModPower, ToBytes, BigEndian, Pow256;
    if |c| == k {
      var em := ToBytes(ModPower(BigEndian(c), d, n), k);
      FitsKey(BigEndian(c), d, n, k);
      ModPowerIsRemainder(BigEndian(c), d, n);
      if Decrypted(n, d, k, c) == Some(message) {
        var i := ZeroFrom(em, 2);
        var ps := em[2..i];
        assert em == [0, 2] + ps + [0] + em[i + 1..];
        assert Pads(ps, k - |message| - 3);
      }
      if k >= |message| + 3 {
        forall ps, em' | Pads(ps, k - |message| - 3) && |em'| == k && em' == [0, 2] + ps + [0] + message
                         && BigEndian(em') == Power(BigEndian(c), d) % n
          ensures Decrypted(n, d, k, c) == Some(message)
        {
          BigEndianInjective(em, em');
          DecodedUndoesEncoded(ps, message);
        }
      }
    }
  }

  lemma IsMoreThanOne(n: nat, e: nat, d: nat)
    requires Matching(n, e, d)
    ensures n > 1
  {
  }

  class RSACipher {
    const keyBytes: nat
    const n: nat
    const e: nat
    const d: nat

    ghost predicate Valid() {
      n > 0 && keyBytes >= 2 && n < Pow256(keyBytes)
    }

    constructor (nBytes: seq<byte>, eBytes: seq<byte>, dBytes: seq<byte>)
      requires |nBytes| == |eBytes| == |dBytes| >= 2 && BigEndian(nBytes) > 0
      ensures Valid() && keyBytes == |nBytes|
      ensures n == BigEndian(nBytes) && e == BigEndian(eBytes) && d == BigEndian(dBytes)
    {
      BigEndianBound(nBytes);
      var a := U8ArrayToBigInt(nBytes);
      var b := U8ArrayToBigInt(eBytes);
      var c := U8ArrayToBigInt(dBytes);
      keyBytes, n, e, d := |nBytes|, a.value, b.value, c.value;
    }

    method Encrypt(message: seq<byte>, random: seq<byte>) returns (c: Option<seq<byte>>)
      requires Valid() && (|message| <= keyBytes - 11 ==> |random| == keyBytes - |message| - 3)
      ensures c == Encrypted(n, e, keyBytes, random, message)
    {
      if |message| > keyBytes - 11 {
        return None;
      }
      var ps := new byte[|random|](i requires 0 <= i < |random| => random[i]);
      for i := 0 to |random|
        invariant forall j | 0 <= j < i :: ps[j] == NonZero(random[j])
        invariant forall j | i <= j < |random| :: ps[j] == random[j]
      {
        ps[i] := NonZero(ps[i]);
      }
      assert ps[..] == Padding(random);
      var em := [0, 2] + ps[..] + [0] + message;
      assert em == Encoded(Padding(random), message);
      hide ToBytes, ModPower, Encoded;
      var m := U8ArrayToBigInt(em);
      var power := Compute(m.value, e, n);
      var arr := BigIntToU8Array(power, keyBytes);
      return Some(arr);
    }

    method Decrypt(message: seq<byte>) returns (r: Option<seq<byte>>)
      requires Valid()
      ensures r == Decrypted(n, d, keyBytes, message)
    {
      if |message| != keyBytes {
        return None;
      }
      FitsKey(BigEndian(message), d, n, keyBytes);
      hide ToBytes, ModPower;
      var msg := U8ArrayToBigInt(message);
      var power := Compute(msg.value, d, n);
      var em := BigIntToU8Array(power, keyBytes);
      if em[0] != 0 || em[1] != 2 {
        return None;
      }
      var i := 2;
      while i < |em|
        invariant 2 <= i <= |em| && ZeroFrom(em, i) == ZeroFrom(em, 2)
      {
        if em[i] == 0 {
          break;
        }
        i := i + 1;
      }
      if i == |em| {
        return None;
      }
      return Some(em[i + 1..]);
    }
  }
}
