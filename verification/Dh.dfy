/** Diffie-Hellman key agreement: both sides derive the same bytes. */
module Dh {
  import opened Bytes
  import opened ModPow

  /** The public value of a private exponent. */
  function PublicKey(g: nat, p: nat, x: nat, keyBytes: nat): seq<byte>
    requires p > 0
  {
    ToBytes(ModPower(g, x, p), keyBytes)
  }

  function Larger(a: nat, b: nat): nat {
    if a > b then a else b
  }

  /** The secret that a side derives from the other's public key. */
  function Secret(public: seq<byte>, x: nat, p: nat, bits: nat, keyBytes: nat): seq<byte>
    requires p > 0
  {
    ToBytes(ModPower(BigEndian(public), x, p), Larger((bits + 7) / 8, keyBytes))
  }

  class DHCipher {
    var keyBytes: nat
    var g: nat
    var p: nat
    var privateKey: nat
    var publicKey: seq<byte>

    ghost predicate Valid()
      reads this
    {
      p > 0 && keyBytes > 0 && p < Pow256(keyBytes) && publicKey == PublicKey(g, p, privateKey, keyBytes)
    }

    /** The private key's bytes are the random source's. An empty number is a syntax
        error, and so is a division by zero a range error; both end the attempt. */
    constructor (gBytes: seq<byte>, pBytes: seq<byte>, random: seq<byte>)
      requires gBytes != [] && pBytes != [] && |random| == |pBytes| && BigEndian(pBytes) > 0
      ensures Valid()
      ensures g == BigEndian(gBytes) && p == BigEndian(pBytes) && privateKey == BigEndian(random) && keyBytes == |pBytes|
    {
      var a := U8ArrayToBigInt(gBytes);
      var b := U8ArrayToBigInt(pBytes);
      var c := U8ArrayToBigInt(random);
      BigEndianBound(pBytes);
      var power := Compute(a.value, c.value, b.value);
      var arr := BigIntToU8Array(power, |pBytes|);
      keyBytes := |pBytes|;
      g, p, privateKey := a.value, b.value, c.value;
      publicKey := arr;
    }

    /** An empty public key is a syntax error. */
    method DeriveBits(public: seq<byte>, length: nat) returns (secret: Option<seq<byte>>)
      requires Valid()
      ensures secret == if public == [] then None else Some(Secret(public, privateKey, p, length, keyBytes))
    {
      var bytes := (length + 7) / 8;
      var len := if bytes > keyBytes then bytes else keyBytes;
      var n := U8ArrayToBigInt(public);
      if n == None {
        return None;
      }
      var power := Compute(n.value, privateKey, p);
      var arr := BigIntToU8Array(power, len);
      return Some(arr);
    }
  }

  lemma RemainderFits(b: nat, e: nat, p: nat, keyBytes: nat)
    requires p > 1 && p < Pow256(keyBytes)
    ensures ModPower(b, e, p) < Pow256(keyBytes)
  {
  }

  lemma {:induction false} Pow256Grows(a: nat, b: nat)
    requires a <= b
    ensures Pow256(a) <= Pow256(b)
  {
    if a < b {
      Pow256Grows(a, b - 1);
    }
  }

  /** (g^x mod p)^y mod p is g^(x*y) mod p. */
  lemma PowerOfPublic(g: nat, p: nat, x: nat, y: nat)
    requires p > 1
    ensures ModPower(ModPower(g, x, p), y, p) == Power(g, x * y) % p
  {
    ModPowerIsRemainder(g, x, p);
    ModPowerIsRemainder(ModPower(g, x, p), y, p);
    PowerModulo(Power(g, x), y, p);
    PowerPower(g, x, y);
  }

  /** For every generator, modulus and pair of private keys, what each side derives
      from the other's public key is the same. */
  lemma SecretsAgree(g: nat, p: nat, x: nat, y: nat, bits: nat, keyBytes: nat)
    requires 1 < p < Pow256(keyBytes) && keyBytes > 0
    ensures Secret(PublicKey(g, p, y, keyBytes), x, p, bits, keyBytes) == Secret(PublicKey(g, p, x, keyBytes), y, p, bits, keyBytes)
  {
    hide ModPower, Power, ToBytes, Pow256;
    RemainderFits(g, x, p, keyBytes);
    RemainderFits(g, y, p, keyBytes);
    ToBytesValue(ModPower(g, x, p), keyBytes);
    ToBytesValue(ModPower(g, y, p), keyBytes);
    PowerOfPublic(g, p, x, y);
    PowerOfPublic(g, p, y, x);
    assert x * y == y * x;
  }

  /** The secret fills the length asked for, and never less than the modulus's. */
  lemma SecretLength(public: seq<byte>, x: nat, p: nat, bits: nat, keyBytes: nat)
    requires 1 < p < Pow256(keyBytes) && keyBytes > 0
    ensures var s := Secret(public, x, p, bits, keyBytes);
            |s| == Larger((bits + 7) / 8, keyBytes) && BigEndian(s) == ModPower(BigEndian(public), x, p)
  {
    var len := Larger((bits + 7) / 8, keyBytes);
    RemainderFits(BigEndian(public), x, p, keyBytes);
    Pow256Grows(keyBytes, len);
    hide ToBytes;
    ToBytesValue(ModPower(BigEndian(public), x, p), len);
  }

  /** A public key is g to the private exponent, modulo p, in as many bytes as p has. */
  lemma PublicKeyIs(g: nat, p: nat, x: nat, keyBytes: nat)
    requires 1 < p < Pow256(keyBytes) && keyBytes > 0
    ensures var public := PublicKey(g, p, x, keyBytes);
            |public| == keyBytes && BigEndian(public) == Power(g, x) % p
  {
    hide ToBytes, Power, ModPower;
    RemainderFits(g, x, p, keyBytes);
    ToBytesValue(ModPower(g, x, p), keyBytes);
    ModPowerIsRemainder(g, x, p);
  }

  /** The secret is g to the product of both private exponents, modulo p. */
  lemma SecretIs(g: nat, p: nat, x: nat, y: nat, product: nat, bits: nat, keyBytes: nat)
    requires 1 < p < Pow256(keyBytes) && keyBytes > 0 && product == y * x
    ensures BigEndian(Secret(PublicKey(g, p, y, keyBytes), x, p, bits, keyBytes)) == Power(g, product) % p
  {
    hide ToBytes, Power, ModPower, Secret, PublicKey;
    PublicKeyIs(g, p, y, keyBytes);
    SecretLength(PublicKey(g, p, y, keyBytes), x, p, bits, keyBytes);
    ModPowerIsRemainder(g, y, p);
    PowerOfPublic(g, p, y, x);
  }
}
