/** EAX mode: a counter stream and a tag from one cipher. */
module Eax {
  import opened Bytes
  import Cmac

  type Octets = Cmac.Bytes
  type Block = Cmac.Block
  type Cipher = Cmac.Block -> Cmac.Block

  // Counter mode

  /** The next counter block, as a big-endian number modulo 2^128: the first n
      bytes are still to be counted up. */
  function CountUp(s: Octets, n: nat): (r: Octets)
    requires n <= |s|
    ensures |r| == |s|
    decreases n
  {
    if n == 0 then s
    else if s[n - 1] == 255 then CountUp(s[n - 1 := 0], n - 1)
    else s[n - 1 := s[n - 1] + 1]
  }

  /** The keystream block that is k blocks after the first. */
  function KeyBlock(enc: Cipher, counter: Block, k: nat): Block
    decreases k
  {
    if k == 0 then enc(counter) else KeyBlock(enc, CountUp(counter, 16), k - 1)
  }

  /** Encryption and decryption alike. */
  function Ctr(enc: Cipher, counter: Block, data: Octets): (r: Octets)
    ensures |r| == |data|
  {
    seq(|data|, i requires 0 <= i < |data| => Cmac.Xor8(data[i], KeyBlock(enc, counter, i / 16)[i % 16]))
  }

  lemma XorTwice(a: bv8, b: bv8)
    ensures Cmac.Xor8(Cmac.Xor8(a, b), b) == a
  {
  }

  lemma CtrUndoes(enc: Cipher, counter: Block, data: Octets)
    ensures Ctr(enc, counter, Ctr(enc, counter, data)) == data
  {
    hide Cmac.Xor8, KeyBlock;
    forall i | 0 <= i < |data|
      ensures Ctr(enc, counter, Ctr(enc, counter, data))[i] == data[i]
    {
      XorTwice(data[i], KeyBlock(enc, counter, i / 16)[i % 16]);
    }
  }

  // EAX

  const PREFIX0: Block := Cmac.ZERO
  const PREFIX1: Block := [0, 0, 0, 0, 0, 0, 0, 0, 0, 0, 0, 0, 0, 0, 0, 1]
  const PREFIX2: Block := [0, 0, 0, 0, 0, 0, 0, 0, 0, 0, 0, 0, 0, 0, 0, 2]

  function Tag(enc: Cipher, ad: Octets, nonce: Octets, encrypted: Octets): Block {
    Cmac.XorBlock(Cmac.CMAC(enc, PREFIX2 + encrypted),
                  Cmac.XorBlock(Cmac.CMAC(enc, PREFIX0 + nonce), Cmac.CMAC(enc, PREFIX1 + ad)))
  }

  function Seal(enc: Cipher, ad: Octets, nonce: Octets, message: Octets): (r: Octets)
    ensures |r| == |message| + 16
  {
    var encrypted := Ctr(enc, Cmac.CMAC(enc, PREFIX0 + nonce), message);
    encrypted + Tag(enc, ad, nonce, encrypted)
  }

  /** None unless the last sixteen bytes are the tag of the others. */
  function Open(enc: Cipher, ad: Octets, nonce: Octets, data: Octets): Option<Octets> {
    if |data| < 16 then None else
    var encrypted := data[..|data| - 16];
    if data[|data| - 16..] != Tag(enc, ad, nonce, encrypted) then None
    else Some(Ctr(enc, Cmac.CMAC(enc, PREFIX0 + nonce), encrypted))
  }

  /** What opens as a message is exactly what that message is sealed to. */
  lemma OpensExactlySealed(enc: Cipher, ad: Octets, nonce: Octets, data: Octets, message: Octets)
    ensures Open(enc, ad, nonce, data) == Some(message) <==> data == Seal(enc, ad, nonce, message)
  {
    hide Cmac.CMAC, Cmac.XorBlock, Tag, Ctr;
    var counter := Cmac.CMAC(enc, PREFIX0 + nonce);
    CtrUndoes(enc, counter, message);
    if |data| >= 16 {
      var encrypted := data[..|data| - 16];
      CtrUndoes(enc, counter, encrypted);
      assert data == encrypted + data[|data| - 16..];
    }
    var sealed := Ctr(enc, counter, message);
    assert Seal(enc, ad, nonce, message)[..|sealed|] == sealed;
  }

  class EaxCipher {
    const enc: Cipher
    const k1: Block
    const k2: Block

    ghost predicate Valid() {
      k1 == Cmac.Double(enc(Cmac.ZERO)) && k2 == Cmac.Double(Cmac.Double(enc(Cmac.ZERO)))
    }

    constructor (enc: Cipher)
      ensures Valid() && this.enc == enc
    {
      hide Cmac.Double;
      this.enc := enc;
      var a, b := Cmac.InitCMAC(enc);
      k1, k2 := a[..], b[..];
    }

    method Encrypt(ad: Octets, nonce: Octets, message: Octets) returns (res: Octets)
      requires Valid()
      ensures res == Seal(enc, ad, nonce, message)
    {
      hide Cmac.CMAC, Cmac.Double, Ctr;
      var nCMAC := Cmac.ComputeCMAC(enc, k1, k2, nonce, PREFIX0);
      var encrypted := Ctr(enc, nCMAC, message);
      var adCMAC := Cmac.ComputeCMAC(enc, k1, k2, ad, PREFIX1);
      var mac := Cmac.ComputeCMAC(enc, k1, k2, encrypted, PREFIX2);
      mac := Cmac.XorBlock(mac, Cmac.XorBlock(nCMAC, adCMAC));
      res := encrypted + mac;
    }

    method Decrypt(ad: Octets, nonce: Octets, data: Octets) returns (res: Option<Octets>)
      requires Valid()
      ensures res == Open(enc, ad, nonce, data)
    {
      hide Cmac.CMAC, Cmac.Double, Ctr, Cmac.XorBlock;
      if |data| < 16 {
        return None;
      }
      var encrypted, mac := data[..|data| - 16], data[|data| - 16..];
      var nCMAC := Cmac.ComputeCMAC(enc, k1, k2, nonce, PREFIX0);
      var adCMAC := Cmac.ComputeCMAC(enc, k1, k2, ad, PREFIX1);
      var computedMac := Cmac.ComputeCMAC(enc, k1, k2, encrypted, PREFIX2);
      computedMac := Cmac.XorBlock(computedMac, Cmac.XorBlock(nCMAC, adCMAC));
      for i := 0 to |mac|
        invariant mac[..i] == computedMac[..i]
      {
        if computedMac[i] != mac[i] {
          return None;
        }
      }
      assert mac == mac[..16] == computedMac[..16] == computedMac;
      return Some(Ctr(enc, nCMAC, encrypted));
    }
  }
}
