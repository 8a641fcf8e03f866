/** The RA2 message channel: each side counts its messages, and the count is the
    nonce. */
module Ra2 {
  import opened Bytes
  import opened Eax

  /** The count as sixteen bytes, the lowest first. */
  function Next(s: seq<byte>): (r: seq<byte>)
    ensures |r| == |s|
  {
    if s == [] then [] else if s[0] == 255 then [0] + Next(s[1..]) else [s[0] + 1] + s[1..]
  }

  function LittleEndian(s: seq<byte>): nat {
    if s == [] then 0 else s[0] + 256 * LittleEndian(s[1..])
  }

  lemma {:induction false} LittleEndianBound(s: seq<byte>)
    ensures LittleEndian(s) < Pow256(|s|)
  {
    if s != [] {
      LittleEndianBound(s[1..]);
    }
  }

  /** Counting up adds one, modulo the size of the counter. */
  lemma {:induction false} NextAddsOne(s: seq<byte>)
    ensures LittleEndian(Next(s)) == if LittleEndian(s) + 1 == Pow256(|s|) then 0 else LittleEndian(s) + 1
  {
    if s != [] {
      NextAddsOne(s[1..]);
      LittleEndianBound(s[1..]);
      if s[0] == 255 {
        assert Next(s)[1..] == Next(s[1..]);
      } else {
        assert Next(s)[1..] == s[1..];
      }
    }
  }

  function AsOctets(s: seq<byte>): (r: Octets)
    ensures |r| == |s|
  {
    seq(|s|, i requires 0 <= i < |s| => s[i] as bv8)
  }

  /** The length's two low bytes. */
  function Header(length: nat): (r: seq<byte>)
    ensures |r| == 2
  {
    U16(length)
  }

  function Made(enc: Cipher, counter: seq<byte>, message: Octets): Octets {
    AsOctets(Header(|message|)) + Seal(enc, AsOctets(Header(|message|)), AsOctets(counter), message)
  }

  function Received(enc: Cipher, counter: seq<byte>, length: nat, sealed: Octets): Option<Octets> {
    Eax.Open(enc, AsOctets(Header(length)), AsOctets(counter), sealed)
  }

  class RA2Cipher {
    const cipher: EaxCipher
    const counter: array<byte>

    ghost predicate Valid()
      reads counter
    {
      cipher.Valid() && counter.Length == 16
    }

    constructor (enc: Cipher)
      ensures Valid() && fresh(counter) && cipher.enc == enc
      ensures counter[..] == Zeros(16)
    {
      cipher := new EaxCipher(enc);
      counter := new byte[16](_ => 0);
    }

    method CountUp()
      requires counter.Length == 16
      modifies counter
      ensures counter[..] == Next(old(counter[..]))
    {
      hide Next, Zeros;
      ghost var s := counter[..];
      CarryStarts(s);
      var i := 0;
      var carry := true;
      while i < 16 && carry
        invariant 0 <= i <= 16
        invariant if carry then CarryAt(s, counter[..], i) else counter[..] == Next(s)
      {
        carry := counter[i] == 255;
        CarryStep(s, counter[..], i);
        counter[i] := if carry then 0 else counter[i] + 1;
        i := i + 1;
      }
      if carry {
        CarryEnds(s, counter[..]);
      }
    }

    method MakeMessage(message: Octets) returns (res: Octets)
      requires Valid()
      modifies counter
      ensures counter[..] == Next(old(counter[..])) && res == Made(cipher.enc, old(counter[..]), message)
    {
      var ad := AsOctets(Header(|message|));
      var encrypted := cipher.Encrypt(ad, AsOctets(counter[..]), message);
      CountUp();
      res := ad + encrypted;
    }

    /** The count goes up even when the message is not accepted. */
    method ReceiveMessage(length: nat, encrypted: Octets) returns (res: Option<Octets>)
      requires Valid()
      modifies counter
      ensures counter[..] == Next(old(counter[..])) && res == Received(cipher.enc, old(counter[..]), length, encrypted)
    {
      res := cipher.Decrypt(AsOctets(Header(length)), AsOctets(counter[..]), encrypted);
      CountUp();
    }
  }

  function Zeros(n: nat): (r: seq<byte>)
    ensures |r| == n
  {
    seq(n, i => 0)
  }

  /** The first i bytes were 255 and have become 0. */
  ghost predicate CarryAt(s: seq<byte>, now: seq<byte>, i: nat) {
    |now| == |s| && i <= |s| && now == Zeros(i) + s[i..] && Next(s) == Zeros(i) + Next(s[i..])
  }

  lemma CarryStarts(s: seq<byte>)
    ensures CarryAt(s, s, 0)
  {
    assert s[0..] == s && Zeros(0) == [] && [] + s == s && [] + Next(s) == Next(s);
  }

  lemma CarryStep(s: seq<byte>, now: seq<byte>, i: nat)
    requires CarryAt(s, now, i) && i < |s|
    ensures now[i] == s[i]
    ensures s[i] == 255 ==> CarryAt(s, now[i := 0], i + 1)
    ensures s[i] != 255 ==> now[i := s[i] + 1] == Next(s)
  {
    CarryParts(s, now, i, if s[i] == 255 then 0 else s[i] + 1);
    assert Next(s[i..]) == if s[i] == 255 then [0] + Next(s[i..][1..]) else [s[i] + 1] + s[i..][1..];
    hide Next, Zeros;
    if s[i] == 255 {
      Reassociate(Zeros(i), [0], Next(s[i + 1..]));
    } else {
      Reassociate(Zeros(i), [s[i] + 1], s[i + 1..]);
    }
  }

  lemma CarryParts(s: seq<byte>, now: seq<byte>, i: nat, b: byte)
    requires i < |s| && now == Zeros(i) + s[i..]
    ensures |now| == |s| && now[i] == s[i] && s[i..][1..] == s[i + 1..] && s[i..][0] == s[i]
    ensures now[i := b] == Zeros(i) + [b] + s[i + 1..] && Zeros(i + 1) == Zeros(i) + [0]
  {
  }

  lemma Reassociate(a: seq<byte>, b: seq<byte>, c: seq<byte>)
    ensures a + (b + c) == a + b + c
  {
  }

  lemma CarryEnds(s: seq<byte>, now: seq<byte>)
    requires CarryAt(s, now, |s|)
    ensures now == Next(s)
  {
    assert s[|s|..] == [] && Next([]) == [];
  }

  // A conversation

  function CounterAfter(counter: seq<byte>, n: nat): (r: seq<byte>)
    ensures |r| == |counter|
    decreases n
  {
    if n == 0 then counter else Next(CounterAfter(counter, n - 1))
  }

  /** After n messages the counter is n, modulo 2^128. */
  lemma {:induction false} CounterCounts(n: nat)
    ensures LittleEndian(CounterAfter(Zeros(16), n)) == n % Pow256(16)
  {
    hide Pow256, LittleEndian, Next;
    if n == 0 {
      ZeroIsZero(16);
    } else {
      CounterCounts(n - 1);
      NextAddsOne(CounterAfter(Zeros(16), n - 1));
      NextModulo(n - 1, Pow256(16));
    }
  }

  lemma NextModulo(n: nat, m: nat)
    requires m > 0
    ensures (n + 1) % m == if n % m + 1 == m then 0 else n % m + 1
  {
    if n % m + 1 == m {
      DivModUnique(n + 1, m, n / m + 1, 0);
    } else {
      DivModUnique(n + 1, m, n / m, n % m + 1);
    }
  }

  lemma {:induction false} ZeroIsZero(n: nat)
    ensures LittleEndian(Zeros(n)) == 0
  {
    if n > 0 {
      assert Zeros(n)[1..] == Zeros(n - 1);
      ZeroIsZero(n - 1);
    }
  }

  /** The receiver reads a length, and then so many bytes and a tag. */
  function TakenFrom(enc: Cipher, counter: seq<byte>, length: nat, wire: Octets): Option<Octets>
  {
    if |wire| < 2 + length + 16 then None else Received(enc, counter, length, wire[2..2 + length + 16])
  }

  /** The length that a message's header gives. */
  function Announced(message: Octets): nat {
    BigEndian(Header(|message|))
  }

  /** A message sent with some count and received with the same comes through
      exactly if its length fits its header. */
  lemma MessageArrives(enc: Cipher, counter: seq<byte>, message: Octets)
    ensures var wire := Made(enc, counter, message);
            TakenFrom(enc, counter, Announced(message), wire) == Some(message) <==> |message| < 65536
  {
    var length := Announced(message);
    BigEndianInverts(|message|);
    assert length == |message| % 65536;
    var wire := Made(enc, counter, message);
    var head := AsOctets(Header(|message|));
    hide Seal, Eax.Open;
    if |message| < 65536 {
      assert wire[2..2 + length + 16] == Seal(enc, head, AsOctets(counter), message);
      OpensExactlySealed(enc, head, AsOctets(counter), wire[2..], message);
      assert wire[2..2 + length + 16] == wire[2..];
    } else {
      var taken := wire[2..2 + length + 16];
      OpensExactlySealed(enc, AsOctets(Header(length)), AsOctets(counter), taken, message);
      assert |taken| == length + 16 < |message| + 16;
    }
  }

  /** What the other side gets of messages sent one after the other. */
  function Conversation(enc: Cipher, sender: seq<byte>, receiver: seq<byte>, messages: seq<Octets>): seq<Option<Octets>>
    decreases |messages|
  {
    if messages == [] then [] else
    [TakenFrom(enc, receiver, Announced(messages[0]), Made(enc, sender, messages[0]))]
    + Conversation(enc, Next(sender), Next(receiver), messages[1..])
  }

  /** Over any sequence of messages two ciphers with one key and equal counters
      stay in step, and every message received is the one that was sent. */
  lemma {:induction false} ConversationArrives(enc: Cipher, counter: seq<byte>, messages: seq<Octets>)
    requires forall i | 0 <= i < |messages| :: |messages[i]| < 65536
    ensures Conversation(enc, counter, counter, messages)
            == seq(|messages|, i requires 0 <= i < |messages| => Some(messages[i]))
    decreases |messages|
  {
    hide TakenFrom, Made;
    if messages != [] {
      MessageArrives(enc, counter, messages[0]);
      ConversationArrives(enc, Next(counter), messages[1..]);
    }
  }

  /** Message number n: its length in two bytes, the higher first, and then the message
      sealed with these bytes as header and with n, the lowest of sixteen bytes first,
      as nonce. */
  lemma MessageIs(enc: Cipher, n: nat, message: Octets)
    ensures var counter := CounterAfter(Zeros(16), n);
            var length := |message| % 65536;
            var head := [(length / 256) as bv8, (length % 256) as bv8];
            && |counter| == 16 && LittleEndian(counter) == n % Pow256(16)
            && Made(enc, counter, message) == head + Seal(enc, head, AsOctets(counter), message)
  {
    hide CounterAfter, Seal, Pow256;
    CounterCounts(n);
    LowBytes(|message|);
    assert AsOctets(Header(|message|)) == [(|message| % 65536 / 256) as bv8, (|message| % 65536 % 256) as bv8];
  }

  lemma LowBytes(n: nat)
    ensures n % 65536 / 256 == n / 256 % 256 && n % 65536 % 256 == n % 256
  {
    Remainder16(n);
    DivModUnique(n % 65536, 256, n / 256 % 256, n % 256);
  }
}
