/** Square-and-multiply, and numbers as hexadecimal byte strings. */
module ModPow {
  import opened Bytes

  function Power(b: nat, e: nat): nat {
    if e == 0 then 1 else b * Power(b, e - 1)
  }

  // Arithmetic modulo m

  lemma MulModulo(a: nat, b: nat, m: nat)
    requires m > 0
    ensures a % m * b % m == a * b % m
  {
    var q, r := a / m, a % m;
    assert a == q * m + r;
    var q', r' := r * b / m, r * b % m;
    assert r * b == q' * m + r';
    assert a * b == (q * m + r) * b == q * b * m + r * b == (q * b + q') * m + r';
    DivModUnique(a * b, m, q * b + q', r');
  }

  lemma {:induction false} PowerModulo(b: nat, e: nat, m: nat)
    requires m > 0
    ensures Power(b % m, e) % m == Power(b, e) % m
  {
    if e > 0 {
      PowerModulo(b, e - 1, m);
      var p, p' := Power(b % m, e - 1), Power(b, e - 1);
      MulModulo(p, b % m, m);
      MulModulo(p', b % m, m);
      MulModulo(b, p', m);
      assert p * (b % m) == b % m * p && p' * (b % m) == b % m * p';
    }
  }

  lemma {:induction false} PowerAdd(b: nat, e: nat, f: nat)
    ensures Power(b, e + f) == Power(b, e) * Power(b, f)
  {
    if e > 0 {
      PowerAdd(b, e - 1, f);
      Associate(b, Power(b, e - 1), Power(b, f));
    }
  }

  lemma Associate(a: nat, b: nat, c: nat)
    ensures a * (b * c) == a * b * c
  {
  }

  lemma {:induction false} PowerPower(b: nat, e: nat, f: nat)
    ensures Power(Power(b, e), f) == Power(b, e * f)
  {
    if f == 0 {
      assert e * f == 0;
    } else {
      PowerPower(b, e, f - 1);
      PowerAdd(b, e, e * (f - 1));
      assert e * f == e + e * (f - 1);
    }
  }

  /** Squaring the base halves the exponent. */
  lemma PowerHalves(b: nat, e: nat)
    ensures Power(b, e) == Power(b * b, e / 2) * (if e % 2 == 1 then b else 1)
  {
    assert Power(b, 2) == b * Power(b, 1) && Power(b, 1) == b * Power(b, 0);
    assert Power(b, 2) == b * b;
    PowerPower(b, 2, e / 2);
    PowerAdd(b, 2 * (e / 2), e % 2);
    assert Power(b, e % 2) == if e % 2 == 1 then b else 1;
  }

  function MulMod(a: nat, b: nat, m: nat): (r: nat)
    requires m > 0
    ensures r < m
  {
    a * b % m
  }

  /** What the loop computes: the power, except that a power of 0 is never reduced. */
  function ModPower(b: nat, e: nat, m: nat): nat
    requires m > 0
  {
    if e == 0 then 1 else Power(b, e) % m
  }

  /** It is the remainder of the power, unless both the exponent is 0 and the
      modulus 1. */
  lemma ModPowerIsRemainder(b: nat, e: nat, m: nat)
    requires m > 0
    ensures ModPower(b, e, m) == Power(b, e) % m <==> !(e == 0 && m == 1)
  {
  }

  /** r times what is left to compute gives the power, modulo m. */
  ghost predicate Reaches(r: nat, base: nat, exp: nat, m: nat, b: nat, e: nat)
    requires m > 0
  {
    MulMod(r, Power(base, exp), m) == Power(b, e) % m
  }

  lemma ReachesFirst(b: nat, e: nat, m: nat)
    requires m > 0
    ensures Reaches(1, b % m, e, m, b, e)
  {
    PowerModulo(b, e, m);
    assert 1 * Power(b % m, e) == Power(b % m, e);
  }

  lemma ReachesLast(r: nat, base: nat, m: nat, b: nat, e: nat)
    requires m > 0 && Reaches(r, base, 0, m, b, e) && r < m
    ensures r == Power(b, e) % m
  {
    assert r * 1 == r;
    DivModUnique(r, m, 0, r);
  }

  function Reduced(b: nat, m: nat): nat
    requires m > 0
  {
    b % m
  }

  method Compute(b: nat, e: nat, m: nat) returns (r: nat)
    requires m > 0
    ensures r == ModPower(b, e, m)
  {
    hide Power, MulMod, Reaches;
    ReachesFirst(b, e, m);
    r := 1;
    var base: nat, exp: nat := Reduced(b, m), e;
    hide Reduced;
    while exp > 0
      invariant Reaches(r, base, exp, m, b, e)
      invariant exp > 0 || e == 0 || r < m
      invariant e == 0 ==> r == 1 && exp == 0
      decreases exp
    {
      Step(r, base, exp, m, b, e);
      if exp % 2 == 1 {
        r := MulMod(r, base, m);
      }
      exp := exp / 2;
      base := MulMod(base, base, m);
    }
    if e > 0 {
      ReachesLast(r, base, m, b, e);
    }
  }

  lemma Step(r: nat, base: nat, exp: nat, m: nat, b: nat, e: nat)
    requires m > 0 && exp > 0 && Reaches(r, base, exp, m, b, e)
    ensures Reaches(if exp % 2 == 1 then MulMod(r, base, m) else r, MulMod(base, base, m), exp / 2, m, b, e)
  {
    PowerHalves(base, exp);
    var p := Power(base * base, exp / 2);
    PowerModulo(base * base, exp / 2, m);
    var p' := Power(base * base % m, exp / 2);
    var x := if exp % 2 == 1 then r * base else r;
    var r' := if exp % 2 == 1 then r * base % m else r;
    MulModulo(x, p', m);
    MulModulo(p', x, m);
    MulModulo(p, x, m);
    assert r' * p' % m == x * p' % m;
    assert x * p' == p' * x && x * p == p * x;
    assert x * p == r * Power(base, exp);
  }

  // Numbers as byte strings, by way of hexadecimal digits

  type digit = x: int | 0 <= x < 16

  function HexDigits(n: nat): (h: seq<digit>)
    ensures n > 0 ==> h != []
  {
    if n == 0 then [] else HexDigits(n / 16) + [n % 16]
  }

  /** What toString(16) gives. */
  function Hex(n: nat): (h: seq<digit>)
    ensures h != []
  {
    if n == 0 then [0] else HexDigits(n)
  }

  /** What BigInt makes of the digits. */
  function HexValue(h: seq<digit>): nat {
    if h == [] then 0 else 16 * HexValue(h[..|h| - 1]) + h[|h| - 1]
  }

  lemma {:induction false} HexDigitsValue(n: nat)
    ensures HexValue(HexDigits(n)) == n
  {
    if n > 0 {
      HexDigitsValue(n / 16);
      assert HexDigits(n)[..|HexDigits(n)| - 1] == HexDigits(n / 16);
    }
  }

  lemma HexRoundTrip(n: nat)
    ensures HexValue(Hex(n)) == n
  {
    HexDigitsValue(n);
    if n == 0 {
      assert [0 as digit][..0] == [];
    }
  }

  function Pow16(n: nat): (r: nat)
    ensures r > 0
  {
    if n == 0 then 1 else 16 * Pow16(n - 1)
  }

  /** No number below 16 to the k needs more than k digits. */
  lemma {:induction false} HexDigitsFit(n: nat, k: nat)
    requires n < Pow16(k)
    ensures |HexDigits(n)| <= k
  {
    if n > 0 {
      assert n / 16 < Pow16(k - 1);
      HexDigitsFit(n / 16, k - 1);
    }
  }

  lemma {:induction false} Pow16Of256(k: nat)
    ensures Pow16(2 * k) == Pow256(k)
  {
    if k > 0 {
      Pow16Of256(k - 1);
      assert Pow16(2 * k) == 16 * Pow16(2 * k - 1) && Pow16(2 * k - 1) == 16 * Pow16(2 * (k - 1));
    }
  }

  /** padStart: zeros in front, if there are too few digits. */
  function Padded(h: seq<digit>, size: nat): (p: seq<digit>)
    ensures |p| == if |h| < size then size else |h|
  {
    if |h| < size then seq(size - |h|, i => 0) + h else h
  }

  lemma {:induction false} ZerosInFront(k: nat, h: seq<digit>)
    ensures HexValue(seq(k, i => 0) + h) == HexValue(h)
    decreases k + |h|
  {
    var z: seq<digit> := seq(k, i => 0);
    var s := z + h;
    if h != [] {
      assert s[..|s| - 1] == z + h[..|h| - 1];
      ZerosInFront(k, h[..|h| - 1]);
    } else if k > 0 {
      assert s[..|s| - 1] == seq(k - 1, i => 0) + h;
      ZerosInFront(k - 1, h);
    } else {
      assert s == h;
    }
  }

  /** Two digits a byte. */
  function Pairs(h: seq<digit>): (arr: seq<byte>)
    ensures |arr| == |h| / 2
  {
    seq(|h| / 2, i requires 0 <= i < |h| / 2 => PairValue(h[2 * i], h[2 * i + 1]))
  }

  function PairValue(a: digit, b: digit): byte {
    16 * a + b
  }

  lemma {:induction false} PairsValue(h: seq<digit>)
    requires |h| % 2 == 0
    ensures BigEndian(Pairs(h)) == HexValue(h)
    decreases |h|
  {
    if h != [] {
      var n := |h| - 2;
      PairsValue(h[..n]);
      PairsLast(h);
      LastTwoDigits(h);
      hide Pairs, HexValue;
    }
  }

  lemma PairsLast(h: seq<digit>)
    requires |h| % 2 == 0 && h != []
    ensures var n, p := |h| - 2, Pairs(h);
            n % 2 == 0 && |p| > 0 && p[..|p| - 1] == Pairs(h[..n]) && p[|p| - 1] == PairValue(h[n], h[n + 1])
  {
  }

  lemma LastTwoDigits(h: seq<digit>)
    requires |h| >= 2
    ensures var n := |h| - 2; HexValue(h) == 256 * HexValue(h[..n]) + 16 * (h[n] as int) + h[n + 1]
  {
    var n := |h| - 2;
    var a := h[..n + 1];
    assert a[..n] == h[..n] && a[n] == h[n];
    assert HexValue(a) == 16 * HexValue(a[..n]) + a[n];
  }

  /** How many digits a number is padded to. */
  function Width(n: nat, padLength: nat): (w: nat)
    ensures w % 2 == 0 && (padLength > 0 ==> w == 2 * padLength)
  {
    2 * if padLength == 0 then (|Hex(n)| + 1) / 2 else padLength
  }

  lemma WidthSuffices(n: nat, padLength: nat)
    requires padLength == 0 || n < Pow256(padLength)
    ensures |Hex(n)| <= Width(n, padLength)
  {
    if padLength > 0 {
      Pow16Of256(padLength);
      HexDigitsFit(n, 2 * padLength);
    }
    hide HexDigits, Pow16, Pow256;
  }

  /** The padded digits of a number, two a byte. */
  function ToBytes(n: nat, padLength: nat): seq<byte> {
    Pairs(Padded(Hex(n), Width(n, padLength)))
  }

  /** A number that fits becomes bytes with its value, as many as were asked for. */
  lemma ToBytesValue(n: nat, padLength: nat)
    requires padLength == 0 || n < Pow256(padLength)
    ensures BigEndian(ToBytes(n, padLength)) == n
    ensures padLength > 0 ==> |ToBytes(n, padLength)| == padLength
  {
    hide Hex, HexDigits, HexValue, Pairs, Pow256, Pow16, Width, BigEndian;
    WidthSuffices(n, padLength);
    HexRoundTrip(n);
    PaddedValue(Hex(n), Width(n, padLength));
    PairsValue(Padded(Hex(n), Width(n, padLength)));
  }

  lemma PaddedValue(h: seq<digit>, size: nat)
    ensures HexValue(Padded(h, size)) == HexValue(h)
  {
    if |h| < size {
      ZerosInFront(size - |h|, h);
    }
  }

  method BigIntToU8Array(n: nat, padLength: nat) returns (arr: seq<byte>)
    ensures arr == ToBytes(n, padLength)
  {
    var hex := Hex(n);
    var digits := 2 * if padLength == 0 then (|hex| + 1) / 2 else padLength;
    assert digits == Width(n, padLength);
    hide Hex, HexDigits, Width;
    hex := Padded(hex, digits);
    arr := TakePairs(hex);
  }

  method TakePairs(hex: seq<digit>) returns (arr: seq<byte>)
    ensures arr == Pairs(hex)
  {
    arr := [];
    for i := 0 to |hex| / 2
      invariant |arr| == i && forall k | 0 <= k < i :: arr[k] == PairValue(hex[2 * k], hex[2 * k + 1])
    {
      arr := arr + [PairValue(hex[2 * i], hex[2 * i + 1])];
    }
  }

  /** The hexadecimal digits of bytes, two for each. */
  function DigitsOf(arr: seq<byte>): (h: seq<digit>)
    ensures |h| == 2 * |arr|
  {
    seq(2 * |arr|, k requires 0 <= k < 2 * |arr| => if k % 2 == 0 then arr[k / 2] / 16 else arr[k / 2] % 16)
  }

  lemma PairsOfDigits(arr: seq<byte>)
    ensures Pairs(DigitsOf(arr)) == arr
  {
  }

  /** No bytes at all are a syntax error. */
  method U8ArrayToBigInt(arr: seq<byte>) returns (n: Option<nat>)
    ensures n == if arr == [] then None else Some(BigEndian(arr))
  {
    var hex: seq<digit> := [];
    for i := 0 to |arr|
      invariant hex == DigitsOf(arr[..i])
    {
      hex := hex + Padded(Hex(arr[i]), 2);
      TwoDigits(arr[i]);
      assert arr[..i + 1] == arr[..i] + [arr[i]];
    }
    assert arr[..|arr|] == arr;
    if hex == [] {
      return None;
    }
    PairsOfDigits(arr);
    PairsValue(hex);
    return Some(HexValue(hex));
  }

  lemma TwoDigits(b: byte)
    ensures Padded(Hex(b), 2) == [b / 16, b % 16]
  {
    assert HexDigits(b / 16) == if b / 16 == 0 then [] else HexDigits(0) + [b / 16];
  }

  /** Bytes of one length are determined by their value. */
  lemma {:induction false} BigEndianInjective(a: seq<byte>, b: seq<byte>)
    requires |a| == |b| && BigEndian(a) == BigEndian(b)
    ensures a == b
  {
    if a != [] {
      var n := |a| - 1;
      UniqueQuotient(TWO_8, BigEndian(a[..n]), a[n], BigEndian(b[..n]), b[n]);
      BigEndianInjective(a[..n], b[..n]);
      assert a == a[..n] + [a[n]] && b == b[..n] + [b[n]];
    }
  }
}
