/** The Data Encryption Standard, FIPS 46-3, as printed: on bits, counted from 1
    at the left, with its tables row by row. */
module Fips46 {

  type Of64 = n: int | 1 <= n <= 64 witness 1

  type Of56 = n: int | 1 <= n <= 56 witness 1

  type Of32 = n: int | 1 <= n <= 32 witness 1

  type Nibble = n: int | 0 <= n < 16

  // The permutations: where each bit of the result comes from

  const INITIAL: seq<seq<Of64>> := [
    [58, 50, 42, 34, 26, 18, 10, 2],
    [60, 52, 44, 36, 28, 20, 12, 4],
    [62, 54, 46, 38, 30, 22, 14, 6],
    [64, 56, 48, 40, 32, 24, 16, 8],
    [57, 49, 41, 33, 25, 17, 9, 1],
    [59, 51, 43, 35, 27, 19, 11, 3],
    [61, 53, 45, 37, 29, 21, 13, 5],
    [63, 55, 47, 39, 31, 23, 15, 7]
  ]

  const FINAL: seq<seq<Of64>> := [
    [40, 8, 48, 16, 56, 24, 64, 32],
    [39, 7, 47, 15, 55, 23, 63, 31],
    [38, 6, 46, 14, 54, 22, 62, 30],
    [37, 5, 45, 13, 53, 21, 61, 29],
    [36, 4, 44, 12, 52, 20, 60, 28],
    [35, 3, 43, 11, 51, 19, 59, 27],
    [34, 2, 42, 10, 50, 18, 58, 26],
    [33, 1, 41, 9, 49, 17, 57, 25]
  ]

  const EXPANSION: seq<seq<Of32>> := [
    [32, 1, 2, 3, 4, 5],
    [4, 5, 6, 7, 8, 9],
    [8, 9, 10, 11, 12, 13],
    [12, 13, 14, 15, 16, 17],
    [16, 17, 18, 19, 20, 21],
    [20, 21, 22, 23, 24, 25],
    [24, 25, 26, 27, 28, 29],
    [28, 29, 30, 31, 32, 1]
  ]

  const PERMUTATION: seq<seq<Of32>> := [
    [16, 7, 20, 21],
    [29, 12, 28, 17],
    [1, 15, 23, 26],
    [5, 18, 31, 10],
    [2, 8, 24, 14],
    [32, 27, 3, 9],
    [19, 13, 30, 6],
    [22, 11, 4, 25]
  ]

  const CHOICE1: seq<seq<Of64>> := [
    [57, 49, 41, 33, 25, 17, 9],
    [1, 58, 50, 42, 34, 26, 18],
    [10, 2, 59, 51, 43, 35, 27],
    [19, 11, 3, 60, 52, 44, 36],
    [63, 55, 47, 39, 31, 23, 15],
    [7, 62, 54, 46, 38, 30, 22],
    [14, 6, 61, 53, 45, 37, 29],
    [21, 13, 5, 28, 20, 12, 4]
  ]

  const CHOICE2: seq<seq<Of56>> := [
    [14, 17, 11, 24, 1, 5],
    [3, 28, 15, 6, 21, 10],
    [23, 19, 12, 4, 26, 8],
    [16, 7, 27, 20, 13, 2],
    [41, 52, 31, 37, 47, 55],
    [30, 40, 51, 45, 33, 48],
    [44, 49, 39, 56, 34, 53],
    [46, 42, 50, 36, 29, 32]
  ]

  const SHIFTS: seq<nat> := [1, 1, 2, 2, 2, 2, 2, 2, 1, 2, 2, 2, 2, 2, 2, 1]

  // The tables' entries, both counted from 0

  function InitialFrom(i: nat): (p: nat)
    requires i < 64
    ensures p < 64
  {
    INITIAL[i / 8][i % 8] as int - 1
  }

  function FinalFrom(i: nat): (p: nat)
    requires i < 64
    ensures p < 64
  {
    FINAL[i / 8][i % 8] as int - 1
  }

  function ExpansionFrom(i: nat): (p: nat)
    requires i < 48
    ensures p < 32
  {
    EXPANSION[i / 6][i % 6] as int - 1
  }

  function PermutationFrom(i: nat): (p: nat)
    requires i < 32
    ensures p < 32
  {
    PERMUTATION[i / 4][i % 4] as int - 1
  }

  function Choice1From(i: nat): (p: nat)
    requires i < 56
    ensures p < 64
  {
    CHOICE1[i / 7][i % 7] as int - 1
  }

  function Choice2From(i: nat): (p: nat)
    requires i < 48
    ensures p < 56
  {
    CHOICE2[i / 6][i % 6] as int - 1
  }

  // The substitution boxes, in four rows of sixteen

  const S1: seq<seq<Nibble>> := [
    [14, 4, 13, 1, 2, 15, 11, 8, 3, 10, 6, 12, 5, 9, 0, 7],
    [0, 15, 7, 4, 14, 2, 13, 1, 10, 6, 12, 11, 9, 5, 3, 8],
    [4, 1, 14, 8, 13, 6, 2, 11, 15, 12, 9, 7, 3, 10, 5, 0],
    [15, 12, 8, 2, 4, 9, 1, 7, 5, 11, 3, 14, 10, 0, 6, 13]
  ]

  const S2: seq<seq<Nibble>> := [
    [15, 1, 8, 14, 6, 11, 3, 4, 9, 7, 2, 13, 12, 0, 5, 10],
    [3, 13, 4, 7, 15, 2, 8, 14, 12, 0, 1, 10, 6, 9, 11, 5],
    [0, 14, 7, 11, 10, 4, 13, 1, 5, 8, 12, 6, 9, 3, 2, 15],
    [13, 8, 10, 1, 3, 15, 4, 2, 11, 6, 7, 12, 0, 5, 14, 9]
  ]

  const S3: seq<seq<Nibble>> := [
    [10, 0, 9, 14, 6, 3, 15, 5, 1, 13, 12, 7, 11, 4, 2, 8],
    [13, 7, 0, 9, 3, 4, 6, 10, 2, 8, 5, 14, 12, 11, 15, 1],
    [13, 6, 4, 9, 8, 15, 3, 0, 11, 1, 2, 12, 5, 10, 14, 7],
    [1, 10, 13, 0, 6, 9, 8, 7, 4, 15, 14, 3, 11, 5, 2, 12]
  ]

  const S4: seq<seq<Nibble>> := [
    [7, 13, 14, 3, 0, 6, 9, 10, 1, 2, 8, 5, 11, 12, 4, 15],
    [13, 8, 11, 5, 6, 15, 0, 3, 4, 7, 2, 12, 1, 10, 14, 9],
    [10, 6, 9, 0, 12, 11, 7, 13, 15, 1, 3, 14, 5, 2, 8, 4],
    [3, 15, 0, 6, 10, 1, 13, 8, 9, 4, 5, 11, 12, 7, 2, 14]
  ]

  const S5: seq<seq<Nibble>> := [
    [2, 12, 4, 1, 7, 10, 11, 6, 8, 5, 3, 15, 13, 0, 14, 9],
    [14, 11, 2, 12, 4, 7, 13, 1, 5, 0, 15, 10, 3, 9, 8, 6],
    [4, 2, 1, 11, 10, 13, 7, 8, 15, 9, 12, 5, 6, 3, 0, 14],
    [11, 8, 12, 7, 1, 14, 2, 13, 6, 15, 0, 9, 10, 4, 5, 3]
  ]

  const S6: seq<seq<Nibble>> := [
    [12, 1, 10, 15, 9, 2, 6, 8, 0, 13, 3, 4, 14, 7, 5, 11],
    [10, 15, 4, 2, 7, 12, 9, 5, 6, 1, 13, 14, 0, 11, 3, 8],
    [9, 14, 15, 5, 2, 8, 12, 3, 7, 0, 4, 10, 1, 13, 11, 6],
    [4, 3, 2, 12, 9, 5, 15, 10, 11, 14, 1, 7, 6, 0, 8, 13]
  ]

  const S7: seq<seq<Nibble>> := [
    [4, 11, 2, 14, 15, 0, 8, 13, 3, 12, 9, 7, 5, 10, 6, 1],
    [13, 0, 11, 7, 4, 9, 1, 10, 14, 3, 5, 12, 2, 15, 8, 6],
    [1, 4, 11, 13, 12, 3, 7, 14, 10, 15, 6, 8, 0, 5, 9, 2],
    [6, 11, 13, 8, 1, 4, 10, 7, 9, 5, 0, 15, 14, 2, 3, 12]
  ]

  const S8: seq<seq<Nibble>> := [
    [13, 2, 8, 4, 6, 15, 11, 1, 10, 9, 3, 14, 5, 0, 12, 7],
    [1, 15, 13, 8, 10, 3, 7, 4, 12, 5, 6, 11, 0, 14, 9, 2],
    [7, 11, 4, 1, 9, 12, 14, 2, 0, 6, 10, 13, 15, 3, 5, 8],
    [2, 1, 14, 7, 4, 10, 8, 13, 15, 12, 9, 0, 3, 5, 6, 11]
  ]

  function Box(n: nat): (s: seq<seq<Nibble>>)
    requires n < 8
    ensures |s| == 4 && forall r | 0 <= r < 4 :: |s[r]| == 16
  {
    if n == 0 then S1 else if n == 1 then S2 else if n == 2 then S3 else if n == 3 then S4
    else if n == 4 then S5 else if n == 5 then S6 else if n == 6 then S7 else S8
  }

  function Number(b: bool): nat {
    if b then 1 else 0
  }

  function Row(b0: bool, b5: bool): (r: nat)
    ensures r < 4
  {
    2 * Number(b0) + Number(b5)
  }

  function Column(b1: bool, b2: bool, b3: bool, b4: bool): (c: nat)
    ensures c < 16
  {
    8 * Number(b1) + 4 * Number(b2) + 2 * Number(b3) + Number(b4)
  }

  /** The first and the last bit choose the row, the middle ones the column. */
  function Entry(box: seq<seq<Nibble>>, b0: bool, b1: bool, b2: bool, b3: bool, b4: bool, b5: bool): Nibble
    requires |box| == 4 && forall r | 0 <= r < 4 :: |box[r]| == 16
  {
    box[Row(b0, b5)][Column(b1, b2, b3, b4)]
  }

  /** Bit t of four, the highest first. */
  predicate NibbleBit(v: Nibble, t: nat)
    requires t < 4
  {
    (if t == 0 then v / 8 else if t == 1 then v / 4 else if t == 2 then v / 2 else v) % 2 == 1
  }

  /** Eight boxes, six bits in and four bits out. */
  function Substituted(b: seq<bool>): (r: seq<bool>)
    requires |b| == 48
    ensures |r| == 32
  {
    seq(32, i requires 0 <= i < 32 =>
      var n := i / 4;
      NibbleBit(Entry(Box(n), b[6 * n], b[6 * n + 1], b[6 * n + 2], b[6 * n + 3], b[6 * n + 4], b[6 * n + 5]), i % 4))
  }

  function Xor(a: seq<bool>, b: seq<bool>): (r: seq<bool>)
    requires |a| == |b|
    ensures |r| == |a|
  {
    seq(|a|, i requires 0 <= i < |a| => a[i] != b[i])
  }

  function Expanded(r: seq<bool>): (e: seq<bool>)
    requires |r| == 32
    ensures |e| == 48
  {
    seq(48, i requires 0 <= i < 48 => r[ExpansionFrom(i)])
  }

  function Permuted(b: seq<bool>): (r: seq<bool>)
    requires |b| == 32
    ensures |r| == 32
  {
    seq(32, i requires 0 <= i < 32 => b[PermutationFrom(i)])
  }

  function RoundFunction(r: seq<bool>, k: seq<bool>): (f: seq<bool>)
    requires |r| == 32 && |k| == 48
    ensures |f| == 32
  {
    Permuted(Substituted(Xor(Expanded(r), k)))
  }

  // The key schedule

  function Shifted(half: seq<bool>, n: nat): (r: seq<bool>)
    requires |half| == 28
    ensures |r| == 28
  {
    seq(28, i requires 0 <= i < 28 => half[(i + n) % 28])
  }

  function Chosen1(key: seq<bool>): (cd: seq<bool>)
    requires |key| == 64
    ensures |cd| == 56
  {
    seq(56, i requires 0 <= i < 56 => key[Choice1From(i)])
  }

  function Chosen2(cd: seq<bool>): (k: seq<bool>)
    requires |cd| == 56
    ensures |k| == 48
  {
    seq(48, i requires 0 <= i < 48 => cd[Choice2From(i)])
  }

  /** The halves C and D after n rounds. */
  function HalvesAfter(key: seq<bool>, n: nat): (cd: (seq<bool>, seq<bool>))
    requires |key| == 64 && n <= 16
    ensures |cd.0| == 28 && |cd.1| == 28
  {
    if n == 0 then (Chosen1(key)[..28], Chosen1(key)[28..]) else
    var cd := HalvesAfter(key, n - 1);
    (Shifted(cd.0, SHIFTS[n - 1]), Shifted(cd.1, SHIFTS[n - 1]))
  }

  /** The key of round n, from 1 on. */
  function RoundKey(key: seq<bool>, n: nat): (k: seq<bool>)
    requires |key| == 64 && 1 <= n <= 16
    ensures |k| == 48
  {
    var cd := HalvesAfter(key, n);
    Chosen2(cd.0 + cd.1)
  }

  // Enciphering

  function Initial(b: seq<bool>): (r: seq<bool>)
    requires |b| == 64
    ensures |r| == 64
  {
    seq(64, i requires 0 <= i < 64 => b[InitialFrom(i)])
  }

  function Final(b: seq<bool>): (r: seq<bool>)
    requires |b| == 64
    ensures |r| == 64
  {
    seq(64, i requires 0 <= i < 64 => b[FinalFrom(i)])
  }

  /** The halves L and R after n rounds. */
  function AfterRounds(block: seq<bool>, key: seq<bool>, n: nat): (lr: (seq<bool>, seq<bool>))
    requires |block| == 64 && |key| == 64 && n <= 16
    ensures |lr.0| == 32 && |lr.1| == 32
  {
    if n == 0 then (Initial(block)[..32], Initial(block)[32..]) else
    var (l, r) := AfterRounds(block, key, n - 1);
    (r, Xor(l, RoundFunction(r, RoundKey(key, n))))
  }

  function Enciphered(block: seq<bool>, key: seq<bool>): (r: seq<bool>)
    requires |block| == 64 && |key| == 64
    ensures |r| == 64
  {
    var (l, r) := AfterRounds(block, key, 16);
    Final(r + l)
  }
}
