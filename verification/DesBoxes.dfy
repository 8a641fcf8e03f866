/** The tables of the cipher are the substitution boxes of the standard, each with the
    permutation behind it already applied. */
module DesBoxes {
  import opened DesTables
  import opened DesKeys
  import opened DesWords
  import opened Des
  import opened DesBits
  import Fips46

  /** The word that each value of a box becomes: its four bits, permuted and turned by
      one bit. */
  const PLACED: seq<seq<bv32>> := [
    [
      0x00000000, 0x00000004, 0x00000400, 0x00000404, 0x00010000, 0x00010004, 0x00010400, 0x00010404,
      0x01000000, 0x01000004, 0x01000400, 0x01000404, 0x01010000, 0x01010004, 0x01010400, 0x01010404
    ],
    [
      0x00000000, 0x00008000, 0x80000000, 0x80008000, 0x00000020, 0x00008020, 0x80000020, 0x80008020,
      0x00100000, 0x00108000, 0x80100000, 0x80108000, 0x00100020, 0x00108020, 0x80100020, 0x80108020
    ],
    [
      0x00000000, 0x08000000, 0x00000008, 0x08000008, 0x00020000, 0x08020000, 0x00020008, 0x08020008,
      0x00000200, 0x08000200, 0x00000208, 0x08000208, 0x00020200, 0x08020200, 0x00020208, 0x08020208
    ],
    [
      0x00000000, 0x00000001, 0x00800000, 0x00800001, 0x00002000, 0x00002001, 0x00802000, 0x00802001,
      0x00000080, 0x00000081, 0x00800080, 0x00800081, 0x00002080, 0x00002081, 0x00802080, 0x00802081
    ],
    [
      0x00000000, 0x40000000, 0x00000100, 0x40000100, 0x00080000, 0x40080000, 0x00080100, 0x40080100,
      0x02000000, 0x42000000, 0x02000100, 0x42000100, 0x02080000, 0x42080000, 0x02080100, 0x42080100
    ],
    [
      0x00000000, 0x00004000, 0x00400000, 0x00404000, 0x00000010, 0x00004010, 0x00400010, 0x00404010,
      0x20000000, 0x20004000, 0x20400000, 0x20404000, 0x20000010, 0x20004010, 0x20400010, 0x20404010
    ],
    [
      0x00000000, 0x04000000, 0x00000800, 0x04000800, 0x00200000, 0x04200000, 0x00200800, 0x04200800,
      0x00000002, 0x04000002, 0x00000802, 0x04000802, 0x00200002, 0x04200002, 0x00200802, 0x04200802
    ],
    [
      0x00000000, 0x00001000, 0x00040000, 0x00041000, 0x00000040, 0x00001040, 0x00040040, 0x00041040,
      0x10000000, 0x10001000, 0x10040000, 0x10041000, 0x10000040, 0x10001040, 0x10040040, 0x10041040
    ]
  ]

  ghost predicate EntryAt(box: seq<seq<bv32>>, s: seq<seq<Fips46.Nibble>>, words: seq<bv32>, i: int, j: int, row: int, column: int) {
    && 0 <= i < |box| && 0 <= j < |box[i]|
    && 0 <= row < |s| && 0 <= column < |s[row]|
    && s[row][column] < |words|
    && box[i][j] == words[s[row][column]]
  }

  lemma Entries1A()
    ensures EntryAt(SP1, Fips46.S1, PLACED[0], 0, 0, 0, 0) && EntryAt(SP1, Fips46.S1, PLACED[0], 0, 1, 1, 0) && EntryAt(SP1, Fips46.S1, PLACED[0], 0, 2, 0, 1) && EntryAt(SP1, Fips46.S1, PLACED[0], 0, 3, 1, 1)
    ensures EntryAt(SP1, Fips46.S1, PLACED[0], 0, 4, 0, 2) && EntryAt(SP1, Fips46.S1, PLACED[0], 0, 5, 1, 2) && EntryAt(SP1, Fips46.S1, PLACED[0], 0, 6, 0, 3) && EntryAt(SP1, Fips46.S1, PLACED[0], 0, 7, 1, 3)
    ensures EntryAt(SP1, Fips46.S1, PLACED[0], 1, 0, 0, 4) && EntryAt(SP1, Fips46.S1, PLACED[0], 1, 1, 1, 4) && EntryAt(SP1, Fips46.S1, PLACED[0], 1, 2, 0, 5) && EntryAt(SP1, Fips46.S1, PLACED[0], 1, 3, 1, 5)
    ensures EntryAt(SP1, Fips46.S1, PLACED[0], 1, 4, 0, 6) && EntryAt(SP1, Fips46.S1, PLACED[0], 1, 5, 1, 6) && EntryAt(SP1, Fips46.S1, PLACED[0], 1, 6, 0, 7) && EntryAt(SP1, Fips46.S1, PLACED[0], 1, 7, 1, 7)
    ensures EntryAt(SP1, Fips46.S1, PLACED[0], 2, 0, 0, 8) && EntryAt(SP1, Fips46.S1, PLACED[0], 2, 1, 1, 8) && EntryAt(SP1, Fips46.S1, PLACED[0], 2, 2, 0, 9) && EntryAt(SP1, Fips46.S1, PLACED[0], 2, 3, 1, 9)
    ensures EntryAt(SP1, Fips46.S1, PLACED[0], 2, 4, 0, 10) && EntryAt(SP1, Fips46.S1, PLACED[0], 2, 5, 1, 10) && EntryAt(SP1, Fips46.S1, PLACED[0], 2, 6, 0, 11) && EntryAt(SP1, Fips46.S1, PLACED[0], 2, 7, 1, 11)
    ensures EntryAt(SP1, Fips46.S1, PLACED[0], 3, 0, 0, 12) && EntryAt(SP1, Fips46.S1, PLACED[0], 3, 1, 1, 12) && EntryAt(SP1, Fips46.S1, PLACED[0], 3, 2, 0, 13) && EntryAt(SP1, Fips46.S1, PLACED[0], 3, 3, 1, 13)
    ensures EntryAt(SP1, Fips46.S1, PLACED[0], 3, 4, 0, 14) && EntryAt(SP1, Fips46.S1, PLACED[0], 3, 5, 1, 14) && EntryAt(SP1, Fips46.S1, PLACED[0], 3, 6, 0, 15) && EntryAt(SP1, Fips46.S1, PLACED[0], 3, 7, 1, 15)
  {
  }

  lemma Entries1B()
    ensures EntryAt(SP1, Fips46.S1, PLACED[0], 4, 0, 2, 0) && EntryAt(SP1, Fips46.S1, PLACED[0], 4, 1, 3, 0) && EntryAt(SP1, Fips46.S1, PLACED[0], 4, 2, 2, 1) && EntryAt(SP1, Fips46.S1, PLACED[0], 4, 3, 3, 1)
    ensures EntryAt(SP1, Fips46.S1, PLACED[0], 4, 4, 2, 2) && EntryAt(SP1, Fips46.S1, PLACED[0], 4, 5, 3, 2) && EntryAt(SP1, Fips46.S1, PLACED[0], 4, 6, 2, 3) && EntryAt(SP1, Fips46.S1, PLACED[0], 4, 7, 3, 3)
    ensures EntryAt(SP1, Fips46.S1, PLACED[0], 5, 0, 2, 4) && EntryAt(SP1, Fips46.S1, PLACED[0], 5, 1, 3, 4) && EntryAt(SP1, Fips46.S1, PLACED[0], 5, 2, 2, 5) && EntryAt(SP1, Fips46.S1, PLACED[0], 5, 3, 3, 5)
    ensures EntryAt(SP1, Fips46.S1, PLACED[0], 5, 4, 2, 6) && EntryAt(SP1, Fips46.S1, PLACED[0], 5, 5, 3, 6) && EntryAt(SP1, Fips46.S1, PLACED[0], 5, 6, 2, 7) && EntryAt(SP1, Fips46.S1, PLACED[0], 5, 7, 3, 7)
    ensures EntryAt(SP1, Fips46.S1, PLACED[0], 6, 0, 2, 8) && EntryAt(SP1, Fips46.S1, PLACED[0], 6, 1, 3, 8) && EntryAt(SP1, Fips46.S1, PLACED[0], 6, 2, 2, 9) && EntryAt(SP1, Fips46.S1, PLACED[0], 6, 3, 3, 9)
    ensures EntryAt(SP1, Fips46.S1, PLACED[0], 6, 4, 2, 10) && EntryAt(SP1, Fips46.S1, PLACED[0], 6, 5, 3, 10) && EntryAt(SP1, Fips46.S1, PLACED[0], 6, 6, 2, 11) && EntryAt(SP1, Fips46.S1, PLACED[0], 6, 7, 3, 11)
    ensures EntryAt(SP1, Fips46.S1, PLACED[0], 7, 0, 2, 12) && EntryAt(SP1, Fips46.S1, PLACED[0], 7, 1, 3, 12) && EntryAt(SP1, Fips46.S1, PLACED[0], 7, 2, 2, 13) && EntryAt(SP1, Fips46.S1, PLACED[0], 7, 3, 3, 13)
    ensures EntryAt(SP1, Fips46.S1, PLACED[0], 7, 4, 2, 14) && EntryAt(SP1, Fips46.S1, PLACED[0], 7, 5, 3, 14) && EntryAt(SP1, Fips46.S1, PLACED[0], 7, 6, 2, 15) && EntryAt(SP1, Fips46.S1, PLACED[0], 7, 7, 3, 15)
  {
  }

  lemma Entries2A()
    ensures EntryAt(SP2, Fips46.S2, PLACED[1], 0, 0, 0, 0) && EntryAt(SP2, Fips46.S2, PLACED[1], 0, 1, 1, 0) && EntryAt(SP2, Fips46.S2, PLACED[1], 0, 2, 0, 1) && EntryAt(SP2, Fips46.S2, PLACED[1], 0, 3, 1, 1)
    ensures EntryAt(SP2, Fips46.S2, PLACED[1], 0, 4, 0, 2) && EntryAt(SP2, Fips46.S2, PLACED[1], 0, 5, 1, 2) && EntryAt(SP2, Fips46.S2, PLACED[1], 0, 6, 0, 3) && EntryAt(SP2, Fips46.S2, PLACED[1], 0, 7, 1, 3)
    ensures EntryAt(SP2, Fips46.S2, PLACED[1], 1, 0, 0, 4) && EntryAt(SP2, Fips46.S2, PLACED[1], 1, 1, 1, 4) && EntryAt(SP2, Fips46.S2, PLACED[1], 1, 2, 0, 5) && EntryAt(SP2, Fips46.S2, PLACED[1], 1, 3, 1, 5)
    ensures EntryAt(SP2, Fips46.S2, PLACED[1], 1, 4, 0, 6) && EntryAt(SP2, Fips46.S2, PLACED[1], 1, 5, 1, 6) && EntryAt(SP2, Fips46.S2, PLACED[1], 1, 6, 0, 7) && EntryAt(SP2, Fips46.S2, PLACED[1], 1, 7, 1, 7)
    ensures EntryAt(SP2, Fips46.S2, PLACED[1], 2, 0, 0, 8) && EntryAt(SP2, Fips46.S2, PLACED[1], 2, 1, 1, 8) && EntryAt(SP2, Fips46.S2, PLACED[1], 2, 2, 0, 9) && EntryAt(SP2, Fips46.S2, PLACED[1], 2, 3, 1, 9)
    ensures EntryAt(SP2, Fips46.S2, PLACED[1], 2, 4, 0, 10) && EntryAt(SP2, Fips46.S2, PLACED[1], 2, 5, 1, 10) && EntryAt(SP2, Fips46.S2, PLACED[1], 2, 6, 0, 11) && EntryAt(SP2, Fips46.S2, PLACED[1], 2, 7, 1, 11)
    ensures EntryAt(SP2, Fips46.S2, PLACED[1], 3, 0, 0, 12) && EntryAt(SP2, Fips46.S2, PLACED[1], 3, 1, 1, 12) && EntryAt(SP2, Fips46.S2, PLACED[1], 3, 2, 0, 13) && EntryAt(SP2, Fips46.S2, PLACED[1], 3, 3, 1, 13)
    ensures EntryAt(SP2, Fips46.S2, PLACED[1], 3, 4, 0, 14) && EntryAt(SP2, Fips46.S2, PLACED[1], 3, 5, 1, 14) && EntryAt(SP2, Fips46.S2, PLACED[1], 3, 6, 0, 15) && EntryAt(SP2, Fips46.S2, PLACED[1], 3, 7, 1, 15)
  {
  }

  lemma Entries2B()
    ensures EntryAt(SP2, Fips46.S2, PLACED[1], 4, 0, 2, 0) && EntryAt(SP2, Fips46.S2, PLACED[1], 4, 1, 3, 0) && EntryAt(SP2, Fips46.S2, PLACED[1], 4, 2, 2, 1) && EntryAt(SP2, Fips46.S2, PLACED[1], 4, 3, 3, 1)
    ensures EntryAt(SP2, Fips46.S2, PLACED[1], 4, 4, 2, 2) && EntryAt(SP2, Fips46.S2, PLACED[1], 4, 5, 3, 2) && EntryAt(SP2, Fips46.S2, PLACED[1], 4, 6, 2, 3) && EntryAt(SP2, Fips46.S2, PLACED[1], 4, 7, 3, 3)
    ensures EntryAt(SP2, Fips46.S2, PLACED[1], 5, 0, 2, 4) && EntryAt(SP2, Fips46.S2, PLACED[1], 5, 1, 3, 4) && EntryAt(SP2, Fips46.S2, PLACED[1], 5, 2, 2, 5) && EntryAt(SP2, Fips46.S2, PLACED[1], 5, 3, 3, 5)
    ensures EntryAt(SP2, Fips46.S2, PLACED[1], 5, 4, 2, 6) && EntryAt(SP2, Fips46.S2, PLACED[1], 5, 5, 3, 6) && EntryAt(SP2, Fips46.S2, PLACED[1], 5, 6, 2, 7) && EntryAt(SP2, Fips46.S2, PLACED[1], 5, 7, 3, 7)
    ensures EntryAt(SP2, Fips46.S2, PLACED[1], 6, 0, 2, 8) && EntryAt(SP2, Fips46.S2, PLACED[1], 6, 1, 3, 8) && EntryAt(SP2, Fips46.S2, PLACED[1], 6, 2, 2, 9) && EntryAt(SP2, Fips46.S2, PLACED[1], 6, 3, 3, 9)
    ensures EntryAt(SP2, Fips46.S2, PLACED[1], 6, 4, 2, 10) && EntryAt(SP2, Fips46.S2, PLACED[1], 6, 5, 3, 10) && EntryAt(SP2, Fips46.S2, PLACED[1], 6, 6, 2, 11) && EntryAt(SP2, Fips46.S2, PLACED[1], 6, 7, 3, 11)
    ensures EntryAt(SP2, Fips46.S2, PLACED[1], 7, 0, 2, 12) && EntryAt(SP2, Fips46.S2, PLACED[1], 7, 1, 3, 12) && EntryAt(SP2, Fips46.S2, PLACED[1], 7, 2, 2, 13) && EntryAt(SP2, Fips46.S2, PLACED[1], 7, 3, 3, 13)
    ensures EntryAt(SP2, Fips46.S2, PLACED[1], 7, 4, 2, 14) && EntryAt(SP2, Fips46.S2, PLACED[1], 7, 5, 3, 14) && EntryAt(SP2, Fips46.S2, PLACED[1], 7, 6, 2, 15) && EntryAt(SP2, Fips46.S2, PLACED[1], 7, 7, 3, 15)
  {
  }

  lemma Entries3A()
    ensures EntryAt(SP3, Fips46.S3, PLACED[2], 0, 0, 0, 0) && EntryAt(SP3, Fips46.S3, PLACED[2], 0, 1, 1, 0) && EntryAt(SP3, Fips46.S3, PLACED[2], 0, 2, 0, 1) && EntryAt(SP3, Fips46.S3, PLACED[2], 0, 3, 1, 1)
    ensures EntryAt(SP3, Fips46.S3, PLACED[2], 0, 4, 0, 2) && EntryAt(SP3, Fips46.S3, PLACED[2], 0, 5, 1, 2) && EntryAt(SP3, Fips46.S3, PLACED[2], 0, 6, 0, 3) && EntryAt(SP3, Fips46.S3, PLACED[2], 0, 7, 1, 3)
    ensures EntryAt(SP3, Fips46.S3, PLACED[2], 1, 0, 0, 4) && EntryAt(SP3, Fips46.S3, PLACED[2], 1, 1, 1, 4) && EntryAt(SP3, Fips46.S3, PLACED[2], 1, 2, 0, 5) && EntryAt(SP3, Fips46.S3, PLACED[2], 1, 3, 1, 5)
    ensures EntryAt(SP3, Fips46.S3, PLACED[2], 1, 4, 0, 6) && EntryAt(SP3, Fips46.S3, PLACED[2], 1, 5, 1, 6) && EntryAt(SP3, Fips46.S3, PLACED[2], 1, 6, 0, 7) && EntryAt(SP3, Fips46.S3, PLACED[2], 1, 7, 1, 7)
    ensures EntryAt(SP3, Fips46.S3, PLACED[2], 2, 0, 0, 8) && EntryAt(SP3, Fips46.S3, PLACED[2], 2, 1, 1, 8) && EntryAt(SP3, Fips46.S3, PLACED[2], 2, 2, 0, 9) && EntryAt(SP3, Fips46.S3, PLACED[2], 2, 3, 1, 9)
    ensures EntryAt(SP3, Fips46.S3, PLACED[2], 2, 4, 0, 10) && EntryAt(SP3, Fips46.S3, PLACED[2], 2, 5, 1, 10) && EntryAt(SP3, Fips46.S3, PLACED[2], 2, 6, 0, 11) && EntryAt(SP3, Fips46.S3, PLACED[2], 2, 7, 1, 11)
    ensures EntryAt(SP3, Fips46.S3, PLACED[2], 3, 0, 0, 12) && EntryAt(SP3, Fips46.S3, PLACED[2], 3, 1, 1, 12) && EntryAt(SP3, Fips46.S3, PLACED[2], 3, 2, 0, 13) && EntryAt(SP3, Fips46.S3, PLACED[2], 3, 3, 1, 13)
    ensures EntryAt(SP3, Fips46.S3, PLACED[2], 3, 4, 0, 14) && EntryAt(SP3, Fips46.S3, PLACED[2], 3, 5, 1, 14) && EntryAt(SP3, Fips46.S3, PLACED[2], 3, 6, 0, 15) && EntryAt(SP3, Fips46.S3, PLACED[2], 3, 7, 1, 15)
  {
  }

  lemma Entries3B()
    ensures EntryAt(SP3, Fips46.S3, PLACED[2], 4, 0, 2, 0) && EntryAt(SP3, Fips46.S3, PLACED[2], 4, 1, 3, 0) && EntryAt(SP3, Fips46.S3, PLACED[2], 4, 2, 2, 1) && EntryAt(SP3, Fips46.S3, PLACED[2], 4, 3, 3, 1)
    ensures EntryAt(SP3, Fips46.S3, PLACED[2], 4, 4, 2, 2) && EntryAt(SP3, Fips46.S3, PLACED[2], 4, 5, 3, 2) && EntryAt(SP3, Fips46.S3, PLACED[2], 4, 6, 2, 3) && EntryAt(SP3, Fips46.S3, PLACED[2], 4, 7, 3, 3)
    ensures EntryAt(SP3, Fips46.S3, PLACED[2], 5, 0, 2, 4) && EntryAt(SP3, Fips46.S3, PLACED[2], 5, 1, 3, 4) && EntryAt(SP3, Fips46.S3, PLACED[2], 5, 2, 2, 5) && EntryAt(SP3, Fips46.S3, PLACED[2], 5, 3, 3, 5)
    ensures EntryAt(SP3, Fips46.S3, PLACED[2], 5, 4, 2, 6) && EntryAt(SP3, Fips46.S3, PLACED[2], 5, 5, 3, 6) && EntryAt(SP3, Fips46.S3, PLACED[2], 5, 6, 2, 7) && EntryAt(SP3, Fips46.S3, PLACED[2], 5, 7, 3, 7)
    ensures EntryAt(SP3, Fips46.S3, PLACED[2], 6, 0, 2, 8) && EntryAt(SP3, Fips46.S3, PLACED[2], 6, 1, 3, 8) && EntryAt(SP3, Fips46.S3, PLACED[2], 6, 2, 2, 9) && EntryAt(SP3, Fips46.S3, PLACED[2], 6, 3, 3, 9)
    ensures EntryAt(SP3, Fips46.S3, PLACED[2], 6, 4, 2, 10) && EntryAt(SP3, Fips46.S3, PLACED[2], 6, 5, 3, 10) && EntryAt(SP3, Fips46.S3, PLACED[2], 6, 6, 2, 11) && EntryAt(SP3, Fips46.S3, PLACED[2], 6, 7, 3, 11)
    ensures EntryAt(SP3, Fips46.S3, PLACED[2], 7, 0, 2, 12) && EntryAt(SP3, Fips46.S3, PLACED[2], 7, 1, 3, 12) && EntryAt(SP3, Fips46.S3, PLACED[2], 7, 2, 2, 13) && EntryAt(SP3, Fips46.S3, PLACED[2], 7, 3, 3, 13)
    ensures EntryAt(SP3, Fips46.S3, PLACED[2], 7, 4, 2, 14) && EntryAt(SP3, Fips46.S3, PLACED[2], 7, 5, 3, 14) && EntryAt(SP3, Fips46.S3, PLACED[2], 7, 6, 2, 15) && EntryAt(SP3, Fips46.S3, PLACED[2], 7, 7, 3, 15)
  {
  }

  lemma Entries4A()
    ensures EntryAt(SP4, Fips46.S4, PLACED[3], 0, 0, 0, 0) && EntryAt(SP4, Fips46.S4, PLACED[3], 0, 1, 1, 0) && EntryAt(SP4, Fips46.S4, PLACED[3], 0, 2, 0, 1) && EntryAt(SP4, Fips46.S4, PLACED[3], 0, 3, 1, 1)
    ensures EntryAt(SP4, Fips46.S4, PLACED[3], 0, 4, 0, 2) && EntryAt(SP4, Fips46.S4, PLACED[3], 0, 5, 1, 2) && EntryAt(SP4, Fips46.S4, PLACED[3], 0, 6, 0, 3) && EntryAt(SP4, Fips46.S4, PLACED[3], 0, 7, 1, 3)
    ensures EntryAt(SP4, Fips46.S4, PLACED[3], 1, 0, 0, 4) && EntryAt(SP4, Fips46.S4, PLACED[3], 1, 1, 1, 4) && EntryAt(SP4, Fips46.S4, PLACED[3], 1, 2, 0, 5) && EntryAt(SP4, Fips46.S4, PLACED[3], 1, 3, 1, 5)
    ensures EntryAt(SP4, Fips46.S4, PLACED[3], 1, 4, 0, 6) && EntryAt(SP4, Fips46.S4, PLACED[3], 1, 5, 1, 6) && EntryAt(SP4, Fips46.S4, PLACED[3], 1, 6, 0, 7) && EntryAt(SP4, Fips46.S4, PLACED[3], 1, 7, 1, 7)
    ensures EntryAt(SP4, Fips46.S4, PLACED[3], 2, 0, 0, 8) && EntryAt(SP4, Fips46.S4, PLACED[3], 2, 1, 1, 8) && EntryAt(SP4, Fips46.S4, PLACED[3], 2, 2, 0, 9) && EntryAt(SP4, Fips46.S4, PLACED[3], 2, 3, 1, 9)
    ensures EntryAt(SP4, Fips46.S4, PLACED[3], 2, 4, 0, 10) && EntryAt(SP4, Fips46.S4, PLACED[3], 2, 5, 1, 10) && EntryAt(SP4, Fips46.S4, PLACED[3], 2, 6, 0, 11) && EntryAt(SP4, Fips46.S4, PLACED[3], 2, 7, 1, 11)
    ensures EntryAt(SP4, Fips46.S4, PLACED[3], 3, 0, 0, 12) && EntryAt(SP4, Fips46.S4, PLACED[3], 3, 1, 1, 12) && EntryAt(SP4, Fips46.S4, PLACED[3], 3, 2, 0, 13) && EntryAt(SP4, Fips46.S4, PLACED[3], 3, 3, 1, 13)
    ensures EntryAt(SP4, Fips46.S4, PLACED[3], 3, 4, 0, 14) && EntryAt(SP4, Fips46.S4, PLACED[3], 3, 5, 1, 14) && EntryAt(SP4, Fips46.S4, PLACED[3], 3, 6, 0, 15) && EntryAt(SP4, Fips46.S4, PLACED[3], 3, 7, 1, 15)
  {
  }

  lemma Entries4B()
    ensures EntryAt(SP4, Fips46.S4, PLACED[3], 4, 0, 2, 0) && EntryAt(SP4, Fips46.S4, PLACED[3], 4, 1, 3, 0) && EntryAt(SP4, Fips46.S4, PLACED[3], 4, 2, 2, 1) && EntryAt(SP4, Fips46.S4, PLACED[3], 4, 3, 3, 1)
    ensures EntryAt(SP4, Fips46.S4, PLACED[3], 4, 4, 2, 2) && EntryAt(SP4, Fips46.S4, PLACED[3], 4, 5, 3, 2) && EntryAt(SP4, Fips46.S4, PLACED[3], 4, 6, 2, 3) && EntryAt(SP4, Fips46.S4, PLACED[3], 4, 7, 3, 3)
    ensures EntryAt(SP4, Fips46.S4, PLACED[3], 5, 0, 2, 4) && EntryAt(SP4, Fips46.S4, PLACED[3], 5, 1, 3, 4) && EntryAt(SP4, Fips46.S4, PLACED[3], 5, 2, 2, 5) && EntryAt(SP4, Fips46.S4, PLACED[3], 5, 3, 3, 5)
    ensures EntryAt(SP4, Fips46.S4, PLACED[3], 5, 4, 2, 6) && EntryAt(SP4, Fips46.S4, PLACED[3], 5, 5, 3, 6) && EntryAt(SP4, Fips46.S4, PLACED[3], 5, 6, 2, 7) && EntryAt(SP4, Fips46.S4, PLACED[3], 5, 7, 3, 7)
    ensures EntryAt(SP4, Fips46.S4, PLACED[3], 6, 0, 2, 8) && EntryAt(SP4, Fips46.S4, PLACED[3], 6, 1, 3, 8) && EntryAt(SP4, Fips46.S4, PLACED[3], 6, 2, 2, 9) && EntryAt(SP4, Fips46.S4, PLACED[3], 6, 3, 3, 9)
    ensures EntryAt(SP4, Fips46.S4, PLACED[3], 6, 4, 2, 10) && EntryAt(SP4, Fips46.S4, PLACED[3], 6, 5, 3, 10) && EntryAt(SP4, Fips46.S4, PLACED[3], 6, 6, 2, 11) && EntryAt(SP4, Fips46.S4, PLACED[3], 6, 7, 3, 11)
    ensures EntryAt(SP4, Fips46.S4, PLACED[3], 7, 0, 2, 12) && EntryAt(SP4, Fips46.S4, PLACED[3], 7, 1, 3, 12) && EntryAt(SP4, Fips46.S4, PLACED[3], 7, 2, 2, 13) && EntryAt(SP4, Fips46.S4, PLACED[3], 7, 3, 3, 13)
    ensures EntryAt(SP4, Fips46.S4, PLACED[3], 7, 4, 2, 14) && EntryAt(SP4, Fips46.S4, PLACED[3], 7, 5, 3, 14) && EntryAt(SP4, Fips46.S4, PLACED[3], 7, 6, 2, 15) && EntryAt(SP4, Fips46.S4, PLACED[3], 7, 7, 3, 15)
  {
  }

  lemma Entries5A()
    ensures EntryAt(SP5, Fips46.S5, PLACED[4], 0, 0, 0, 0) && EntryAt(SP5, Fips46.S5, PLACED[4], 0, 1, 1, 0) && EntryAt(SP5, Fips46.S5, PLACED[4], 0, 2, 0, 1) && EntryAt(SP5, Fips46.S5, PLACED[4], 0, 3, 1, 1)
    ensures EntryAt(SP5, Fips46.S5, PLACED[4], 0, 4, 0, 2) && EntryAt(SP5, Fips46.S5, PLACED[4], 0, 5, 1, 2) && EntryAt(SP5, Fips46.S5, PLACED[4], 0, 6, 0, 3) && EntryAt(SP5, Fips46.S5, PLACED[4], 0, 7, 1, 3)
    ensures EntryAt(SP5, Fips46.S5, PLACED[4], 1, 0, 0, 4) && EntryAt(SP5, Fips46.S5, PLACED[4], 1, 1, 1, 4) && EntryAt(SP5, Fips46.S5, PLACED[4], 1, 2, 0, 5) && EntryAt(SP5, Fips46.S5, PLACED[4], 1, 3, 1, 5)
    ensures EntryAt(SP5, Fips46.S5, PLACED[4], 1, 4, 0, 6) && EntryAt(SP5, Fips46.S5, PLACED[4], 1, 5, 1, 6) && EntryAt(SP5, Fips46.S5, PLACED[4], 1, 6, 0, 7) && EntryAt(SP5, Fips46.S5, PLACED[4], 1, 7, 1, 7)
    ensures EntryAt(SP5, Fips46.S5, PLACED[4], 2, 0, 0, 8) && EntryAt(SP5, Fips46.S5, PLACED[4], 2, 1, 1, 8) && EntryAt(SP5, Fips46.S5, PLACED[4], 2, 2, 0, 9) && EntryAt(SP5, Fips46.S5, PLACED[4], 2, 3, 1, 9)
    ensures EntryAt(SP5, Fips46.S5, PLACED[4], 2, 4, 0, 10) && EntryAt(SP5, Fips46.S5, PLACED[4], 2, 5, 1, 10) && EntryAt(SP5, Fips46.S5, PLACED[4], 2, 6, 0, 11) && EntryAt(SP5, Fips46.S5, PLACED[4], 2, 7, 1, 11)
    ensures EntryAt(SP5, Fips46.S5, PLACED[4], 3, 0, 0, 12) && EntryAt(SP5, Fips46.S5, PLACED[4], 3, 1, 1, 12) && EntryAt(SP5, Fips46.S5, PLACED[4], 3, 2, 0, 13) && EntryAt(SP5, Fips46.S5, PLACED[4], 3, 3, 1, 13)
    ensures EntryAt(SP5, Fips46.S5, PLACED[4], 3, 4, 0, 14) && EntryAt(SP5, Fips46.S5, PLACED[4], 3, 5, 1, 14) && EntryAt(SP5, Fips46.S5, PLACED[4], 3, 6, 0, 15) && EntryAt(SP5, Fips46.S5, PLACED[4], 3, 7, 1, 15)
  {
  }

  lemma Entries5B()
    ensures EntryAt(SP5, Fips46.S5, PLACED[4], 4, 0, 2, 0) && EntryAt(SP5, Fips46.S5, PLACED[4], 4, 1, 3, 0) && EntryAt(SP5, Fips46.S5, PLACED[4], 4, 2, 2, 1) && EntryAt(SP5, Fips46.S5, PLACED[4], 4, 3, 3, 1)
    ensures EntryAt(SP5, Fips46.S5, PLACED[4], 4, 4, 2, 2) && EntryAt(SP5, Fips46.S5, PLACED[4], 4, 5, 3, 2) && EntryAt(SP5, Fips46.S5, PLACED[4], 4, 6, 2, 3) && EntryAt(SP5, Fips46.S5, PLACED[4], 4, 7, 3, 3)
    ensures EntryAt(SP5, Fips46.S5, PLACED[4], 5, 0, 2, 4) && EntryAt(SP5, Fips46.S5, PLACED[4], 5, 1, 3, 4) && EntryAt(SP5, Fips46.S5, PLACED[4], 5, 2, 2, 5) && EntryAt(SP5, Fips46.S5, PLACED[4], 5, 3, 3, 5)
    ensures EntryAt(SP5, Fips46.S5, PLACED[4], 5, 4, 2, 6) && EntryAt(SP5, Fips46.S5, PLACED[4], 5, 5, 3, 6) && EntryAt(SP5, Fips46.S5, PLACED[4], 5, 6, 2, 7) && EntryAt(SP5, Fips46.S5, PLACED[4], 5, 7, 3, 7)
    ensures EntryAt(SP5, Fips46.S5, PLACED[4], 6, 0, 2, 8) && EntryAt(SP5, Fips46.S5, PLACED[4], 6, 1, 3, 8) && EntryAt(SP5, Fips46.S5, PLACED[4], 6, 2, 2, 9) && EntryAt(SP5, Fips46.S5, PLACED[4], 6, 3, 3, 9)
    ensures EntryAt(SP5, Fips46.S5, PLACED[4], 6, 4, 2, 10) && EntryAt(SP5, Fips46.S5, PLACED[4], 6, 5, 3, 10) && EntryAt(SP5, Fips46.S5, PLACED[4], 6, 6, 2, 11) && EntryAt(SP5, Fips46.S5, PLACED[4], 6, 7, 3, 11)
    ensures EntryAt(SP5, Fips46.S5, PLACED[4], 7, 0, 2, 12) && EntryAt(SP5, Fips46.S5, PLACED[4], 7, 1, 3, 12) && EntryAt(SP5, Fips46.S5, PLACED[4], 7, 2, 2, 13) && EntryAt(SP5, Fips46.S5, PLACED[4], 7, 3, 3, 13)
    ensures EntryAt(SP5, Fips46.S5, PLACED[4], 7, 4, 2, 14) && EntryAt(SP5, Fips46.S5, PLACED[4], 7, 5, 3, 14) && EntryAt(SP5, Fips46.S5, PLACED[4], 7, 6, 2, 15) && EntryAt(SP5, Fips46.S5, PLACED[4], 7, 7, 3, 15)
  {
  }

  lemma Entries6A()
    ensures EntryAt(SP6, Fips46.S6, PLACED[5], 0, 0, 0, 0) && EntryAt(SP6, Fips46.S6, PLACED[5], 0, 1, 1, 0) && EntryAt(SP6, Fips46.S6, PLACED[5], 0, 2, 0, 1) && EntryAt(SP6, Fips46.S6, PLACED[5], 0, 3, 1, 1)
    ensures EntryAt(SP6, Fips46.S6, PLACED[5], 0, 4, 0, 2) && EntryAt(SP6, Fips46.S6, PLACED[5], 0, 5, 1, 2) && EntryAt(SP6, Fips46.S6, PLACED[5], 0, 6, 0, 3) && EntryAt(SP6, Fips46.S6, PLACED[5], 0, 7, 1, 3)
    ensures EntryAt(SP6, Fips46.S6, PLACED[5], 1, 0, 0, 4) && EntryAt(SP6, Fips46.S6, PLACED[5], 1, 1, 1, 4) && EntryAt(SP6, Fips46.S6, PLACED[5], 1, 2, 0, 5) && EntryAt(SP6, Fips46.S6, PLACED[5], 1, 3, 1, 5)
    ensures EntryAt(SP6, Fips46.S6, PLACED[5], 1, 4, 0, 6) && EntryAt(SP6, Fips46.S6, PLACED[5], 1, 5, 1, 6) && EntryAt(SP6, Fips46.S6, PLACED[5], 1, 6, 0, 7) && EntryAt(SP6, Fips46.S6, PLACED[5], 1, 7, 1, 7)
    ensures EntryAt(SP6, Fips46.S6, PLACED[5], 2, 0, 0, 8) && EntryAt(SP6, Fips46.S6, PLACED[5], 2, 1, 1, 8) && EntryAt(SP6, Fips46.S6, PLACED[5], 2, 2, 0, 9) && EntryAt(SP6, Fips46.S6, PLACED[5], 2, 3, 1, 9)
    ensures EntryAt(SP6, Fips46.S6, PLACED[5], 2, 4, 0, 10) && EntryAt(SP6, Fips46.S6, PLACED[5], 2, 5, 1, 10) && EntryAt(SP6, Fips46.S6, PLACED[5], 2, 6, 0, 11) && EntryAt(SP6, Fips46.S6, PLACED[5], 2, 7, 1, 11)
    ensures EntryAt(SP6, Fips46.S6, PLACED[5], 3, 0, 0, 12) && EntryAt(SP6, Fips46.S6, PLACED[5], 3, 1, 1, 12) && EntryAt(SP6, Fips46.S6, PLACED[5], 3, 2, 0, 13) && EntryAt(SP6, Fips46.S6, PLACED[5], 3, 3, 1, 13)
    ensures EntryAt(SP6, Fips46.S6, PLACED[5], 3, 4, 0, 14) && EntryAt(SP6, Fips46.S6, PLACED[5], 3, 5, 1, 14) && EntryAt(SP6, Fips46.S6, PLACED[5], 3, 6, 0, 15) && EntryAt(SP6, Fips46.S6, PLACED[5], 3, 7, 1, 15)
  {
  }

  lemma Entries6B()
    ensures EntryAt(SP6, Fips46.S6, PLACED[5], 4, 0, 2, 0) && EntryAt(SP6, Fips46.S6, PLACED[5], 4, 1, 3, 0) && EntryAt(SP6, Fips46.S6, PLACED[5], 4, 2, 2, 1) && EntryAt(SP6, Fips46.S6, PLACED[5], 4, 3, 3, 1)
    ensures EntryAt(SP6, Fips46.S6, PLACED[5], 4, 4, 2, 2) && EntryAt(SP6, Fips46.S6, PLACED[5], 4, 5, 3, 2) && EntryAt(SP6, Fips46.S6, PLACED[5], 4, 6, 2, 3) && EntryAt(SP6, Fips46.S6, PLACED[5], 4, 7, 3, 3)
    ensures EntryAt(SP6, Fips46.S6, PLACED[5], 5, 0, 2, 4) && EntryAt(SP6, Fips46.S6, PLACED[5], 5, 1, 3, 4) && EntryAt(SP6, Fips46.S6, PLACED[5], 5, 2, 2, 5) && EntryAt(SP6, Fips46.S6, PLACED[5], 5, 3, 3, 5)
    ensures EntryAt(SP6, Fips46.S6, PLACED[5], 5, 4, 2, 6) && EntryAt(SP6, Fips46.S6, PLACED[5], 5, 5, 3, 6) && EntryAt(SP6, Fips46.S6, PLACED[5], 5, 6, 2, 7) && EntryAt(SP6, Fips46.S6, PLACED[5], 5, 7, 3, 7)
    ensures EntryAt(SP6, Fips46.S6, PLACED[5], 6, 0, 2, 8) && EntryAt(SP6, Fips46.S6, PLACED[5], 6, 1, 3, 8) && EntryAt(SP6, Fips46.S6, PLACED[5], 6, 2, 2, 9) && EntryAt(SP6, Fips46.S6, PLACED[5], 6, 3, 3, 9)
    ensures EntryAt(SP6, Fips46.S6, PLACED[5], 6, 4, 2, 10) && EntryAt(SP6, Fips46.S6, PLACED[5], 6, 5, 3, 10) && EntryAt(SP6, Fips46.S6, PLACED[5], 6, 6, 2, 11) && EntryAt(SP6, Fips46.S6, PLACED[5], 6, 7, 3, 11)
    ensures EntryAt(SP6, Fips46.S6, PLACED[5], 7, 0, 2, 12) && EntryAt(SP6, Fips46.S6, PLACED[5], 7, 1, 3, 12) && EntryAt(SP6, Fips46.S6, PLACED[5], 7, 2, 2, 13) && EntryAt(SP6, Fips46.S6, PLACED[5], 7, 3, 3, 13)
    ensures EntryAt(SP6, Fips46.S6, PLACED[5], 7, 4, 2, 14) && EntryAt(SP6, Fips46.S6, PLACED[5], 7, 5, 3, 14) && EntryAt(SP6, Fips46.S6, PLACED[5], 7, 6, 2, 15) && EntryAt(SP6, Fips46.S6, PLACED[5], 7, 7, 3, 15)
  {
  }

  lemma Entries7A()
    ensures EntryAt(SP7, Fips46.S7, PLACED[6], 0, 0, 0, 0) && EntryAt(SP7, Fips46.S7, PLACED[6], 0, 1, 1, 0) && EntryAt(SP7, Fips46.S7, PLACED[6], 0, 2, 0, 1) && EntryAt(SP7, Fips46.S7, PLACED[6], 0, 3, 1, 1)
    ensures EntryAt(SP7, Fips46.S7, PLACED[6], 0, 4, 0, 2) && EntryAt(SP7, Fips46.S7, PLACED[6], 0, 5, 1, 2) && EntryAt(SP7, Fips46.S7, PLACED[6], 0, 6, 0, 3) && EntryAt(SP7, Fips46.S7, PLACED[6], 0, 7, 1, 3)
    ensures EntryAt(SP7, Fips46.S7, PLACED[6], 1, 0, 0, 4) && EntryAt(SP7, Fips46.S7, PLACED[6], 1, 1, 1, 4) && EntryAt(SP7, Fips46.S7, PLACED[6], 1, 2, 0, 5) && EntryAt(SP7, Fips46.S7, PLACED[6], 1, 3, 1, 5)
    ensures EntryAt(SP7, Fips46.S7, PLACED[6], 1, 4, 0, 6) && EntryAt(SP7, Fips46.S7, PLACED[6], 1, 5, 1, 6) && EntryAt(SP7, Fips46.S7, PLACED[6], 1, 6, 0, 7) && EntryAt(SP7, Fips46.S7, PLACED[6], 1, 7, 1, 7)
    ensures EntryAt(SP7, Fips46.S7, PLACED[6], 2, 0, 0, 8) && EntryAt(SP7, Fips46.S7, PLACED[6], 2, 1, 1, 8) && EntryAt(SP7, Fips46.S7, PLACED[6], 2, 2, 0, 9) && EntryAt(SP7, Fips46.S7, PLACED[6], 2, 3, 1, 9)
    ensures EntryAt(SP7, Fips46.S7, PLACED[6], 2, 4, 0, 10) && EntryAt(SP7, Fips46.S7, PLACED[6], 2, 5, 1, 10) && EntryAt(SP7, Fips46.S7, PLACED[6], 2, 6, 0, 11) && EntryAt(SP7, Fips46.S7, PLACED[6], 2, 7, 1, 11)
    ensures EntryAt(SP7, Fips46.S7, PLACED[6], 3, 0, 0, 12) && EntryAt(SP7, Fips46.S7, PLACED[6], 3, 1, 1, 12) && EntryAt(SP7, Fips46.S7, PLACED[6], 3, 2, 0, 13) && EntryAt(SP7, Fips46.S7, PLACED[6], 3, 3, 1, 13)
    ensures EntryAt(SP7, Fips46.S7, PLACED[6], 3, 4, 0, 14) && EntryAt(SP7, Fips46.S7, PLACED[6], 3, 5, 1, 14) && EntryAt(SP7, Fips46.S7, PLACED[6], 3, 6, 0, 15) && EntryAt(SP7, Fips46.S7, PLACED[6], 3, 7, 1, 15)
  {
  }

  lemma Entries7B()
    ensures EntryAt(SP7, Fips46.S7, PLACED[6], 4, 0, 2, 0) && EntryAt(SP7, Fips46.S7, PLACED[6], 4, 1, 3, 0) && EntryAt(SP7, Fips46.S7, PLACED[6], 4, 2, 2, 1) && EntryAt(SP7, Fips46.S7, PLACED[6], 4, 3, 3, 1)
    ensures EntryAt(SP7, Fips46.S7, PLACED[6], 4, 4, 2, 2) && EntryAt(SP7, Fips46.S7, PLACED[6], 4, 5, 3, 2) && EntryAt(SP7, Fips46.S7, PLACED[6], 4, 6, 2, 3) && EntryAt(SP7, Fips46.S7, PLACED[6], 4, 7, 3, 3)
    ensures EntryAt(SP7, Fips46.S7, PLACED[6], 5, 0, 2, 4) && EntryAt(SP7, Fips46.S7, PLACED[6], 5, 1, 3, 4) && EntryAt(SP7, Fips46.S7, PLACED[6], 5, 2, 2, 5) && EntryAt(SP7, Fips46.S7, PLACED[6], 5, 3, 3, 5)
    ensures EntryAt(SP7, Fips46.S7, PLACED[6], 5, 4, 2, 6) && EntryAt(SP7, Fips46.S7, PLACED[6], 5, 5, 3, 6) && EntryAt(SP7, Fips46.S7, PLACED[6], 5, 6, 2, 7) && EntryAt(SP7, Fips46.S7, PLACED[6], 5, 7, 3, 7)
    ensures EntryAt(SP7, Fips46.S7, PLACED[6], 6, 0, 2, 8) && EntryAt(SP7, Fips46.S7, PLACED[6], 6, 1, 3, 8) && EntryAt(SP7, Fips46.S7, PLACED[6], 6, 2, 2, 9) && EntryAt(SP7, Fips46.S7, PLACED[6], 6, 3, 3, 9)
    ensures EntryAt(SP7, Fips46.S7, PLACED[6], 6, 4, 2, 10) && EntryAt(SP7, Fips46.S7, PLACED[6], 6, 5, 3, 10) && EntryAt(SP7, Fips46.S7, PLACED[6], 6, 6, 2, 11) && EntryAt(SP7, Fips46.S7, PLACED[6], 6, 7, 3, 11)
    ensures EntryAt(SP7, Fips46.S7, PLACED[6], 7, 0, 2, 12) && EntryAt(SP7, Fips46.S7, PLACED[6], 7, 1, 3, 12) && EntryAt(SP7, Fips46.S7, PLACED[6], 7, 2, 2, 13) && EntryAt(SP7, Fips46.S7, PLACED[6], 7, 3, 3, 13)
    ensures EntryAt(SP7, Fips46.S7, PLACED[6], 7, 4, 2, 14) && EntryAt(SP7, Fips46.S7, PLACED[6], 7, 5, 3, 14) && EntryAt(SP7, Fips46.S7, PLACED[6], 7, 6, 2, 15) && EntryAt(SP7, Fips46.S7, PLACED[6], 7, 7, 3, 15)
  {
  }

  lemma Entries8A()
    ensures EntryAt(SP8, Fips46.S8, PLACED[7], 0, 0, 0, 0) && EntryAt(SP8, Fips46.S8, PLACED[7], 0, 1, 1, 0) && EntryAt(SP8, Fips46.S8, PLACED[7], 0, 2, 0, 1) && EntryAt(SP8, Fips46.S8, PLACED[7], 0, 3, 1, 1)
    ensures EntryAt(SP8, Fips46.S8, PLACED[7], 0, 4, 0, 2) && EntryAt(SP8, Fips46.S8, PLACED[7], 0, 5, 1, 2) && EntryAt(SP8, Fips46.S8, PLACED[7], 0, 6, 0, 3) && EntryAt(SP8, Fips46.S8, PLACED[7], 0, 7, 1, 3)
    ensures EntryAt(SP8, Fips46.S8, PLACED[7], 1, 0, 0, 4) && EntryAt(SP8, Fips46.S8, PLACED[7], 1, 1, 1, 4) && EntryAt(SP8, Fips46.S8, PLACED[7], 1, 2, 0, 5) && EntryAt(SP8, Fips46.S8, PLACED[7], 1, 3, 1, 5)
    ensures EntryAt(SP8, Fips46.S8, PLACED[7], 1, 4, 0, 6) && EntryAt(SP8, Fips46.S8, PLACED[7], 1, 5, 1, 6) && EntryAt(SP8, Fips46.S8, PLACED[7], 1, 6, 0, 7) && EntryAt(SP8, Fips46.S8, PLACED[7], 1, 7, 1, 7)
    ensures EntryAt(SP8, Fips46.S8, PLACED[7], 2, 0, 0, 8) && EntryAt(SP8, Fips46.S8, PLACED[7], 2, 1, 1, 8) && EntryAt(SP8, Fips46.S8, PLACED[7], 2, 2, 0, 9) && EntryAt(SP8, Fips46.S8, PLACED[7], 2, 3, 1, 9)
    ensures EntryAt(SP8, Fips46.S8, PLACED[7], 2, 4, 0, 10) && EntryAt(SP8, Fips46.S8, PLACED[7], 2, 5, 1, 10) && EntryAt(SP8, Fips46.S8, PLACED[7], 2, 6, 0, 11) && EntryAt(SP8, Fips46.S8, PLACED[7], 2, 7, 1, 11)
    ensures EntryAt(SP8, Fips46.S8, PLACED[7], 3, 0, 0, 12) && EntryAt(SP8, Fips46.S8, PLACED[7], 3, 1, 1, 12) && EntryAt(SP8, Fips46.S8, PLACED[7], 3, 2, 0, 13) && EntryAt(SP8, Fips46.S8, PLACED[7], 3, 3, 1, 13)
    ensures EntryAt(SP8, Fips46.S8, PLACED[7], 3, 4, 0, 14) && EntryAt(SP8, Fips46.S8, PLACED[7], 3, 5, 1, 14) && EntryAt(SP8, Fips46.S8, PLACED[7], 3, 6, 0, 15) && EntryAt(SP8, Fips46.S8, PLACED[7], 3, 7, 1, 15)
  {
  }

  lemma Entries8B()
    ensures EntryAt(SP8, Fips46.S8, PLACED[7], 4, 0, 2, 0) && EntryAt(SP8, Fips46.S8, PLACED[7], 4, 1, 3, 0) && EntryAt(SP8, Fips46.S8, PLACED[7], 4, 2, 2, 1) && EntryAt(SP8, Fips46.S8, PLACED[7], 4, 3, 3, 1)
    ensures EntryAt(SP8, Fips46.S8, PLACED[7], 4, 4, 2, 2) && EntryAt(SP8, Fips46.S8, PLACED[7], 4, 5, 3, 2) && EntryAt(SP8, Fips46.S8, PLACED[7], 4, 6, 2, 3) && EntryAt(SP8, Fips46.S8, PLACED[7], 4, 7, 3, 3)
    ensures EntryAt(SP8, Fips46.S8, PLACED[7], 5, 0, 2, 4) && EntryAt(SP8, Fips46.S8, PLACED[7], 5, 1, 3, 4) && EntryAt(SP8, Fips46.S8, PLACED[7], 5, 2, 2, 5) && EntryAt(SP8, Fips46.S8, PLACED[7], 5, 3, 3, 5)
    ensures EntryAt(SP8, Fips46.S8, PLACED[7], 5, 4, 2, 6) && EntryAt(SP8, Fips46.S8, PLACED[7], 5, 5, 3, 6) && EntryAt(SP8, Fips46.S8, PLACED[7], 5, 6, 2, 7) && EntryAt(SP8, Fips46.S8, PLACED[7], 5, 7, 3, 7)
    ensures EntryAt(SP8, Fips46.S8, PLACED[7], 6, 0, 2, 8) && EntryAt(SP8, Fips46.S8, PLACED[7], 6, 1, 3, 8) && EntryAt(SP8, Fips46.S8, PLACED[7], 6, 2, 2, 9) && EntryAt(SP8, Fips46.S8, PLACED[7], 6, 3, 3, 9)
    ensures EntryAt(SP8, Fips46.S8, PLACED[7], 6, 4, 2, 10) && EntryAt(SP8, Fips46.S8, PLACED[7], 6, 5, 3, 10) && EntryAt(SP8, Fips46.S8, PLACED[7], 6, 6, 2, 11) && EntryAt(SP8, Fips46.S8, PLACED[7], 6, 7, 3, 11)
    ensures EntryAt(SP8, Fips46.S8, PLACED[7], 7, 0, 2, 12) && EntryAt(SP8, Fips46.S8, PLACED[7], 7, 1, 3, 12) && EntryAt(SP8, Fips46.S8, PLACED[7], 7, 2, 2, 13) && EntryAt(SP8, Fips46.S8, PLACED[7], 7, 3, 3, 13)
    ensures EntryAt(SP8, Fips46.S8, PLACED[7], 7, 4, 2, 14) && EntryAt(SP8, Fips46.S8, PLACED[7], 7, 5, 3, 14) && EntryAt(SP8, Fips46.S8, PLACED[7], 7, 6, 2, 15) && EntryAt(SP8, Fips46.S8, PLACED[7], 7, 7, 3, 15)
  {
  }

  function Three(b0: bool, b1: bool, b2: bool): nat {
    4 * Fips46.Number(b0) + 2 * Fips46.Number(b1) + Fips46.Number(b2)
  }

  /** What holds at the place of each six bits holds at that of all six bits. */
  lemma AllEntries(p: (int, int, int, int) -> bool, b0: bool, b1: bool, b2: bool, b3: bool, b4: bool, b5: bool)
    requires p(0, 0, 0, 0) && p(0, 1, 1, 0) && p(0, 2, 0, 1) && p(0, 3, 1, 1) && p(0, 4, 0, 2) && p(0, 5, 1, 2) && p(0, 6, 0, 3) && p(0, 7, 1, 3)
    requires p(1, 0, 0, 4) && p(1, 1, 1, 4) && p(1, 2, 0, 5) && p(1, 3, 1, 5) && p(1, 4, 0, 6) && p(1, 5, 1, 6) && p(1, 6, 0, 7) && p(1, 7, 1, 7)
    requires p(2, 0, 0, 8) && p(2, 1, 1, 8) && p(2, 2, 0, 9) && p(2, 3, 1, 9) && p(2, 4, 0, 10) && p(2, 5, 1, 10) && p(2, 6, 0, 11) && p(2, 7, 1, 11)
    requires p(3, 0, 0, 12) && p(3, 1, 1, 12) && p(3, 2, 0, 13) && p(3, 3, 1, 13) && p(3, 4, 0, 14) && p(3, 5, 1, 14) && p(3, 6, 0, 15) && p(3, 7, 1, 15)
    requires p(4, 0, 2, 0) && p(4, 1, 3, 0) && p(4, 2, 2, 1) && p(4, 3, 3, 1) && p(4, 4, 2, 2) && p(4, 5, 3, 2) && p(4, 6, 2, 3) && p(4, 7, 3, 3)
    requires p(5, 0, 2, 4) && p(5, 1, 3, 4) && p(5, 2, 2, 5) && p(5, 3, 3, 5) && p(5, 4, 2, 6) && p(5, 5, 3, 6) && p(5, 6, 2, 7) && p(5, 7, 3, 7)
    requires p(6, 0, 2, 8) && p(6, 1, 3, 8) && p(6, 2, 2, 9) && p(6, 3, 3, 9) && p(6, 4, 2, 10) && p(6, 5, 3, 10) && p(6, 6, 2, 11) && p(6, 7, 3, 11)
    requires p(7, 0, 2, 12) && p(7, 1, 3, 12) && p(7, 2, 2, 13) && p(7, 3, 3, 13) && p(7, 4, 2, 14) && p(7, 5, 3, 14) && p(7, 6, 2, 15) && p(7, 7, 3, 15)
    ensures p(Three(b0, b1, b2), Three(b3, b4, b5), Fips46.Row(b0, b5), Fips46.Column(b1, b2, b3, b4))
  {
  }

  lemma Box1(b0: bool, b1: bool, b2: bool, b3: bool, b4: bool, b5: bool)
    ensures EntryAt(SP1, Fips46.S1, PLACED[0], Three(b0, b1, b2), Three(b3, b4, b5), Fips46.Row(b0, b5), Fips46.Column(b1, b2, b3, b4))
  {
    Entries1A();
    Entries1B();
    hide EntryAt, Three, Fips46.Row, Fips46.Column;
    AllEntries((i, j, row, column) => EntryAt(SP1, Fips46.S1, PLACED[0], i, j, row, column), b0, b1, b2, b3, b4, b5);
  }

  lemma Box2(b0: bool, b1: bool, b2: bool, b3: bool, b4: bool, b5: bool)
    ensures EntryAt(SP2, Fips46.S2, PLACED[1], Three(b0, b1, b2), Three(b3, b4, b5), Fips46.Row(b0, b5), Fips46.Column(b1, b2, b3, b4))
  {
    Entries2A();
    Entries2B();
    hide EntryAt, Three, Fips46.Row, Fips46.Column;
    AllEntries((i, j, row, column) => EntryAt(SP2, Fips46.S2, PLACED[1], i, j, row, column), b0, b1, b2, b3, b4, b5);
  }

  lemma Box3(b0: bool, b1: bool, b2: bool, b3: bool, b4: bool, b5: bool)
    ensures EntryAt(SP3, Fips46.S3, PLACED[2], Three(b0, b1, b2), Three(b3, b4, b5), Fips46.Row(b0, b5), Fips46.Column(b1, b2, b3, b4))
  {
    Entries3A();
    Entries3B();
    hide EntryAt, Three, Fips46.Row, Fips46.Column;
    AllEntries((i, j, row, column) => EntryAt(SP3, Fips46.S3, PLACED[2], i, j, row, column), b0, b1, b2, b3, b4, b5);
  }

  lemma Box4(b0: bool, b1: bool, b2: bool, b3: bool, b4: bool, b5: bool)
    ensures EntryAt(SP4, Fips46.S4, PLACED[3], Three(b0, b1, b2), Three(b3, b4, b5), Fips46.Row(b0, b5), Fips46.Column(b1, b2, b3, b4))
  {
    Entries4A();
    Entries4B();
    hide EntryAt, Three, Fips46.Row, Fips46.Column;
    AllEntries((i, j, row, column) => EntryAt(SP4, Fips46.S4, PLACED[3], i, j, row, column), b0, b1, b2, b3, b4, b5);
  }

  lemma Box5(b0: bool, b1: bool, b2: bool, b3: bool, b4: bool, b5: bool)
    ensures EntryAt(SP5, Fips46.S5, PLACED[4], Three(b0, b1, b2), Three(b3, b4, b5), Fips46.Row(b0, b5), Fips46.Column(b1, b2, b3, b4))
  {
    Entries5A();
    Entries5B();
    hide EntryAt, Three, Fips46.Row, Fips46.Column;
    AllEntries((i, j, row, column) => EntryAt(SP5, Fips46.S5, PLACED[4], i, j, row, column), b0, b1, b2, b3, b4, b5);
  }

  lemma Box6(b0: bool, b1: bool, b2: bool, b3: bool, b4: bool, b5: bool)
    ensures EntryAt(SP6, Fips46.S6, PLACED[5], Three(b0, b1, b2), Three(b3, b4, b5), Fips46.Row(b0, b5), Fips46.Column(b1, b2, b3, b4))
  {
    Entries6A();
    Entries6B();
    hide EntryAt, Three, Fips46.Row, Fips46.Column;
    AllEntries((i, j, row, column) => EntryAt(SP6, Fips46.S6, PLACED[5], i, j, row, column), b0, b1, b2, b3, b4, b5);
  }

  lemma Box7(b0: bool, b1: bool, b2: bool, b3: bool, b4: bool, b5: bool)
    ensures EntryAt(SP7, Fips46.S7, PLACED[6], Three(b0, b1, b2), Three(b3, b4, b5), Fips46.Row(b0, b5), Fips46.Column(b1, b2, b3, b4))
  {
    Entries7A();
    Entries7B();
    hide EntryAt, Three, Fips46.Row, Fips46.Column;
    AllEntries((i, j, row, column) => EntryAt(SP7, Fips46.S7, PLACED[6], i, j, row, column), b0, b1, b2, b3, b4, b5);
  }

  lemma Box8(b0: bool, b1: bool, b2: bool, b3: bool, b4: bool, b5: bool)
    ensures EntryAt(SP8, Fips46.S8, PLACED[7], Three(b0, b1, b2), Three(b3, b4, b5), Fips46.Row(b0, b5), Fips46.Column(b1, b2, b3, b4))
  {
    Entries8A();
    Entries8B();
    hide EntryAt, Three, Fips46.Row, Fips46.Column;
    AllEntries((i, j, row, column) => EntryAt(SP8, Fips46.S8, PLACED[7], i, j, row, column), b0, b1, b2, b3, b4, b5);
  }

  // Looking up a field of six bits

  const SIXES: seq<bv6> := [32, 16, 8, 4, 2, 1]

  /** Bit j of a field, from the left. */
  predicate Six(v: bv6, j: int) {
    0 <= j < 6 && v & SIXES[j] != 0
  }

  lemma SixMeans(v: bv6)
    ensures (Six(v, 0) <==> v & 32 != 0) && (Six(v, 1) <==> v & 16 != 0) && (Six(v, 2) <==> v & 8 != 0)
    ensures (Six(v, 3) <==> v & 4 != 0) && (Six(v, 4) <==> v & 2 != 0) && (Six(v, 5) <==> v & 1 != 0)
  {
  }

  lemma FieldValue(v: bv6)
    ensures v as nat == 8 * Three(v & 32 != 0, v & 16 != 0, v & 8 != 0) + Three(v & 4 != 0, v & 2 != 0, v & 1 != 0)
  {
  }

  lemma FieldIndex(v: bv6)
    ensures v as nat / 8 == Three(Six(v, 0), Six(v, 1), Six(v, 2))
    ensures v as nat % 8 == Three(Six(v, 3), Six(v, 4), Six(v, 5))
  {
    hide Six;
    SixMeans(v);
    FieldValue(v);
  }

  lemma Looked1(v: bv6)
    ensures Look(SP1, v) == PLACED[0][Fips46.Entry(Fips46.S1, Six(v, 0), Six(v, 1), Six(v, 2), Six(v, 3), Six(v, 4), Six(v, 5))]
  {
    hide Six, Three, Fips46.Row, Fips46.Column;
    FieldIndex(v);
    Box1(Six(v, 0), Six(v, 1), Six(v, 2), Six(v, 3), Six(v, 4), Six(v, 5));
  }

  lemma Looked2(v: bv6)
    ensures Look(SP2, v) == PLACED[1][Fips46.Entry(Fips46.S2, Six(v, 0), Six(v, 1), Six(v, 2), Six(v, 3), Six(v, 4), Six(v, 5))]
  {
    hide Six, Three, Fips46.Row, Fips46.Column;
    FieldIndex(v);
    Box2(Six(v, 0), Six(v, 1), Six(v, 2), Six(v, 3), Six(v, 4), Six(v, 5));
  }

  lemma Looked3(v: bv6)
    ensures Look(SP3, v) == PLACED[2][Fips46.Entry(Fips46.S3, Six(v, 0), Six(v, 1), Six(v, 2), Six(v, 3), Six(v, 4), Six(v, 5))]
  {
    hide Six, Three, Fips46.Row, Fips46.Column;
    FieldIndex(v);
    Box3(Six(v, 0), Six(v, 1), Six(v, 2), Six(v, 3), Six(v, 4), Six(v, 5));
  }

  lemma Looked4(v: bv6)
    ensures Look(SP4, v) == PLACED[3][Fips46.Entry(Fips46.S4, Six(v, 0), Six(v, 1), Six(v, 2), Six(v, 3), Six(v, 4), Six(v, 5))]
  {
    hide Six, Three, Fips46.Row, Fips46.Column;
    FieldIndex(v);
    Box4(Six(v, 0), Six(v, 1), Six(v, 2), Six(v, 3), Six(v, 4), Six(v, 5));
  }

  lemma Looked5(v: bv6)
    ensures Look(SP5, v) == PLACED[4][Fips46.Entry(Fips46.S5, Six(v, 0), Six(v, 1), Six(v, 2), Six(v, 3), Six(v, 4), Six(v, 5))]
  {
    hide Six, Three, Fips46.Row, Fips46.Column;
    FieldIndex(v);
    Box5(Six(v, 0), Six(v, 1), Six(v, 2), Six(v, 3), Six(v, 4), Six(v, 5));
  }

  lemma Looked6(v: bv6)
    ensures Look(SP6, v) == PLACED[5][Fips46.Entry(Fips46.S6, Six(v, 0), Six(v, 1), Six(v, 2), Six(v, 3), Six(v, 4), Six(v, 5))]
  {
    hide Six, Three, Fips46.Row, Fips46.Column;
    FieldIndex(v);
    Box6(Six(v, 0), Six(v, 1), Six(v, 2), Six(v, 3), Six(v, 4), Six(v, 5));
  }

  lemma Looked7(v: bv6)
    ensures Look(SP7, v) == PLACED[6][Fips46.Entry(Fips46.S7, Six(v, 0), Six(v, 1), Six(v, 2), Six(v, 3), Six(v, 4), Six(v, 5))]
  {
    hide Six, Three, Fips46.Row, Fips46.Column;
    FieldIndex(v);
    Box7(Six(v, 0), Six(v, 1), Six(v, 2), Six(v, 3), Six(v, 4), Six(v, 5));
  }

  lemma Looked8(v: bv6)
    ensures Look(SP8, v) == PLACED[7][Fips46.Entry(Fips46.S8, Six(v, 0), Six(v, 1), Six(v, 2), Six(v, 3), Six(v, 4), Six(v, 5))]
  {
    hide Six, Three, Fips46.Row, Fips46.Column;
    FieldIndex(v);
    Box8(Six(v, 0), Six(v, 1), Six(v, 2), Six(v, 3), Six(v, 4), Six(v, 5));
  }

  // The permutation behind the boxes

  /** The bit of the boxes' output that bit p of a word is: the standard's table, turned
      by one bit. */
  function Source(p: nat): (q: nat)
    requires p < 32
    ensures q < 32
  {
    Fips46.PermutationFrom((p + 1) % 32)
  }

  type Position = p: int | 0 <= p < 32

  const LANDINGS: seq<seq<Position>> := [
    [7, 15, 21, 29],
    [11, 26, 0, 16],
    [22, 14, 28, 4],
    [24, 18, 8, 31],
    [6, 12, 23, 1],
    [2, 27, 9, 17],
    [30, 10, 20, 5],
    [3, 25, 13, 19]
  ]

  /** Where bit q of the boxes' output goes. */
  function Landing(q: nat): Position
    requires q < 32
  {
    LANDINGS[q / 4][q % 4]
  }

  lemma Sources()
    ensures Source(0) == 6 && Source(1) == 19 && Source(2) == 20 && Source(3) == 28
    ensures Source(4) == 11 && Source(5) == 27 && Source(6) == 16 && Source(7) == 0
    ensures Source(8) == 14 && Source(9) == 22 && Source(10) == 25 && Source(11) == 4
    ensures Source(12) == 17 && Source(13) == 30 && Source(14) == 9 && Source(15) == 1
    ensures Source(16) == 7 && Source(17) == 23 && Source(18) == 13 && Source(19) == 31
    ensures Source(20) == 26 && Source(21) == 2 && Source(22) == 8 && Source(23) == 18
    ensures Source(24) == 12 && Source(25) == 29 && Source(26) == 5 && Source(27) == 21
    ensures Source(28) == 10 && Source(29) == 3 && Source(30) == 24 && Source(31) == 15
  {
  }

  lemma Landings()
    ensures Landing(0) == 7 && Landing(1) == 15 && Landing(2) == 21 && Landing(3) == 29
    ensures Landing(4) == 11 && Landing(5) == 26 && Landing(6) == 0 && Landing(7) == 16
    ensures Landing(8) == 22 && Landing(9) == 14 && Landing(10) == 28 && Landing(11) == 4
    ensures Landing(12) == 24 && Landing(13) == 18 && Landing(14) == 8 && Landing(15) == 31
    ensures Landing(16) == 6 && Landing(17) == 12 && Landing(18) == 23 && Landing(19) == 1
    ensures Landing(20) == 2 && Landing(21) == 27 && Landing(22) == 9 && Landing(23) == 17
    ensures Landing(24) == 30 && Landing(25) == 10 && Landing(26) == 20 && Landing(27) == 5
    ensures Landing(28) == 3 && Landing(29) == 25 && Landing(30) == 13 && Landing(31) == 19
  {
  }

  ghost predicate LandsAt(p: nat) {
    p < 32 ==> Landing(Source(p)) == p && Source(Landing(p)) == p
  }

  lemma LandingsLow()
    ensures LandsAt(0) && LandsAt(1) && LandsAt(2) && LandsAt(3) && LandsAt(4) && LandsAt(5) && LandsAt(6) && LandsAt(7)
    ensures LandsAt(8) && LandsAt(9) && LandsAt(10) && LandsAt(11) && LandsAt(12) && LandsAt(13) && LandsAt(14) && LandsAt(15)
  {
    hide Source, Landing;
    Sources();
    Landings();
  }

  lemma LandingsHigh()
    ensures LandsAt(16) && LandsAt(17) && LandsAt(18) && LandsAt(19) && LandsAt(20) && LandsAt(21) && LandsAt(22) && LandsAt(23)
    ensures LandsAt(24) && LandsAt(25) && LandsAt(26) && LandsAt(27) && LandsAt(28) && LandsAt(29) && LandsAt(30) && LandsAt(31)
  {
    hide Source, Landing;
    Sources();
    Landings();
  }

  lemma LandsEverywhere(p: nat)
    ensures p < 32 ==> LandsAt(p)
  {
    hide LandsAt;
    LandingsLow();
    LandingsHigh();
    All32((k: nat) => LandsAt(k));
  }

  function Put(b: bool, mask: bv32): bv32 {
    if b then mask else 0
  }

  lemma PlacedRow0(b0: bool, b1: bool, b2: bool, b3: bool)
    ensures PLACED[0][Fips46.Column(b0, b1, b2, b3)] == Or4(Put(b0, 0x01000000), Put(b1, 0x00010000), Put(b2, 0x00000400), Put(b3, 0x00000004))
  {
  }

  lemma PlacedRow1(b0: bool, b1: bool, b2: bool, b3: bool)
    ensures PLACED[1][Fips46.Column(b0, b1, b2, b3)] == Or4(Put(b0, 0x00100000), Put(b1, 0x00000020), Put(b2, 0x80000000), Put(b3, 0x00008000))
  {
  }

  lemma PlacedRow2(b0: bool, b1: bool, b2: bool, b3: bool)
    ensures PLACED[2][Fips46.Column(b0, b1, b2, b3)] == Or4(Put(b0, 0x00000200), Put(b1, 0x00020000), Put(b2, 0x00000008), Put(b3, 0x08000000))
  {
  }

  lemma PlacedRow3(b0: bool, b1: bool, b2: bool, b3: bool)
    ensures PLACED[3][Fips46.Column(b0, b1, b2, b3)] == Or4(Put(b0, 0x00000080), Put(b1, 0x00002000), Put(b2, 0x00800000), Put(b3, 0x00000001))
  {
  }

  lemma PlacedRow4(b0: bool, b1: bool, b2: bool, b3: bool)
    ensures PLACED[4][Fips46.Column(b0, b1, b2, b3)] == Or4(Put(b0, 0x02000000), Put(b1, 0x00080000), Put(b2, 0x00000100), Put(b3, 0x40000000))
  {
  }

  lemma PlacedRow5(b0: bool, b1: bool, b2: bool, b3: bool)
    ensures PLACED[5][Fips46.Column(b0, b1, b2, b3)] == Or4(Put(b0, 0x20000000), Put(b1, 0x00000010), Put(b2, 0x00400000), Put(b3, 0x00004000))
  {
  }

  lemma PlacedRow6(b0: bool, b1: bool, b2: bool, b3: bool)
    ensures PLACED[6][Fips46.Column(b0, b1, b2, b3)] == Or4(Put(b0, 0x00000002), Put(b1, 0x00200000), Put(b2, 0x00000800), Put(b3, 0x04000000))
  {
  }

  lemma PlacedRow7(b0: bool, b1: bool, b2: bool, b3: bool)
    ensures PLACED[7][Fips46.Column(b0, b1, b2, b3)] == Or4(Put(b0, 0x10000000), Put(b1, 0x00000040), Put(b2, 0x00040000), Put(b3, 0x00001000))
  {
  }

  lemma PlacedAt0(b0: bool, b1: bool, b2: bool, b3: bool)
    ensures PLACED[0][Fips46.Column(b0, b1, b2, b3)] == Or4(Put(b0, Mask(7)), Put(b1, Mask(15)), Put(b2, Mask(21)), Put(b3, Mask(29)))
  {
    hide Mask, Put, Or4, Fips46.Column;
    MaskRow0();
    MaskRow1();
    MaskRow2();
    MaskRow3();
    PlacedRow0(b0, b1, b2, b3);
  }

  lemma PlacedAt1(b0: bool, b1: bool, b2: bool, b3: bool)
    ensures PLACED[1][Fips46.Column(b0, b1, b2, b3)] == Or4(Put(b0, Mask(11)), Put(b1, Mask(26)), Put(b2, Mask(0)), Put(b3, Mask(16)))
  {
    hide Mask, Put, Or4, Fips46.Column;
    MaskRow0();
    MaskRow1();
    MaskRow2();
    MaskRow3();
    PlacedRow1(b0, b1, b2, b3);
  }

  lemma PlacedAt2(b0: bool, b1: bool, b2: bool, b3: bool)
    ensures PLACED[2][Fips46.Column(b0, b1, b2, b3)] == Or4(Put(b0, Mask(22)), Put(b1, Mask(14)), Put(b2, Mask(28)), Put(b3, Mask(4)))
  {
    hide Mask, Put, Or4, Fips46.Column;
    MaskRow0();
    MaskRow1();
    MaskRow2();
    MaskRow3();
    PlacedRow2(b0, b1, b2, b3);
  }

  lemma PlacedAt3(b0: bool, b1: bool, b2: bool, b3: bool)
    ensures PLACED[3][Fips46.Column(b0, b1, b2, b3)] == Or4(Put(b0, Mask(24)), Put(b1, Mask(18)), Put(b2, Mask(8)), Put(b3, Mask(31)))
  {
    hide Mask, Put, Or4, Fips46.Column;
    MaskRow0();
    MaskRow1();
    MaskRow2();
    MaskRow3();
    PlacedRow3(b0, b1, b2, b3);
  }

  lemma PlacedAt4(b0: bool, b1: bool, b2: bool, b3: bool)
    ensures PLACED[4][Fips46.Column(b0, b1, b2, b3)] == Or4(Put(b0, Mask(6)), Put(b1, Mask(12)), Put(b2, Mask(23)), Put(b3, Mask(1)))
  {
    hide Mask, Put, Or4, Fips46.Column;
    MaskRow0();
    MaskRow1();
    MaskRow2();
    MaskRow3();
    PlacedRow4(b0, b1, b2, b3);
  }

  lemma PlacedAt5(b0: bool, b1: bool, b2: bool, b3: bool)
    ensures PLACED[5][Fips46.Column(b0, b1, b2, b3)] == Or4(Put(b0, Mask(2)), Put(b1, Mask(27)), Put(b2, Mask(9)), Put(b3, Mask(17)))
  {
    hide Mask, Put, Or4, Fips46.Column;
    MaskRow0();
    MaskRow1();
    MaskRow2();
    MaskRow3();
    PlacedRow5(b0, b1, b2, b3);
  }

  lemma PlacedAt6(b0: bool, b1: bool, b2: bool, b3: bool)
    ensures PLACED[6][Fips46.Column(b0, b1, b2, b3)] == Or4(Put(b0, Mask(30)), Put(b1, Mask(10)), Put(b2, Mask(20)), Put(b3, Mask(5)))
  {
    hide Mask, Put, Or4, Fips46.Column;
    MaskRow0();
    MaskRow1();
    MaskRow2();
    MaskRow3();
    PlacedRow6(b0, b1, b2, b3);
  }

  lemma PlacedAt7(b0: bool, b1: bool, b2: bool, b3: bool)
    ensures PLACED[7][Fips46.Column(b0, b1, b2, b3)] == Or4(Put(b0, Mask(3)), Put(b1, Mask(25)), Put(b2, Mask(13)), Put(b3, Mask(19)))
  {
    hide Mask, Put, Or4, Fips46.Column;
    MaskRow0();
    MaskRow1();
    MaskRow2();
    MaskRow3();
    PlacedRow7(b0, b1, b2, b3);
  }

  /** The word of box n for the value with these bits. */
  lemma PlacedIs(n: nat, b0: bool, b1: bool, b2: bool, b3: bool)
    requires n < 8
    ensures PLACED[n][Fips46.Column(b0, b1, b2, b3)]
            == Or4(Put(b0, Mask(Landing(4 * n))), Put(b1, Mask(Landing(4 * n + 1))),
                   Put(b2, Mask(Landing(4 * n + 2))), Put(b3, Mask(Landing(4 * n + 3))))
  {
    hide Mask, Landing, Put, Or4, Fips46.Column;
    Landings();
    if n == 0 {
      PlacedAt0(b0, b1, b2, b3);
    } else if n == 1 {
      PlacedAt1(b0, b1, b2, b3);
    } else if n == 2 {
      PlacedAt2(b0, b1, b2, b3);
    } else if n == 3 {
      PlacedAt3(b0, b1, b2, b3);
    } else if n == 4 {
      PlacedAt4(b0, b1, b2, b3);
    } else if n == 5 {
      PlacedAt5(b0, b1, b2, b3);
    } else if n == 6 {
      PlacedAt6(b0, b1, b2, b3);
    } else {
      PlacedAt7(b0, b1, b2, b3);
    }
  }

  lemma Or4Bit(a: bv32, b: bv32, c: bv32, d: bv32, p: int)
    ensures Bit(Or4(a, b, c, d), p) == (Bit(a, p) || Bit(b, p) || Bit(c, p) || Bit(d, p))
  {
    hide Or, Bit;
    OrBit(Or(Or(a, b), c), d, p);
    OrBit(Or(a, b), c, p);
    OrBit(a, b, p);
  }

  lemma PutMeans(b: bool, mask: bv32)
    ensures Put(b, mask) == if b then mask else 0
  {
  }

  lemma PutBit(b: bool, q: nat, p: nat)
    requires q < 32 && p < 32
    ensures Bit(Put(b, Mask(Landing(q))), p) == (b && Source(p) == q)
  {
    hide Bit, Mask, Landing, Source, OneBit, Put;
    PutMeans(b, Mask(Landing(q)));
    if b {
      LandsEverywhere(p);
      LandsEverywhere(q);
      MaskIsOneBit(Landing(q));
      OneBitAt(31 - Landing(q), p);
    } else {
      NoBits(p);
    }
  }

  lemma NibbleIsColumn(v: Fips46.Nibble)
    ensures v == Fips46.Column(Fips46.NibbleBit(v, 0), Fips46.NibbleBit(v, 1), Fips46.NibbleBit(v, 2), Fips46.NibbleBit(v, 3))
  {
  }

  /** Bit p of the word for value v of box n is the bit of v that the standard's table
      says, if that comes from box n. */
  lemma PlacedBit(n: nat, v: Fips46.Nibble, p: nat)
    requires n < 8 && p < 32
    ensures Bit(PLACED[n][v], p) == (Source(p) / 4 == n && Fips46.NibbleBit(v, Source(p) % 4))
  {
    hide Bit, Mask, Landing, Source, Put, Or4, Fips46.Column, Fips46.NibbleBit;
    var b0, b1, b2, b3 := Fips46.NibbleBit(v, 0), Fips46.NibbleBit(v, 1), Fips46.NibbleBit(v, 2), Fips46.NibbleBit(v, 3);
    NibbleIsColumn(v);
    PlacedIs(n, b0, b1, b2, b3);
    PutBit(b0, 4 * n, p);
    PutBit(b1, 4 * n + 1, p);
    PutBit(b2, 4 * n + 2, p);
    PutBit(b3, 4 * n + 3, p);
    Or4Bit(Put(b0, Mask(Landing(4 * n))), Put(b1, Mask(Landing(4 * n + 1))),
           Put(b2, Mask(Landing(4 * n + 2))), Put(b3, Mask(Landing(4 * n + 3))), p);
  }
}
