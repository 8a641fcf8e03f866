/** The opening and the closing permutation of the cipher, told by the tables of the
    standard. */
module DesWires {
  import opened DesWords
  import opened Des
  import opened DesBits
  import Fips46

  /** Bit i of the two words of a block. */
  predicate BlockBit(s: Halves, i: int) {
    if i < 32 then Bit(s.0, i) else Bit(s.1, i - 32)
  }

  /** Bit q of the right and then the left word, each turned back. */
  predicate Unturned(s: Halves, q: int) {
    if q < 32 then Bit(s.1, (q + 31) % 32) else Bit(s.0, (q + 31) % 32)
  }

  lemma LeftBitsAt(s: Halves)
    ensures BlockBit(s, 0) == Bit(s.0, 0) && BlockBit(s, 1) == Bit(s.0, 1) && BlockBit(s, 2) == Bit(s.0, 2) && BlockBit(s, 3) == Bit(s.0, 3)
    ensures BlockBit(s, 4) == Bit(s.0, 4) && BlockBit(s, 5) == Bit(s.0, 5) && BlockBit(s, 6) == Bit(s.0, 6) && BlockBit(s, 7) == Bit(s.0, 7)
    ensures BlockBit(s, 8) == Bit(s.0, 8) && BlockBit(s, 9) == Bit(s.0, 9) && BlockBit(s, 10) == Bit(s.0, 10) && BlockBit(s, 11) == Bit(s.0, 11)
    ensures BlockBit(s, 12) == Bit(s.0, 12) && BlockBit(s, 13) == Bit(s.0, 13) && BlockBit(s, 14) == Bit(s.0, 14) && BlockBit(s, 15) == Bit(s.0, 15)
    ensures BlockBit(s, 16) == Bit(s.0, 16) && BlockBit(s, 17) == Bit(s.0, 17) && BlockBit(s, 18) == Bit(s.0, 18) && BlockBit(s, 19) == Bit(s.0, 19)
    ensures BlockBit(s, 20) == Bit(s.0, 20) && BlockBit(s, 21) == Bit(s.0, 21) && BlockBit(s, 22) == Bit(s.0, 22) && BlockBit(s, 23) == Bit(s.0, 23)
    ensures BlockBit(s, 24) == Bit(s.0, 24) && BlockBit(s, 25) == Bit(s.0, 25) && BlockBit(s, 26) == Bit(s.0, 26) && BlockBit(s, 27) == Bit(s.0, 27)
    ensures BlockBit(s, 28) == Bit(s.0, 28) && BlockBit(s, 29) == Bit(s.0, 29) && BlockBit(s, 30) == Bit(s.0, 30) && BlockBit(s, 31) == Bit(s.0, 31)
  {
    hide Bit;
  }

  lemma RightBitsAt(s: Halves)
    ensures BlockBit(s, 32) == Bit(s.1, 0) && BlockBit(s, 33) == Bit(s.1, 1) && BlockBit(s, 34) == Bit(s.1, 2) && BlockBit(s, 35) == Bit(s.1, 3)
    ensures BlockBit(s, 36) == Bit(s.1, 4) && BlockBit(s, 37) == Bit(s.1, 5) && BlockBit(s, 38) == Bit(s.1, 6) && BlockBit(s, 39) == Bit(s.1, 7)
    ensures BlockBit(s, 40) == Bit(s.1, 8) && BlockBit(s, 41) == Bit(s.1, 9) && BlockBit(s, 42) == Bit(s.1, 10) && BlockBit(s, 43) == Bit(s.1, 11)
    ensures BlockBit(s, 44) == Bit(s.1, 12) && BlockBit(s, 45) == Bit(s.1, 13) && BlockBit(s, 46) == Bit(s.1, 14) && BlockBit(s, 47) == Bit(s.1, 15)
    ensures BlockBit(s, 48) == Bit(s.1, 16) && BlockBit(s, 49) == Bit(s.1, 17) && BlockBit(s, 50) == Bit(s.1, 18) && BlockBit(s, 51) == Bit(s.1, 19)
    ensures BlockBit(s, 52) == Bit(s.1, 20) && BlockBit(s, 53) == Bit(s.1, 21) && BlockBit(s, 54) == Bit(s.1, 22) && BlockBit(s, 55) == Bit(s.1, 23)
    ensures BlockBit(s, 56) == Bit(s.1, 24) && BlockBit(s, 57) == Bit(s.1, 25) && BlockBit(s, 58) == Bit(s.1, 26) && BlockBit(s, 59) == Bit(s.1, 27)
    ensures BlockBit(s, 60) == Bit(s.1, 28) && BlockBit(s, 61) == Bit(s.1, 29) && BlockBit(s, 62) == Bit(s.1, 30) && BlockBit(s, 63) == Bit(s.1, 31)
  {
    hide Bit;
  }

  lemma BlockBitsAt(s: Halves)
    ensures BlockBit(s, 0) == Bit(s.0, 0) && BlockBit(s, 1) == Bit(s.0, 1) && BlockBit(s, 2) == Bit(s.0, 2) && BlockBit(s, 3) == Bit(s.0, 3)
    ensures BlockBit(s, 4) == Bit(s.0, 4) && BlockBit(s, 5) == Bit(s.0, 5) && BlockBit(s, 6) == Bit(s.0, 6) && BlockBit(s, 7) == Bit(s.0, 7)
    ensures BlockBit(s, 8) == Bit(s.0, 8) && BlockBit(s, 9) == Bit(s.0, 9) && BlockBit(s, 10) == Bit(s.0, 10) && BlockBit(s, 11) == Bit(s.0, 11)
    ensures BlockBit(s, 12) == Bit(s.0, 12) && BlockBit(s, 13) == Bit(s.0, 13) && BlockBit(s, 14) == Bit(s.0, 14) && BlockBit(s, 15) == Bit(s.0, 15)
    ensures BlockBit(s, 16) == Bit(s.0, 16) && BlockBit(s, 17) == Bit(s.0, 17) && BlockBit(s, 18) == Bit(s.0, 18) && BlockBit(s, 19) == Bit(s.0, 19)
    ensures BlockBit(s, 20) == Bit(s.0, 20) && BlockBit(s, 21) == Bit(s.0, 21) && BlockBit(s, 22) == Bit(s.0, 22) && BlockBit(s, 23) == Bit(s.0, 23)
    ensures BlockBit(s, 24) == Bit(s.0, 24) && BlockBit(s, 25) == Bit(s.0, 25) && BlockBit(s, 26) == Bit(s.0, 26) && BlockBit(s, 27) == Bit(s.0, 27)
    ensures BlockBit(s, 28) == Bit(s.0, 28) && BlockBit(s, 29) == Bit(s.0, 29) && BlockBit(s, 30) == Bit(s.0, 30) && BlockBit(s, 31) == Bit(s.0, 31)
    ensures BlockBit(s, 32) == Bit(s.1, 0) && BlockBit(s, 33) == Bit(s.1, 1) && BlockBit(s, 34) == Bit(s.1, 2) && BlockBit(s, 35) == Bit(s.1, 3)
    ensures BlockBit(s, 36) == Bit(s.1, 4) && BlockBit(s, 37) == Bit(s.1, 5) && BlockBit(s, 38) == Bit(s.1, 6) && BlockBit(s, 39) == Bit(s.1, 7)
    ensures BlockBit(s, 40) == Bit(s.1, 8) && BlockBit(s, 41) == Bit(s.1, 9) && BlockBit(s, 42) == Bit(s.1, 10) && BlockBit(s, 43) == Bit(s.1, 11)
    ensures BlockBit(s, 44) == Bit(s.1, 12) && BlockBit(s, 45) == Bit(s.1, 13) && BlockBit(s, 46) == Bit(s.1, 14) && BlockBit(s, 47) == Bit(s.1, 15)
    ensures BlockBit(s, 48) == Bit(s.1, 16) && BlockBit(s, 49) == Bit(s.1, 17) && BlockBit(s, 50) == Bit(s.1, 18) && BlockBit(s, 51) == Bit(s.1, 19)
    ensures BlockBit(s, 52) == Bit(s.1, 20) && BlockBit(s, 53) == Bit(s.1, 21) && BlockBit(s, 54) == Bit(s.1, 22) && BlockBit(s, 55) == Bit(s.1, 23)
    ensures BlockBit(s, 56) == Bit(s.1, 24) && BlockBit(s, 57) == Bit(s.1, 25) && BlockBit(s, 58) == Bit(s.1, 26) && BlockBit(s, 59) == Bit(s.1, 27)
    ensures BlockBit(s, 60) == Bit(s.1, 28) && BlockBit(s, 61) == Bit(s.1, 29) && BlockBit(s, 62) == Bit(s.1, 30) && BlockBit(s, 63) == Bit(s.1, 31)
  {
    hide Bit, BlockBit;
    LeftBitsAt(s);
    RightBitsAt(s);
  }

  lemma UnturnedRightBitsAt(s: Halves)
    ensures Unturned(s, 0) == Bit(s.1, 31) && Unturned(s, 1) == Bit(s.1, 0) && Unturned(s, 2) == Bit(s.1, 1) && Unturned(s, 3) == Bit(s.1, 2)
    ensures Unturned(s, 4) == Bit(s.1, 3) && Unturned(s, 5) == Bit(s.1, 4) && Unturned(s, 6) == Bit(s.1, 5) && Unturned(s, 7) == Bit(s.1, 6)
    ensures Unturned(s, 8) == Bit(s.1, 7) && Unturned(s, 9) == Bit(s.1, 8) && Unturned(s, 10) == Bit(s.1, 9) && Unturned(s, 11) == Bit(s.1, 10)
    ensures Unturned(s, 12) == Bit(s.1, 11) && Unturned(s, 13) == Bit(s.1, 12) && Unturned(s, 14) == Bit(s.1, 13) && Unturned(s, 15) == Bit(s.1, 14)
    ensures Unturned(s, 16) == Bit(s.1, 15) && Unturned(s, 17) == Bit(s.1, 16) && Unturned(s, 18) == Bit(s.1, 17) && Unturned(s, 19) == Bit(s.1, 18)
    ensures Unturned(s, 20) == Bit(s.1, 19) && Unturned(s, 21) == Bit(s.1, 20) && Unturned(s, 22) == Bit(s.1, 21) && Unturned(s, 23) == Bit(s.1, 22)
    ensures Unturned(s, 24) == Bit(s.1, 23) && Unturned(s, 25) == Bit(s.1, 24) && Unturned(s, 26) == Bit(s.1, 25) && Unturned(s, 27) == Bit(s.1, 26)
    ensures Unturned(s, 28) == Bit(s.1, 27) && Unturned(s, 29) == Bit(s.1, 28) && Unturned(s, 30) == Bit(s.1, 29) && Unturned(s, 31) == Bit(s.1, 30)
  {
    hide Bit;
  }

  lemma UnturnedLeftBitsAt(s: Halves)
    ensures Unturned(s, 32) == Bit(s.0, 31) && Unturned(s, 33) == Bit(s.0, 0) && Unturned(s, 34) == Bit(s.0, 1) && Unturned(s, 35) == Bit(s.0, 2)
    ensures Unturned(s, 36) == Bit(s.0, 3) && Unturned(s, 37) == Bit(s.0, 4) && Unturned(s, 38) == Bit(s.0, 5) && Unturned(s, 39) == Bit(s.0, 6)
    ensures Unturned(s, 40) == Bit(s.0, 7) && Unturned(s, 41) == Bit(s.0, 8) && Unturned(s, 42) == Bit(s.0, 9) && Unturned(s, 43) == Bit(s.0, 10)
    ensures Unturned(s, 44) == Bit(s.0, 11) && Unturned(s, 45) == Bit(s.0, 12) && Unturned(s, 46) == Bit(s.0, 13) && Unturned(s, 47) == Bit(s.0, 14)
    ensures Unturned(s, 48) == Bit(s.0, 15) && Unturned(s, 49) == Bit(s.0, 16) && Unturned(s, 50) == Bit(s.0, 17) && Unturned(s, 51) == Bit(s.0, 18)
    ensures Unturned(s, 52) == Bit(s.0, 19) && Unturned(s, 53) == Bit(s.0, 20) && Unturned(s, 54) == Bit(s.0, 21) && Unturned(s, 55) == Bit(s.0, 22)
    ensures Unturned(s, 56) == Bit(s.0, 23) && Unturned(s, 57) == Bit(s.0, 24) && Unturned(s, 58) == Bit(s.0, 25) && Unturned(s, 59) == Bit(s.0, 26)
    ensures Unturned(s, 60) == Bit(s.0, 27) && Unturned(s, 61) == Bit(s.0, 28) && Unturned(s, 62) == Bit(s.0, 29) && Unturned(s, 63) == Bit(s.0, 30)
  {
    hide Bit;
  }

  lemma UnturnedAt(s: Halves)
    ensures Unturned(s, 0) == Bit(s.1, 31) && Unturned(s, 1) == Bit(s.1, 0) && Unturned(s, 2) == Bit(s.1, 1) && Unturned(s, 3) == Bit(s.1, 2)
    ensures Unturned(s, 4) == Bit(s.1, 3) && Unturned(s, 5) == Bit(s.1, 4) && Unturned(s, 6) == Bit(s.1, 5) && Unturned(s, 7) == Bit(s.1, 6)
    ensures Unturned(s, 8) == Bit(s.1, 7) && Unturned(s, 9) == Bit(s.1, 8) && Unturned(s, 10) == Bit(s.1, 9) && Unturned(s, 11) == Bit(s.1, 10)
    ensures Unturned(s, 12) == Bit(s.1, 11) && Unturned(s, 13) == Bit(s.1, 12) && Unturned(s, 14) == Bit(s.1, 13) && Unturned(s, 15) == Bit(s.1, 14)
    ensures Unturned(s, 16) == Bit(s.1, 15) && Unturned(s, 17) == Bit(s.1, 16) && Unturned(s, 18) == Bit(s.1, 17) && Unturned(s, 19) == Bit(s.1, 18)
    ensures Unturned(s, 20) == Bit(s.1, 19) && Unturned(s, 21) == Bit(s.1, 20) && Unturned(s, 22) == Bit(s.1, 21) && Unturned(s, 23) == Bit(s.1, 22)
    ensures Unturned(s, 24) == Bit(s.1, 23) && Unturned(s, 25) == Bit(s.1, 24) && Unturned(s, 26) == Bit(s.1, 25) && Unturned(s, 27) == Bit(s.1, 26)
    ensures Unturned(s, 28) == Bit(s.1, 27) && Unturned(s, 29) == Bit(s.1, 28) && Unturned(s, 30) == Bit(s.1, 29) && Unturned(s, 31) == Bit(s.1, 30)
    ensures Unturned(s, 32) == Bit(s.0, 31) && Unturned(s, 33) == Bit(s.0, 0) && Unturned(s, 34) == Bit(s.0, 1) && Unturned(s, 35) == Bit(s.0, 2)
    ensures Unturned(s, 36) == Bit(s.0, 3) && Unturned(s, 37) == Bit(s.0, 4) && Unturned(s, 38) == Bit(s.0, 5) && Unturned(s, 39) == Bit(s.0, 6)
    ensures Unturned(s, 40) == Bit(s.0, 7) && Unturned(s, 41) == Bit(s.0, 8) && Unturned(s, 42) == Bit(s.0, 9) && Unturned(s, 43) == Bit(s.0, 10)
    ensures Unturned(s, 44) == Bit(s.0, 11) && Unturned(s, 45) == Bit(s.0, 12) && Unturned(s, 46) == Bit(s.0, 13) && Unturned(s, 47) == Bit(s.0, 14)
    ensures Unturned(s, 48) == Bit(s.0, 15) && Unturned(s, 49) == Bit(s.0, 16) && Unturned(s, 50) == Bit(s.0, 17) && Unturned(s, 51) == Bit(s.0, 18)
    ensures Unturned(s, 52) == Bit(s.0, 19) && Unturned(s, 53) == Bit(s.0, 20) && Unturned(s, 54) == Bit(s.0, 21) && Unturned(s, 55) == Bit(s.0, 22)
    ensures Unturned(s, 56) == Bit(s.0, 23) && Unturned(s, 57) == Bit(s.0, 24) && Unturned(s, 58) == Bit(s.0, 25) && Unturned(s, 59) == Bit(s.0, 26)
    ensures Unturned(s, 60) == Bit(s.0, 27) && Unturned(s, 61) == Bit(s.0, 28) && Unturned(s, 62) == Bit(s.0, 29) && Unturned(s, 63) == Bit(s.0, 30)
  {
    hide Bit, Unturned;
    UnturnedRightBitsAt(s);
    UnturnedLeftBitsAt(s);
  }

  // The opening permutation

  /** Where each bit of c and d comes from in a and b. */
  ghost predicate OpenWired(a: bv32, b: bv32, c: bv32, d: bv32) {
    && (c & 0x80000000 != 0 <==> b & 0x00004000 != 0)
    && (c & 0x40000000 != 0 <==> b & 0x00400000 != 0)
    && (c & 0x20000000 != 0 <==> b & 0x40000000 != 0)
    && (c & 0x10000000 != 0 <==> a & 0x00000040 != 0)
    && (c & 0x08000000 != 0 <==> a & 0x00004000 != 0)
    && (c & 0x04000000 != 0 <==> a & 0x00400000 != 0)
    && (c & 0x02000000 != 0 <==> a & 0x40000000 != 0)
    && (c & 0x01000000 != 0 <==> b & 0x00000010 != 0)
    && (c & 0x00800000 != 0 <==> b & 0x00001000 != 0)
    && (c & 0x00400000 != 0 <==> b & 0x00100000 != 0)
    && (c & 0x00200000 != 0 <==> b & 0x10000000 != 0)
    && (c & 0x00100000 != 0 <==> a & 0x00000010 != 0)
    && (c & 0x00080000 != 0 <==> a & 0x00001000 != 0)
    && (c & 0x00040000 != 0 <==> a & 0x00100000 != 0)
    && (c & 0x00020000 != 0 <==> a & 0x10000000 != 0)
    && (c & 0x00010000 != 0 <==> b & 0x00000004 != 0)
    && (c & 0x00008000 != 0 <==> b & 0x00000400 != 0)
    && (c & 0x00004000 != 0 <==> b & 0x00040000 != 0)
    && (c & 0x00002000 != 0 <==> b & 0x04000000 != 0)
    && (c & 0x00001000 != 0 <==> a & 0x00000004 != 0)
    && (c & 0x00000800 != 0 <==> a & 0x00000400 != 0)
    && (c & 0x00000400 != 0 <==> a & 0x00040000 != 0)
    && (c & 0x00000200 != 0 <==> a & 0x04000000 != 0)
    && (c & 0x00000100 != 0 <==> b & 0x00000001 != 0)
    && (c & 0x00000080 != 0 <==> b & 0x00000100 != 0)
    && (c & 0x00000040 != 0 <==> b & 0x00010000 != 0)
    && (c & 0x00000020 != 0 <==> b & 0x01000000 != 0)
    && (c & 0x00000010 != 0 <==> a & 0x00000001 != 0)
    && (c & 0x00000008 != 0 <==> a & 0x00000100 != 0)
    && (c & 0x00000004 != 0 <==> a & 0x00010000 != 0)
    && (c & 0x00000002 != 0 <==> a & 0x01000000 != 0)
    && (c & 0x00000001 != 0 <==> b & 0x00000040 != 0)
    && (d & 0x80000000 != 0 <==> b & 0x00008000 != 0)
    && (d & 0x40000000 != 0 <==> b & 0x00800000 != 0)
    && (d & 0x20000000 != 0 <==> b & 0x80000000 != 0)
    && (d & 0x10000000 != 0 <==> a & 0x00000080 != 0)
    && (d & 0x08000000 != 0 <==> a & 0x00008000 != 0)
    && (d & 0x04000000 != 0 <==> a & 0x00800000 != 0)
    && (d & 0x02000000 != 0 <==> a & 0x80000000 != 0)
    && (d & 0x01000000 != 0 <==> b & 0x00000020 != 0)
    && (d & 0x00800000 != 0 <==> b & 0x00002000 != 0)
    && (d & 0x00400000 != 0 <==> b & 0x00200000 != 0)
    && (d & 0x00200000 != 0 <==> b & 0x20000000 != 0)
    && (d & 0x00100000 != 0 <==> a & 0x00000020 != 0)
    && (d & 0x00080000 != 0 <==> a & 0x00002000 != 0)
    && (d & 0x00040000 != 0 <==> a & 0x00200000 != 0)
    && (d & 0x00020000 != 0 <==> a & 0x20000000 != 0)
    && (d & 0x00010000 != 0 <==> b & 0x00000008 != 0)
    && (d & 0x00008000 != 0 <==> b & 0x00000800 != 0)
    && (d & 0x00004000 != 0 <==> b & 0x00080000 != 0)
    && (d & 0x00002000 != 0 <==> b & 0x08000000 != 0)
    && (d & 0x00001000 != 0 <==> a & 0x00000008 != 0)
    && (d & 0x00000800 != 0 <==> a & 0x00000800 != 0)
    && (d & 0x00000400 != 0 <==> a & 0x00080000 != 0)
    && (d & 0x00000200 != 0 <==> a & 0x08000000 != 0)
    && (d & 0x00000100 != 0 <==> b & 0x00000002 != 0)
    && (d & 0x00000080 != 0 <==> b & 0x00000200 != 0)
    && (d & 0x00000040 != 0 <==> b & 0x00020000 != 0)
    && (d & 0x00000020 != 0 <==> b & 0x02000000 != 0)
    && (d & 0x00000010 != 0 <==> a & 0x00000002 != 0)
    && (d & 0x00000008 != 0 <==> a & 0x00000200 != 0)
    && (d & 0x00000004 != 0 <==> a & 0x00020000 != 0)
    && (d & 0x00000002 != 0 <==> a & 0x02000000 != 0)
    && (d & 0x00000001 != 0 <==> b & 0x00000080 != 0)
  }

  lemma OpenIsWired(s: Halves)
    ensures OpenWired(s.0, s.1, Open(s).0, Open(s).1)
  {
  }

  lemma OpenWires0(a: bv32, b: bv32, c: bv32, d: bv32)
    requires OpenWired(a, b, c, d)
    ensures Bit(c, 0) == Bit(b, 17) && Bit(c, 1) == Bit(b, 9) && Bit(c, 2) == Bit(b, 1) && Bit(c, 3) == Bit(a, 25)
    ensures Bit(c, 4) == Bit(a, 17) && Bit(c, 5) == Bit(a, 9) && Bit(c, 6) == Bit(a, 1) && Bit(c, 7) == Bit(b, 27)
    ensures Bit(c, 8) == Bit(b, 19) && Bit(c, 9) == Bit(b, 11) && Bit(c, 10) == Bit(b, 3) && Bit(c, 11) == Bit(a, 27)
    ensures Bit(c, 12) == Bit(a, 19) && Bit(c, 13) == Bit(a, 11) && Bit(c, 14) == Bit(a, 3) && Bit(c, 15) == Bit(b, 29)
  {
    hide Bit;
    BitRow0(a);
    BitRow1(a);
    BitRow2(a);
    BitRow3(a);
    BitRow0(b);
    BitRow1(b);
    BitRow2(b);
    BitRow3(b);
    BitRow0(c);
    BitRow1(c);
  }

  lemma OpenWires1(a: bv32, b: bv32, c: bv32, d: bv32)
    requires OpenWired(a, b, c, d)
    ensures Bit(c, 16) == Bit(b, 21) && Bit(c, 17) == Bit(b, 13) && Bit(c, 18) == Bit(b, 5) && Bit(c, 19) == Bit(a, 29)
    ensures Bit(c, 20) == Bit(a, 21) && Bit(c, 21) == Bit(a, 13) && Bit(c, 22) == Bit(a, 5) && Bit(c, 23) == Bit(b, 31)
    ensures Bit(c, 24) == Bit(b, 23) && Bit(c, 25) == Bit(b, 15) && Bit(c, 26) == Bit(b, 7) && Bit(c, 27) == Bit(a, 31)
    ensures Bit(c, 28) == Bit(a, 23) && Bit(c, 29) == Bit(a, 15) && Bit(c, 30) == Bit(a, 7) && Bit(c, 31) == Bit(b, 25)
  {
    hide Bit;
    BitRow0(a);
    BitRow1(a);
    BitRow2(a);
    BitRow3(a);
    BitRow0(b);
    BitRow1(b);
    BitRow2(b);
    BitRow3(b);
    BitRow2(c);
    BitRow3(c);
  }

  lemma OpenWires2(a: bv32, b: bv32, c: bv32, d: bv32)
    requires OpenWired(a, b, c, d)
    ensures Bit(d, 0) == Bit(b, 16) && Bit(d, 1) == Bit(b, 8) && Bit(d, 2) == Bit(b, 0) && Bit(d, 3) == Bit(a, 24)
    ensures Bit(d, 4) == Bit(a, 16) && Bit(d, 5) == Bit(a, 8) && Bit(d, 6) == Bit(a, 0) && Bit(d, 7) == Bit(b, 26)
    ensures Bit(d, 8) == Bit(b, 18) && Bit(d, 9) == Bit(b, 10) && Bit(d, 10) == Bit(b, 2) && Bit(d, 11) == Bit(a, 26)
    ensures Bit(d, 12) == Bit(a, 18) && Bit(d, 13) == Bit(a, 10) && Bit(d, 14) == Bit(a, 2) && Bit(d, 15) == Bit(b, 28)
  {
    hide Bit;
    BitRow0(a);
    BitRow1(a);
    BitRow2(a);
    BitRow3(a);
    BitRow0(b);
    BitRow1(b);
    BitRow2(b);
    BitRow3(b);
    BitRow0(d);
    BitRow1(d);
  }

  lemma OpenWires3(a: bv32, b: bv32, c: bv32, d: bv32)
    requires OpenWired(a, b, c, d)
    ensures Bit(d, 16) == Bit(b, 20) && Bit(d, 17) == Bit(b, 12) && Bit(d, 18) == Bit(b, 4) && Bit(d, 19) == Bit(a, 28)
    ensures Bit(d, 20) == Bit(a, 20) && Bit(d, 21) == Bit(a, 12) && Bit(d, 22) == Bit(a, 4) && Bit(d, 23) == Bit(b, 30)
    ensures Bit(d, 24) == Bit(b, 22) && Bit(d, 25) == Bit(b, 14) && Bit(d, 26) == Bit(b, 6) && Bit(d, 27) == Bit(a, 30)
    ensures Bit(d, 28) == Bit(a, 22) && Bit(d, 29) == Bit(a, 14) && Bit(d, 30) == Bit(a, 6) && Bit(d, 31) == Bit(b, 24)
  {
    hide Bit;
    BitRow0(a);
    BitRow1(a);
    BitRow2(a);
    BitRow3(a);
    BitRow0(b);
    BitRow1(b);
    BitRow2(b);
    BitRow3(b);
    BitRow2(d);
    BitRow3(d);
  }

  lemma OpenBlock(s: Halves)
    ensures var o := Open(s);
            && Bit(o.0, 0) == BlockBit(s, 49) && Bit(o.0, 1) == BlockBit(s, 41) && Bit(o.0, 2) == BlockBit(s, 33) && Bit(o.0, 3) == BlockBit(s, 25)
            && Bit(o.0, 4) == BlockBit(s, 17) && Bit(o.0, 5) == BlockBit(s, 9) && Bit(o.0, 6) == BlockBit(s, 1) && Bit(o.0, 7) == BlockBit(s, 59)
            && Bit(o.0, 8) == BlockBit(s, 51) && Bit(o.0, 9) == BlockBit(s, 43) && Bit(o.0, 10) == BlockBit(s, 35) && Bit(o.0, 11) == BlockBit(s, 27)
            && Bit(o.0, 12) == BlockBit(s, 19) && Bit(o.0, 13) == BlockBit(s, 11) && Bit(o.0, 14) == BlockBit(s, 3) && Bit(o.0, 15) == BlockBit(s, 61)
            && Bit(o.0, 16) == BlockBit(s, 53) && Bit(o.0, 17) == BlockBit(s, 45) && Bit(o.0, 18) == BlockBit(s, 37) && Bit(o.0, 19) == BlockBit(s, 29)
            && Bit(o.0, 20) == BlockBit(s, 21) && Bit(o.0, 21) == BlockBit(s, 13) && Bit(o.0, 22) == BlockBit(s, 5) && Bit(o.0, 23) == BlockBit(s, 63)
            && Bit(o.0, 24) == BlockBit(s, 55) && Bit(o.0, 25) == BlockBit(s, 47) && Bit(o.0, 26) == BlockBit(s, 39) && Bit(o.0, 27) == BlockBit(s, 31)
            && Bit(o.0, 28) == BlockBit(s, 23) && Bit(o.0, 29) == BlockBit(s, 15) && Bit(o.0, 30) == BlockBit(s, 7) && Bit(o.0, 31) == BlockBit(s, 57)
            && Bit(o.1, 0) == BlockBit(s, 48) && Bit(o.1, 1) == BlockBit(s, 40) && Bit(o.1, 2) == BlockBit(s, 32) && Bit(o.1, 3) == BlockBit(s, 24)
            && Bit(o.1, 4) == BlockBit(s, 16) && Bit(o.1, 5) == BlockBit(s, 8) && Bit(o.1, 6) == BlockBit(s, 0) && Bit(o.1, 7) == BlockBit(s, 58)
            && Bit(o.1, 8) == BlockBit(s, 50) && Bit(o.1, 9) == BlockBit(s, 42) && Bit(o.1, 10) == BlockBit(s, 34) && Bit(o.1, 11) == BlockBit(s, 26)
            && Bit(o.1, 12) == BlockBit(s, 18) && Bit(o.1, 13) == BlockBit(s, 10) && Bit(o.1, 14) == BlockBit(s, 2) && Bit(o.1, 15) == BlockBit(s, 60)
            && Bit(o.1, 16) == BlockBit(s, 52) && Bit(o.1, 17) == BlockBit(s, 44) && Bit(o.1, 18) == BlockBit(s, 36) && Bit(o.1, 19) == BlockBit(s, 28)
            && Bit(o.1, 20) == BlockBit(s, 20) && Bit(o.1, 21) == BlockBit(s, 12) && Bit(o.1, 22) == BlockBit(s, 4) && Bit(o.1, 23) == BlockBit(s, 62)
            && Bit(o.1, 24) == BlockBit(s, 54) && Bit(o.1, 25) == BlockBit(s, 46) && Bit(o.1, 26) == BlockBit(s, 38) && Bit(o.1, 27) == BlockBit(s, 30)
            && Bit(o.1, 28) == BlockBit(s, 22) && Bit(o.1, 29) == BlockBit(s, 14) && Bit(o.1, 30) == BlockBit(s, 6) && Bit(o.1, 31) == BlockBit(s, 56)
  {
    hide Open, OpenWired, Bit, BlockBit;
    OpenIsWired(s);
    OpenWires0(s.0, s.1, Open(s).0, Open(s).1);
    OpenWires1(s.0, s.1, Open(s).0, Open(s).1);
    OpenWires2(s.0, s.1, Open(s).0, Open(s).1);
    OpenWires3(s.0, s.1, Open(s).0, Open(s).1);
    BlockBitsAt(s);
  }

  lemma InitialTable1()
    ensures Fips46.InitialFrom(0) == 57 && Fips46.InitialFrom(1) == 49 && Fips46.InitialFrom(2) == 41 && Fips46.InitialFrom(3) == 33
    ensures Fips46.InitialFrom(4) == 25 && Fips46.InitialFrom(5) == 17 && Fips46.InitialFrom(6) == 9 && Fips46.InitialFrom(7) == 1
    ensures Fips46.InitialFrom(8) == 59 && Fips46.InitialFrom(9) == 51 && Fips46.InitialFrom(10) == 43 && Fips46.InitialFrom(11) == 35
    ensures Fips46.InitialFrom(12) == 27 && Fips46.InitialFrom(13) == 19 && Fips46.InitialFrom(14) == 11 && Fips46.InitialFrom(15) == 3
  {
  }

  lemma InitialTable2()
    ensures Fips46.InitialFrom(16) == 61 && Fips46.InitialFrom(17) == 53 && Fips46.InitialFrom(18) == 45 && Fips46.InitialFrom(19) == 37
    ensures Fips46.InitialFrom(20) == 29 && Fips46.InitialFrom(21) == 21 && Fips46.InitialFrom(22) == 13 && Fips46.InitialFrom(23) == 5
    ensures Fips46.InitialFrom(24) == 63 && Fips46.InitialFrom(25) == 55 && Fips46.InitialFrom(26) == 47 && Fips46.InitialFrom(27) == 39
    ensures Fips46.InitialFrom(28) == 31 && Fips46.InitialFrom(29) == 23 && Fips46.InitialFrom(30) == 15 && Fips46.InitialFrom(31) == 7
  {
  }

  lemma InitialTable3()
    ensures Fips46.InitialFrom(32) == 56 && Fips46.InitialFrom(33) == 48 && Fips46.InitialFrom(34) == 40 && Fips46.InitialFrom(35) == 32
    ensures Fips46.InitialFrom(36) == 24 && Fips46.InitialFrom(37) == 16 && Fips46.InitialFrom(38) == 8 && Fips46.InitialFrom(39) == 0
    ensures Fips46.InitialFrom(40) == 58 && Fips46.InitialFrom(41) == 50 && Fips46.InitialFrom(42) == 42 && Fips46.InitialFrom(43) == 34
    ensures Fips46.InitialFrom(44) == 26 && Fips46.InitialFrom(45) == 18 && Fips46.InitialFrom(46) == 10 && Fips46.InitialFrom(47) == 2
  {
  }

  lemma InitialTable4()
    ensures Fips46.InitialFrom(48) == 60 && Fips46.InitialFrom(49) == 52 && Fips46.InitialFrom(50) == 44 && Fips46.InitialFrom(51) == 36
    ensures Fips46.InitialFrom(52) == 28 && Fips46.InitialFrom(53) == 20 && Fips46.InitialFrom(54) == 12 && Fips46.InitialFrom(55) == 4
    ensures Fips46.InitialFrom(56) == 62 && Fips46.InitialFrom(57) == 54 && Fips46.InitialFrom(58) == 46 && Fips46.InitialFrom(59) == 38
    ensures Fips46.InitialFrom(60) == 30 && Fips46.InitialFrom(61) == 22 && Fips46.InitialFrom(62) == 14 && Fips46.InitialFrom(63) == 6
  {
  }

  /** Bit i of both words after the opening permutation. */
  ghost predicate OpenAt(s: Halves, i: nat) {
    i < 32 ==>
      && Bit(Open(s).0, i) == BlockBit(s, Fips46.InitialFrom((i + 1) % 32))
      && Bit(Open(s).1, i) == BlockBit(s, Fips46.InitialFrom(32 + (i + 1) % 32))
  }

  lemma OpenLow(s: Halves)
    ensures OpenAt(s, 0) && OpenAt(s, 1) && OpenAt(s, 2) && OpenAt(s, 3)
    ensures OpenAt(s, 4) && OpenAt(s, 5) && OpenAt(s, 6) && OpenAt(s, 7)
    ensures OpenAt(s, 8) && OpenAt(s, 9) && OpenAt(s, 10) && OpenAt(s, 11)
    ensures OpenAt(s, 12) && OpenAt(s, 13) && OpenAt(s, 14) && OpenAt(s, 15)
  {
    hide Open, Bit, BlockBit, Fips46.InitialFrom;
    OpenBlock(s);
    InitialTable1();
    InitialTable2();
    InitialTable3();
    InitialTable4();
  }

  lemma OpenHigh(s: Halves)
    ensures OpenAt(s, 16) && OpenAt(s, 17) && OpenAt(s, 18) && OpenAt(s, 19)
    ensures OpenAt(s, 20) && OpenAt(s, 21) && OpenAt(s, 22) && OpenAt(s, 23)
    ensures OpenAt(s, 24) && OpenAt(s, 25) && OpenAt(s, 26) && OpenAt(s, 27)
    ensures OpenAt(s, 28) && OpenAt(s, 29) && OpenAt(s, 30) && OpenAt(s, 31)
  {
    hide Open, Bit, BlockBit, Fips46.InitialFrom;
    OpenBlock(s);
    InitialTable1();
    InitialTable2();
    InitialTable3();
    InitialTable4();
  }

  lemma OpenEverywhere(s: Halves, i: nat)
    ensures i < 32 ==> OpenAt(s, i)
  {
    hide OpenAt;
    OpenLow(s);
    OpenHigh(s);
    All32((k: nat) => OpenAt(s, k));
  }

  /** Both words after opening are the halves of the initial permutation, each turned
      by a bit. */
  lemma OpenBits(s: Halves, i: nat)
    requires i < 32
    ensures Bit(Open(s).0, i) == BlockBit(s, Fips46.InitialFrom((i + 1) % 32))
    ensures Bit(Open(s).1, i) == BlockBit(s, Fips46.InitialFrom(32 + (i + 1) % 32))
  {
    hide Open, Bit, BlockBit, Fips46.InitialFrom;
    OpenEverywhere(s, i);
  }

  // The closing permutation

  /** Where each bit of c and d comes from in a and b. */
  ghost predicate CloseWired(a: bv32, b: bv32, c: bv32, d: bv32) {
    && (c & 0x80000000 != 0 <==> a & 0x02000000 != 0)
    && (c & 0x40000000 != 0 <==> b & 0x02000000 != 0)
    && (c & 0x20000000 != 0 <==> a & 0x00020000 != 0)
    && (c & 0x10000000 != 0 <==> b & 0x00020000 != 0)
    && (c & 0x08000000 != 0 <==> a & 0x00000200 != 0)
    && (c & 0x04000000 != 0 <==> b & 0x00000200 != 0)
    && (c & 0x02000000 != 0 <==> a & 0x00000002 != 0)
    && (c & 0x01000000 != 0 <==> b & 0x00000002 != 0)
    && (c & 0x00800000 != 0 <==> a & 0x04000000 != 0)
    && (c & 0x00400000 != 0 <==> b & 0x04000000 != 0)
    && (c & 0x00200000 != 0 <==> a & 0x00040000 != 0)
    && (c & 0x00100000 != 0 <==> b & 0x00040000 != 0)
    && (c & 0x00080000 != 0 <==> a & 0x00000400 != 0)
    && (c & 0x00040000 != 0 <==> b & 0x00000400 != 0)
    && (c & 0x00020000 != 0 <==> a & 0x00000004 != 0)
    && (c & 0x00010000 != 0 <==> b & 0x00000004 != 0)
    && (c & 0x00008000 != 0 <==> a & 0x08000000 != 0)
    && (c & 0x00004000 != 0 <==> b & 0x08000000 != 0)
    && (c & 0x00002000 != 0 <==> a & 0x00080000 != 0)
    && (c & 0x00001000 != 0 <==> b & 0x00080000 != 0)
    && (c & 0x00000800 != 0 <==> a & 0x00000800 != 0)
    && (c & 0x00000400 != 0 <==> b & 0x00000800 != 0)
    && (c & 0x00000200 != 0 <==> a & 0x00000008 != 0)
    && (c & 0x00000100 != 0 <==> b & 0x00000008 != 0)
    && (c & 0x00000080 != 0 <==> a & 0x10000000 != 0)
    && (c & 0x00000040 != 0 <==> b & 0x10000000 != 0)
    && (c & 0x00000020 != 0 <==> a & 0x00100000 != 0)
    && (c & 0x00000010 != 0 <==> b & 0x00100000 != 0)
    && (c & 0x00000008 != 0 <==> a & 0x00001000 != 0)
    && (c & 0x00000004 != 0 <==> b & 0x00001000 != 0)
    && (c & 0x00000002 != 0 <==> a & 0x00000010 != 0)
    && (c & 0x00000001 != 0 <==> b & 0x00000010 != 0)
    && (d & 0x80000000 != 0 <==> a & 0x20000000 != 0)
    && (d & 0x40000000 != 0 <==> b & 0x20000000 != 0)
    && (d & 0x20000000 != 0 <==> a & 0x00200000 != 0)
    && (d & 0x10000000 != 0 <==> b & 0x00200000 != 0)
    && (d & 0x08000000 != 0 <==> a & 0x00002000 != 0)
    && (d & 0x04000000 != 0 <==> b & 0x00002000 != 0)
    && (d & 0x02000000 != 0 <==> a & 0x00000020 != 0)
    && (d & 0x01000000 != 0 <==> b & 0x00000020 != 0)
    && (d & 0x00800000 != 0 <==> a & 0x40000000 != 0)
    && (d & 0x00400000 != 0 <==> b & 0x40000000 != 0)
    && (d & 0x00200000 != 0 <==> a & 0x00400000 != 0)
    && (d & 0x00100000 != 0 <==> b & 0x00400000 != 0)
    && (d & 0x00080000 != 0 <==> a & 0x00004000 != 0)
    && (d & 0x00040000 != 0 <==> b & 0x00004000 != 0)
    && (d & 0x00020000 != 0 <==> a & 0x00000040 != 0)
    && (d & 0x00010000 != 0 <==> b & 0x00000040 != 0)
    && (d & 0x00008000 != 0 <==> a & 0x80000000 != 0)
    && (d & 0x00004000 != 0 <==> b & 0x80000000 != 0)
    && (d & 0x00002000 != 0 <==> a & 0x00800000 != 0)
    && (d & 0x00001000 != 0 <==> b & 0x00800000 != 0)
    && (d & 0x00000800 != 0 <==> a & 0x00008000 != 0)
    && (d & 0x00000400 != 0 <==> b & 0x00008000 != 0)
    && (d & 0x00000200 != 0 <==> a & 0x00000080 != 0)
    && (d & 0x00000100 != 0 <==> b & 0x00000080 != 0)
    && (d & 0x00000080 != 0 <==> a & 0x00000001 != 0)
    && (d & 0x00000040 != 0 <==> b & 0x00000001 != 0)
    && (d & 0x00000020 != 0 <==> a & 0x01000000 != 0)
    && (d & 0x00000010 != 0 <==> b & 0x01000000 != 0)
    && (d & 0x00000008 != 0 <==> a & 0x00010000 != 0)
    && (d & 0x00000004 != 0 <==> b & 0x00010000 != 0)
    && (d & 0x00000002 != 0 <==> a & 0x00000100 != 0)
    && (d & 0x00000001 != 0 <==> b & 0x00000100 != 0)
  }

  lemma CloseIsWired(s: Halves)
    ensures CloseWired(s.0, s.1, Close(s).0, Close(s).1)
  {
  }

  lemma CloseWires0(a: bv32, b: bv32, c: bv32, d: bv32)
    requires CloseWired(a, b, c, d)
    ensures Bit(c, 0) == Bit(a, 6) && Bit(c, 1) == Bit(b, 6) && Bit(c, 2) == Bit(a, 14) && Bit(c, 3) == Bit(b, 14)
    ensures Bit(c, 4) == Bit(a, 22) && Bit(c, 5) == Bit(b, 22) && Bit(c, 6) == Bit(a, 30) && Bit(c, 7) == Bit(b, 30)
    ensures Bit(c, 8) == Bit(a, 5) && Bit(c, 9) == Bit(b, 5) && Bit(c, 10) == Bit(a, 13) && Bit(c, 11) == Bit(b, 13)
    ensures Bit(c, 12) == Bit(a, 21) && Bit(c, 13) == Bit(b, 21) && Bit(c, 14) == Bit(a, 29) && Bit(c, 15) == Bit(b, 29)
  {
    hide Bit;
    BitRow0(a);
    BitRow1(a);
    BitRow2(a);
    BitRow3(a);
    BitRow0(b);
    BitRow1(b);
    BitRow2(b);
    BitRow3(b);
    BitRow0(c);
    BitRow1(c);
  }

  lemma CloseWires1(a: bv32, b: bv32, c: bv32, d: bv32)
    requires CloseWired(a, b, c, d)
    ensures Bit(c, 16) == Bit(a, 4) && Bit(c, 17) == Bit(b, 4) && Bit(c, 18) == Bit(a, 12) && Bit(c, 19) == Bit(b, 12)
    ensures Bit(c, 20) == Bit(a, 20) && Bit(c, 21) == Bit(b, 20) && Bit(c, 22) == Bit(a, 28) && Bit(c, 23) == Bit(b, 28)
    ensures Bit(c, 24) == Bit(a, 3) && Bit(c, 25) == Bit(b, 3) && Bit(c, 26) == Bit(a, 11) && Bit(c, 27) == Bit(b, 11)
    ensures Bit(c, 28) == Bit(a, 19) && Bit(c, 29) == Bit(b, 19) && Bit(c, 30) == Bit(a, 27) && Bit(c, 31) == Bit(b, 27)
  {
    hide Bit;
    BitRow0(a);
    BitRow1(a);
    BitRow2(a);
    BitRow3(a);
    BitRow0(b);
    BitRow1(b);
    BitRow2(b);
    BitRow3(b);
    BitRow2(c);
    BitRow3(c);
  }

  lemma CloseWires2(a: bv32, b: bv32, c: bv32, d: bv32)
    requires CloseWired(a, b, c, d)
    ensures Bit(d, 0) == Bit(a, 2) && Bit(d, 1) == Bit(b, 2) && Bit(d, 2) == Bit(a, 10) && Bit(d, 3) == Bit(b, 10)
    ensures Bit(d, 4) == Bit(a, 18) && Bit(d, 5) == Bit(b, 18) && Bit(d, 6) == Bit(a, 26) && Bit(d, 7) == Bit(b, 26)
    ensures Bit(d, 8) == Bit(a, 1) && Bit(d, 9) == Bit(b, 1) && Bit(d, 10) == Bit(a, 9) && Bit(d, 11) == Bit(b, 9)
    ensures Bit(d, 12) == Bit(a, 17) && Bit(d, 13) == Bit(b, 17) && Bit(d, 14) == Bit(a, 25) && Bit(d, 15) == Bit(b, 25)
  {
    hide Bit;
    BitRow0(a);
    BitRow1(a);
    BitRow2(a);
    BitRow3(a);
    BitRow0(b);
    BitRow1(b);
    BitRow2(b);
    BitRow3(b);
    BitRow0(d);
    BitRow1(d);
  }

  lemma CloseWires3(a: bv32, b: bv32, c: bv32, d: bv32)
    requires CloseWired(a, b, c, d)
    ensures Bit(d, 16) == Bit(a, 0) && Bit(d, 17) == Bit(b, 0) && Bit(d, 18) == Bit(a, 8) && Bit(d, 19) == Bit(b, 8)
    ensures Bit(d, 20) == Bit(a, 16) && Bit(d, 21) == Bit(b, 16) && Bit(d, 22) == Bit(a, 24) && Bit(d, 23) == Bit(b, 24)
    ensures Bit(d, 24) == Bit(a, 31) && Bit(d, 25) == Bit(b, 31) && Bit(d, 26) == Bit(a, 7) && Bit(d, 27) == Bit(b, 7)
    ensures Bit(d, 28) == Bit(a, 15) && Bit(d, 29) == Bit(b, 15) && Bit(d, 30) == Bit(a, 23) && Bit(d, 31) == Bit(b, 23)
  {
    hide Bit;
    BitRow0(a);
    BitRow1(a);
    BitRow2(a);
    BitRow3(a);
    BitRow0(b);
    BitRow1(b);
    BitRow2(b);
    BitRow3(b);
    BitRow2(d);
    BitRow3(d);
  }

  lemma CloseBlock(s: Halves)
    ensures var o := Close(s);
            && Bit(o.0, 0) == Unturned(s, 39) && Bit(o.0, 1) == Unturned(s, 7) && Bit(o.0, 2) == Unturned(s, 47) && Bit(o.0, 3) == Unturned(s, 15)
            && Bit(o.0, 4) == Unturned(s, 55) && Bit(o.0, 5) == Unturned(s, 23) && Bit(o.0, 6) == Unturned(s, 63) && Bit(o.0, 7) == Unturned(s, 31)
            && Bit(o.0, 8) == Unturned(s, 38) && Bit(o.0, 9) == Unturned(s, 6) && Bit(o.0, 10) == Unturned(s, 46) && Bit(o.0, 11) == Unturned(s, 14)
            && Bit(o.0, 12) == Unturned(s, 54) && Bit(o.0, 13) == Unturned(s, 22) && Bit(o.0, 14) == Unturned(s, 62) && Bit(o.0, 15) == Unturned(s, 30)
            && Bit(o.0, 16) == Unturned(s, 37) && Bit(o.0, 17) == Unturned(s, 5) && Bit(o.0, 18) == Unturned(s, 45) && Bit(o.0, 19) == Unturned(s, 13)
            && Bit(o.0, 20) == Unturned(s, 53) && Bit(o.0, 21) == Unturned(s, 21) && Bit(o.0, 22) == Unturned(s, 61) && Bit(o.0, 23) == Unturned(s, 29)
            && Bit(o.0, 24) == Unturned(s, 36) && Bit(o.0, 25) == Unturned(s, 4) && Bit(o.0, 26) == Unturned(s, 44) && Bit(o.0, 27) == Unturned(s, 12)
            && Bit(o.0, 28) == Unturned(s, 52) && Bit(o.0, 29) == Unturned(s, 20) && Bit(o.0, 30) == Unturned(s, 60) && Bit(o.0, 31) == Unturned(s, 28)
            && Bit(o.1, 0) == Unturned(s, 35) && Bit(o.1, 1) == Unturned(s, 3) && Bit(o.1, 2) == Unturned(s, 43) && Bit(o.1, 3) == Unturned(s, 11)
            && Bit(o.1, 4) == Unturned(s, 51) && Bit(o.1, 5) == Unturned(s, 19) && Bit(o.1, 6) == Unturned(s, 59) && Bit(o.1, 7) == Unturned(s, 27)
            && Bit(o.1, 8) == Unturned(s, 34) && Bit(o.1, 9) == Unturned(s, 2) && Bit(o.1, 10) == Unturned(s, 42) && Bit(o.1, 11) == Unturned(s, 10)
            && Bit(o.1, 12) == Unturned(s, 50) && Bit(o.1, 13) == Unturned(s, 18) && Bit(o.1, 14) == Unturned(s, 58) && Bit(o.1, 15) == Unturned(s, 26)
            && Bit(o.1, 16) == Unturned(s, 33) && Bit(o.1, 17) == Unturned(s, 1) && Bit(o.1, 18) == Unturned(s, 41) && Bit(o.1, 19) == Unturned(s, 9)
            && Bit(o.1, 20) == Unturned(s, 49) && Bit(o.1, 21) == Unturned(s, 17) && Bit(o.1, 22) == Unturned(s, 57) && Bit(o.1, 23) == Unturned(s, 25)
            && Bit(o.1, 24) == Unturned(s, 32) && Bit(o.1, 25) == Unturned(s, 0) && Bit(o.1, 26) == Unturned(s, 40) && Bit(o.1, 27) == Unturned(s, 8)
            && Bit(o.1, 28) == Unturned(s, 48) && Bit(o.1, 29) == Unturned(s, 16) && Bit(o.1, 30) == Unturned(s, 56) && Bit(o.1, 31) == Unturned(s, 24)
  {
    hide Close, CloseWired, Bit, Unturned;
    CloseIsWired(s);
    CloseWires0(s.0, s.1, Close(s).0, Close(s).1);
    CloseWires1(s.0, s.1, Close(s).0, Close(s).1);
    CloseWires2(s.0, s.1, Close(s).0, Close(s).1);
    CloseWires3(s.0, s.1, Close(s).0, Close(s).1);
    UnturnedAt(s);
  }

  lemma FinalTable1()
    ensures Fips46.FinalFrom(0) == 39 && Fips46.FinalFrom(1) == 7 && Fips46.FinalFrom(2) == 47 && Fips46.FinalFrom(3) == 15
    ensures Fips46.FinalFrom(4) == 55 && Fips46.FinalFrom(5) == 23 && Fips46.FinalFrom(6) == 63 && Fips46.FinalFrom(7) == 31
    ensures Fips46.FinalFrom(8) == 38 && Fips46.FinalFrom(9) == 6 && Fips46.FinalFrom(10) == 46 && Fips46.FinalFrom(11) == 14
    ensures Fips46.FinalFrom(12) == 54 && Fips46.FinalFrom(13) == 22 && Fips46.FinalFrom(14) == 62 && Fips46.FinalFrom(15) == 30
  {
  }

  lemma FinalTable2()
    ensures Fips46.FinalFrom(16) == 37 && Fips46.FinalFrom(17) == 5 && Fips46.FinalFrom(18) == 45 && Fips46.FinalFrom(19) == 13
    ensures Fips46.FinalFrom(20) == 53 && Fips46.FinalFrom(21) == 21 && Fips46.FinalFrom(22) == 61 && Fips46.FinalFrom(23) == 29
    ensures Fips46.FinalFrom(24) == 36 && Fips46.FinalFrom(25) == 4 && Fips46.FinalFrom(26) == 44 && Fips46.FinalFrom(27) == 12
    ensures Fips46.FinalFrom(28) == 52 && Fips46.FinalFrom(29) == 20 && Fips46.FinalFrom(30) == 60 && Fips46.FinalFrom(31) == 28
  {
  }

  lemma FinalTable3()
    ensures Fips46.FinalFrom(32) == 35 && Fips46.FinalFrom(33) == 3 && Fips46.FinalFrom(34) == 43 && Fips46.FinalFrom(35) == 11
    ensures Fips46.FinalFrom(36) == 51 && Fips46.FinalFrom(37) == 19 && Fips46.FinalFrom(38) == 59 && Fips46.FinalFrom(39) == 27
    ensures Fips46.FinalFrom(40) == 34 && Fips46.FinalFrom(41) == 2 && Fips46.FinalFrom(42) == 42 && Fips46.FinalFrom(43) == 10
    ensures Fips46.FinalFrom(44) == 50 && Fips46.FinalFrom(45) == 18 && Fips46.FinalFrom(46) == 58 && Fips46.FinalFrom(47) == 26
  {
  }

  lemma FinalTable4()
    ensures Fips46.FinalFrom(48) == 33 && Fips46.FinalFrom(49) == 1 && Fips46.FinalFrom(50) == 41 && Fips46.FinalFrom(51) == 9
    ensures Fips46.FinalFrom(52) == 49 && Fips46.FinalFrom(53) == 17 && Fips46.FinalFrom(54) == 57 && Fips46.FinalFrom(55) == 25
    ensures Fips46.FinalFrom(56) == 32 && Fips46.FinalFrom(57) == 0 && Fips46.FinalFrom(58) == 40 && Fips46.FinalFrom(59) == 8
    ensures Fips46.FinalFrom(60) == 48 && Fips46.FinalFrom(61) == 16 && Fips46.FinalFrom(62) == 56 && Fips46.FinalFrom(63) == 24
  {
  }

  /** Bits i and 32 + i after the closing permutation, of words that are first
      turned back. */
  ghost predicate CloseAt(s: Halves, i: nat) {
    i < 32 ==>
      && Bit(Close(s).0, i) == Unturned(s, Fips46.FinalFrom(i))
      && Bit(Close(s).1, i) == Unturned(s, Fips46.FinalFrom(32 + i))
  }

  lemma CloseLow(s: Halves)
    ensures CloseAt(s, 0) && CloseAt(s, 1) && CloseAt(s, 2) && CloseAt(s, 3)
    ensures CloseAt(s, 4) && CloseAt(s, 5) && CloseAt(s, 6) && CloseAt(s, 7)
    ensures CloseAt(s, 8) && CloseAt(s, 9) && CloseAt(s, 10) && CloseAt(s, 11)
    ensures CloseAt(s, 12) && CloseAt(s, 13) && CloseAt(s, 14) && CloseAt(s, 15)
  {
    hide Close, Bit, Unturned, Fips46.FinalFrom;
    CloseBlock(s);
    FinalTable1();
    FinalTable2();
    FinalTable3();
    FinalTable4();
  }

  lemma CloseHigh(s: Halves)
    ensures CloseAt(s, 16) && CloseAt(s, 17) && CloseAt(s, 18) && CloseAt(s, 19)
    ensures CloseAt(s, 20) && CloseAt(s, 21) && CloseAt(s, 22) && CloseAt(s, 23)
    ensures CloseAt(s, 24) && CloseAt(s, 25) && CloseAt(s, 26) && CloseAt(s, 27)
    ensures CloseAt(s, 28) && CloseAt(s, 29) && CloseAt(s, 30) && CloseAt(s, 31)
  {
    hide Close, Bit, Unturned, Fips46.FinalFrom;
    CloseBlock(s);
    FinalTable1();
    FinalTable2();
    FinalTable3();
    FinalTable4();
  }

  lemma CloseEverywhere(s: Halves, i: nat)
    ensures i < 32 ==> CloseAt(s, i)
  {
    hide CloseAt;
    CloseLow(s);
    CloseHigh(s);
    All32((k: nat) => CloseAt(s, k));
  }

  /** Closing turns both words back and is the final permutation on the right and
      then the left half. */
  lemma CloseBits(s: Halves, i: nat)
    requires i < 32
    ensures Bit(Close(s).0, i) == Unturned(s, Fips46.FinalFrom(i))
    ensures Bit(Close(s).1, i) == Unturned(s, Fips46.FinalFrom(32 + i))
  {
    hide Close, Bit, Unturned, Fips46.FinalFrom;
    CloseEverywhere(s, i);
  }
}
