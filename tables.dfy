/** The fixed tables of the Syster control-word cipher (systerdes.c).

    They are constant data, written row by row as the source lays them out.
    The lemmas below check, by evaluation, the few facts about them that the
    cipher relies on: the three byte permutations are permutations, every
    key-expansion entry addresses a bit of an 8-byte key, and the output
    permutation P addresses each of the 32 bits of the round output once. */
module SysterTables {

  /** Key left-shift schedule: single rotation steps after round i. */
  const LS: seq<nat> := [1, 2, 2, 2, 2, 2, 2, 1, 2, 2, 2, 2, 2, 2, 1, 0]

  /** The S-boxes: 8 boxes of 32 bytes, two 4-bit entries per byte. */
  const S: seq<bv8> :=
    [0x1F, 0xB0, 0x28, 0xEB, 0xD1, 0x0D, 0x42, 0x7E, 0xC5, 0x59, 0x93, 0x34, 0xA6, 0x6A, 0xFC, 0x87] +
    [0xB0, 0xE3, 0x17, 0x7D, 0x2B, 0x96, 0xDE, 0x48, 0x0A, 0x34, 0x6C, 0x81, 0xC5, 0x5F, 0xA9, 0xF2] +
    [0x2E, 0xD0, 0x72, 0xB7, 0x95, 0x0C, 0x48, 0xEB, 0x53, 0x6A, 0xC9, 0x14, 0xAF, 0xF1, 0x36, 0x8D] +
    [0x8D, 0x4E, 0xB1, 0xE8, 0x6B, 0x35, 0x17, 0xD2, 0xF0, 0x93, 0x56, 0x2F, 0x0C, 0xCA, 0xA9, 0x74] +
    [0xB2, 0x4F, 0xD4, 0x18, 0x0B, 0xF6, 0x7E, 0x25, 0xC1, 0x3C, 0x6A, 0x83, 0xAD, 0x50, 0x97, 0xE9] +
    [0xE9, 0xB4, 0x42, 0x27, 0x3E, 0xCB, 0x85, 0x18, 0x56, 0x0A, 0x9F, 0x70, 0xF1, 0xAD, 0x6C, 0xD3] +
    [0x35, 0xE0, 0x5B, 0x0D, 0x68, 0xD3, 0x96, 0x7A, 0xF9, 0x2E, 0xC2, 0xB1, 0x1F, 0x84, 0xAC, 0x47] +
    [0x6B, 0x1C, 0x0D, 0xA3, 0xD6, 0x7A, 0x30, 0xC5, 0x84, 0xF1, 0xBE, 0x58, 0xE9, 0x2F, 0x47, 0x92] +
    [0xD1, 0x34, 0xBD, 0xE3, 0x8B, 0x58, 0x42, 0x9E, 0x7A, 0xAF, 0xC0, 0x05, 0x2C, 0xF6, 0x17, 0x69] +
    [0xB4, 0xD7, 0xE3, 0x48, 0x5E, 0x21, 0x8D, 0x72, 0x09, 0x60, 0x3F, 0xA6, 0x95, 0xCB, 0xFA, 0x1C] +
    [0x82, 0x27, 0x14, 0xCA, 0xF9, 0x90, 0x6F, 0x5C, 0xEB, 0xD8, 0x7D, 0xA3, 0x4E, 0x35, 0xB1, 0x06] +
    [0x5C, 0x90, 0x6F, 0xF9, 0x35, 0x4E, 0x82, 0x27, 0x06, 0xEB, 0xCA, 0x14, 0xA3, 0xD8, 0x7D, 0xB1] +
    [0x52, 0xF8, 0x6F, 0x16, 0x9C, 0xCB, 0x09, 0xA5, 0xED, 0x27, 0x3A, 0x81, 0x43, 0xB4, 0xD0, 0x7E] +
    [0x2E, 0x95, 0xB2, 0x6F, 0x79, 0x06, 0xC7, 0xF8, 0x4B, 0xE0, 0xD1, 0x3C, 0xA4, 0x5A, 0x1D, 0x83] +
    [0x0C, 0xE2, 0x7B, 0x18, 0x90, 0x4D, 0xC7, 0xB1, 0x63, 0x8F, 0xDE, 0x25, 0x39, 0xF6, 0xA4, 0x5A] +
    [0xF2, 0x17, 0x85, 0x4E, 0x5C, 0xB0, 0x2B, 0xED, 0xA4, 0x79, 0x38, 0x93, 0x6F, 0xCA, 0xD1, 0x06]

  /** Key expansion table: 8 groups of 6 bit addresses into the key. */
  const C: seq<bv8> :=
    [0x1C, 0x1F, 0x18, 0x0A, 0x12, 0x0E, 0x07, 0x1A, 0x04, 0x15, 0x0B, 0x10, 0x0C, 0x1B, 0x0F, 0x09] +
    [0x14, 0x1E, 0x05, 0x0D, 0x17, 0x1D, 0x08, 0x13, 0x3E, 0x33, 0x2C, 0x25, 0x39, 0x30, 0x38, 0x26] +
    [0x3C, 0x34, 0x2D, 0x29, 0x36, 0x2B, 0x3A, 0x31, 0x24, 0x3D, 0x3B, 0x3F, 0x28, 0x35, 0x2F, 0x32]

  /** Control-word expansion table; its first entry 0x1F selects the 5-bit address mask. */
  const E: seq<bv8> :=
    [0x1F, 0x00, 0x01, 0x02, 0x03, 0x44, 0x03, 0x04, 0x05, 0x06, 0x07, 0x68, 0x07, 0x08, 0x09, 0x0A] +
    [0x0B, 0x8C, 0x0B, 0x0C, 0x0D, 0x0E, 0x0F, 0xB0, 0x0F, 0x10, 0x11, 0x12, 0x13, 0xD4, 0x13, 0x14] +
    [0x15, 0x16, 0x17, 0xF8, 0x17, 0x18, 0x19, 0x1A, 0x1B, 0x1C, 0x1B, 0x1C, 0x1D, 0x1E, 0x1F, 0x20]

  /** Output permutation: entry j names byte (low 2 bits) and bit (bits 4..6) of the round output. */
  const P: seq<bv8> :=
    [0x31, 0x12, 0x50, 0x33, 0x13, 0x21, 0x42, 0x00, 0x51, 0x52, 0x30, 0x43, 0x53, 0x70, 0x22, 0x03] +
    [0x73, 0x62, 0x41, 0x60, 0x23, 0x20, 0x02, 0x01, 0x61, 0x63, 0x40, 0x32, 0x10, 0x11, 0x71, 0x72]

  /** Initial key permutation, initial and final control-word permutations
      (their entries are byte positions, so they are kept as naturals) */
  const KP: seq<nat> := [0, 3, 2, 1, 4, 5, 6, 7]
  const IP: seq<nat> := [4, 0, 5, 1, 6, 2, 7, 3]
  const FP: seq<nat> := [7, 3, 6, 2, 5, 1, 4, 0]

  /** p sends the 8 positions 0..7 one-to-one onto 0..7. */
  ghost predicate IsPermutation(p: seq<nat>)
  {
    |p| == 8 &&
    (forall i :: 0 <= i < 8 ==> p[i] < 8) &&
    (forall i, j :: 0 <= i < j < 8 ==> p[i] != p[j]) &&
    (forall m :: 0 <= m < 8 ==> m in p)
  }

  lemma PermutationTables()
    ensures IsPermutation(KP) && IsPermutation(IP) && IsPermutation(FP)
    ensures KP[0] % 4 == 0 && IP[0] % 4 == 0 && FP[0] % 4 != 0
  {
  }

  /** Every entry of s from index lo on is below bound. */
  ghost predicate BelowFrom(s: seq<bv8>, lo: nat, bound: bv8)
    requires lo <= |s|
    decreases |s| - lo
  {
    lo == |s| || (s[lo] < bound && BelowFrom(s, lo + 1, bound))
  }

  lemma {:induction false} BelowFromAll(s: seq<bv8>, lo: nat, bound: bv8)
    requires lo <= |s| && BelowFrom(s, lo, bound)
    ensures forall k :: lo <= k < |s| ==> s[k] < bound
    decreases |s| - lo
  {
    if lo < |s| {
      BelowFromAll(s, lo + 1, bound);
    }
  }

  /** Every key-expansion entry addresses one of the 64 bits of an 8-byte key. */
  lemma KeyExpansionInRange()
    ensures |C| == 48 && forall k :: 0 <= k < 48 ==> C[k] < 64
  {
    assert BelowFrom(C, 47, 64);
    assert BelowFrom(C, 46, 64);
    assert BelowFrom(C, 45, 64);
    assert BelowFrom(C, 44, 64);
    assert BelowFrom(C, 43, 64);
    assert BelowFrom(C, 42, 64);
    assert BelowFrom(C, 41, 64);
    assert BelowFrom(C, 40, 64);
    assert BelowFrom(C, 39, 64);
    assert BelowFrom(C, 38, 64);
    assert BelowFrom(C, 37, 64);
    assert BelowFrom(C, 36, 64);
    assert BelowFrom(C, 35, 64);
    assert BelowFrom(C, 34, 64);
    assert BelowFrom(C, 33, 64);
    assert BelowFrom(C, 32, 64);
    assert BelowFrom(C, 31, 64);
    assert BelowFrom(C, 30, 64);
    assert BelowFrom(C, 29, 64);
    assert BelowFrom(C, 28, 64);
    assert BelowFrom(C, 27, 64);
    assert BelowFrom(C, 26, 64);
    assert BelowFrom(C, 25, 64);
    assert BelowFrom(C, 24, 64);
    assert BelowFrom(C, 23, 64);
    assert BelowFrom(C, 22, 64);
    assert BelowFrom(C, 21, 64);
    assert BelowFrom(C, 20, 64);
    assert BelowFrom(C, 19, 64);
    assert BelowFrom(C, 18, 64);
    assert BelowFrom(C, 17, 64);
    assert BelowFrom(C, 16, 64);
    assert BelowFrom(C, 15, 64);
    assert BelowFrom(C, 14, 64);
    assert BelowFrom(C, 13, 64);
    assert BelowFrom(C, 12, 64);
    assert BelowFrom(C, 11, 64);
    assert BelowFrom(C, 10, 64);
    assert BelowFrom(C, 9, 64);
    assert BelowFrom(C, 8, 64);
    assert BelowFrom(C, 7, 64);
    assert BelowFrom(C, 6, 64);
    assert BelowFrom(C, 5, 64);
    assert BelowFrom(C, 4, 64);
    assert BelowFrom(C, 3, 64);
    assert BelowFrom(C, 2, 64);
    assert BelowFrom(C, 1, 64);
    assert BelowFrom(C, 0, 64);
    BelowFromAll(C, 0, 64);
  }

  /** Byte and bit of the round output addressed by entry j of P. */
  function PByte(j: nat): nat
    requires j < 32
  {
    (P[j] & 0x03) as nat
  }

  function PBit(j: nat): bv8
    requires j < 32
  {
    (1 as bv8) << ((P[j] >> 4) & 0x07)
  }

  /** The bits of output byte b addressed by the first n entries visited, from P[31] down to P[32 - n]. */
  function Covered(b: nat, n: nat): bv8
    requires n <= 32
  {
    if n == 0 then 0
    else Covered(b, n - 1) | (if PByte(32 - n) == b then PBit(32 - n) else 0)
  }

  /** Visit k (of entry P[31 - k]) addresses a bit that no earlier visit addressed. */
  ghost predicate FreshVisit(k: nat)
    requires k < 32
  {
    Covered(PByte(31 - k), k) & PBit(31 - k) == 0
  }

  /** Visit n and all later visits are fresh. */
  ghost predicate FreshFrom(n: nat)
    requires n <= 32
    decreases 32 - n
  {
    n == 32 || (FreshVisit(n) && FreshFrom(n + 1))
  }

  lemma {:induction false} FreshFromAll(n: nat)
    requires n <= 32 && FreshFrom(n)
    ensures forall k :: n <= k < 32 ==> FreshVisit(k)
    decreases 32 - n
  {
    if n < 32 {
      FreshFromAll(n + 1);
    }
  }

  /** The visits that address output byte 0 cover all of its bits, each one fresh. */
  lemma CoveredByte0()
    ensures Covered(0, 32) == 0xFF
    ensures FreshVisit(3) && FreshVisit(5) && FreshVisit(10) && FreshVisit(12) && FreshVisit(18) && FreshVisit(21) && FreshVisit(24) && FreshVisit(29)
  {
    assert Covered(0, 1) == 0x00;
    assert Covered(0, 2) == 0x00;
    assert Covered(0, 3) == 0x00;
    assert FreshVisit(3);
    assert Covered(0, 4) == 0x02;
    assert Covered(0, 5) == 0x02;
    assert FreshVisit(5);
    assert Covered(0, 6) == 0x12;
    assert Covered(0, 7) == 0x12;
    assert Covered(0, 8) == 0x12;
    assert Covered(0, 9) == 0x12;
    assert Covered(0, 10) == 0x12;
    assert FreshVisit(10);
    assert Covered(0, 11) == 0x16;
    assert Covered(0, 12) == 0x16;
    assert FreshVisit(12);
    assert Covered(0, 13) == 0x56;
    assert Covered(0, 14) == 0x56;
    assert Covered(0, 15) == 0x56;
    assert Covered(0, 16) == 0x56;
    assert Covered(0, 17) == 0x56;
    assert Covered(0, 18) == 0x56;
    assert FreshVisit(18);
    assert Covered(0, 19) == 0xD6;
    assert Covered(0, 20) == 0xD6;
    assert Covered(0, 21) == 0xD6;
    assert FreshVisit(21);
    assert Covered(0, 22) == 0xDE;
    assert Covered(0, 23) == 0xDE;
    assert Covered(0, 24) == 0xDE;
    assert FreshVisit(24);
    assert Covered(0, 25) == 0xDF;
    assert Covered(0, 26) == 0xDF;
    assert Covered(0, 27) == 0xDF;
    assert Covered(0, 28) == 0xDF;
    assert Covered(0, 29) == 0xDF;
    assert FreshVisit(29);
    assert Covered(0, 30) == 0xFF;
    assert Covered(0, 31) == 0xFF;
    assert Covered(0, 32) == 0xFF;
  }

  /** The visits that address output byte 1 cover all of its bits, each one fresh. */
  lemma CoveredByte1()
    ensures Covered(1, 32) == 0xFF
    ensures FreshVisit(1) && FreshVisit(2) && FreshVisit(7) && FreshVisit(8) && FreshVisit(13) && FreshVisit(23) && FreshVisit(26) && FreshVisit(31)
  {
    assert Covered(1, 1) == 0x00;
    assert FreshVisit(1);
    assert Covered(1, 2) == 0x80;
    assert FreshVisit(2);
    assert Covered(1, 3) == 0x82;
    assert Covered(1, 4) == 0x82;
    assert Covered(1, 5) == 0x82;
    assert Covered(1, 6) == 0x82;
    assert Covered(1, 7) == 0x82;
    assert FreshVisit(7);
    assert Covered(1, 8) == 0xC2;
    assert FreshVisit(8);
    assert Covered(1, 9) == 0xC3;
    assert Covered(1, 10) == 0xC3;
    assert Covered(1, 11) == 0xC3;
    assert Covered(1, 12) == 0xC3;
    assert Covered(1, 13) == 0xC3;
    assert FreshVisit(13);
    assert Covered(1, 14) == 0xD3;
    assert Covered(1, 15) == 0xD3;
    assert Covered(1, 16) == 0xD3;
    assert Covered(1, 17) == 0xD3;
    assert Covered(1, 18) == 0xD3;
    assert Covered(1, 19) == 0xD3;
    assert Covered(1, 20) == 0xD3;
    assert Covered(1, 21) == 0xD3;
    assert Covered(1, 22) == 0xD3;
    assert Covered(1, 23) == 0xD3;
    assert FreshVisit(23);
    assert Covered(1, 24) == 0xF3;
    assert Covered(1, 25) == 0xF3;
    assert Covered(1, 26) == 0xF3;
    assert FreshVisit(26);
    assert Covered(1, 27) == 0xF7;
    assert Covered(1, 28) == 0xF7;
    assert Covered(1, 29) == 0xF7;
    assert Covered(1, 30) == 0xF7;
    assert Covered(1, 31) == 0xF7;
    assert FreshVisit(31);
    assert Covered(1, 32) == 0xFF;
  }

  /** The visits that address output byte 2 cover all of its bits, each one fresh. */
  lemma CoveredByte2()
    ensures Covered(2, 32) == 0xFF
    ensures FreshVisit(0) && FreshVisit(4) && FreshVisit(9) && FreshVisit(14) && FreshVisit(17) && FreshVisit(22) && FreshVisit(25) && FreshVisit(30)
  {
    assert FreshVisit(0);
    assert Covered(2, 1) == 0x80;
    assert Covered(2, 2) == 0x80;
    assert Covered(2, 3) == 0x80;
    assert Covered(2, 4) == 0x80;
    assert FreshVisit(4);
    assert Covered(2, 5) == 0x88;
    assert Covered(2, 6) == 0x88;
    assert Covered(2, 7) == 0x88;
    assert Covered(2, 8) == 0x88;
    assert Covered(2, 9) == 0x88;
    assert FreshVisit(9);
    assert Covered(2, 10) == 0x89;
    assert Covered(2, 11) == 0x89;
    assert Covered(2, 12) == 0x89;
    assert Covered(2, 13) == 0x89;
    assert Covered(2, 14) == 0x89;
    assert FreshVisit(14);
    assert Covered(2, 15) == 0xC9;
    assert Covered(2, 16) == 0xC9;
    assert Covered(2, 17) == 0xC9;
    assert FreshVisit(17);
    assert Covered(2, 18) == 0xCD;
    assert Covered(2, 19) == 0xCD;
    assert Covered(2, 20) == 0xCD;
    assert Covered(2, 21) == 0xCD;
    assert Covered(2, 22) == 0xCD;
    assert FreshVisit(22);
    assert Covered(2, 23) == 0xED;
    assert Covered(2, 24) == 0xED;
    assert Covered(2, 25) == 0xED;
    assert FreshVisit(25);
    assert Covered(2, 26) == 0xFD;
    assert Covered(2, 27) == 0xFD;
    assert Covered(2, 28) == 0xFD;
    assert Covered(2, 29) == 0xFD;
    assert Covered(2, 30) == 0xFD;
    assert FreshVisit(30);
    assert Covered(2, 31) == 0xFF;
    assert Covered(2, 32) == 0xFF;
  }

  /** The visits that address output byte 3 cover all of its bits, each one fresh. */
  lemma CoveredByte3()
    ensures Covered(3, 32) == 0xFF
    ensures FreshVisit(6) && FreshVisit(11) && FreshVisit(15) && FreshVisit(16) && FreshVisit(19) && FreshVisit(20) && FreshVisit(27) && FreshVisit(28)
  {
    assert Covered(3, 1) == 0x00;
    assert Covered(3, 2) == 0x00;
    assert Covered(3, 3) == 0x00;
    assert Covered(3, 4) == 0x00;
    assert Covered(3, 5) == 0x00;
    assert Covered(3, 6) == 0x00;
    assert FreshVisit(6);
    assert Covered(3, 7) == 0x40;
    assert Covered(3, 8) == 0x40;
    assert Covered(3, 9) == 0x40;
    assert Covered(3, 10) == 0x40;
    assert Covered(3, 11) == 0x40;
    assert FreshVisit(11);
    assert Covered(3, 12) == 0x44;
    assert Covered(3, 13) == 0x44;
    assert Covered(3, 14) == 0x44;
    assert Covered(3, 15) == 0x44;
    assert FreshVisit(15);
    assert Covered(3, 16) == 0xC4;
    assert FreshVisit(16);
    assert Covered(3, 17) == 0xC5;
    assert Covered(3, 18) == 0xC5;
    assert Covered(3, 19) == 0xC5;
    assert FreshVisit(19);
    assert Covered(3, 20) == 0xE5;
    assert FreshVisit(20);
    assert Covered(3, 21) == 0xF5;
    assert Covered(3, 22) == 0xF5;
    assert Covered(3, 23) == 0xF5;
    assert Covered(3, 24) == 0xF5;
    assert Covered(3, 25) == 0xF5;
    assert Covered(3, 26) == 0xF5;
    assert Covered(3, 27) == 0xF5;
    assert FreshVisit(27);
    assert Covered(3, 28) == 0xF7;
    assert FreshVisit(28);
    assert Covered(3, 29) == 0xFF;
    assert Covered(3, 30) == 0xFF;
    assert Covered(3, 31) == 0xFF;
    assert Covered(3, 32) == 0xFF;
  }

  /** Every visit of P is fresh. */
  lemma AllVisitsFresh()
    ensures forall k :: 0 <= k < 32 ==> FreshVisit(k)
  {
    forall k | 0 <= k < 32
      ensures FreshVisit(k)
    {
      if k == 0 { CoveredByte2(); }
      else if k == 1 { CoveredByte1(); }
      else if k == 2 { CoveredByte1(); }
      else if k == 3 { CoveredByte0(); }
      else if k == 4 { CoveredByte2(); }
      else if k == 5 { CoveredByte0(); }
      else if k == 6 { CoveredByte3(); }
      else if k == 7 { CoveredByte1(); }
      else if k == 8 { CoveredByte1(); }
      else if k == 9 { CoveredByte2(); }
      else if k == 10 { CoveredByte0(); }
      else if k == 11 { CoveredByte3(); }
      else if k == 12 { CoveredByte0(); }
      else if k == 13 { CoveredByte1(); }
      else if k == 14 { CoveredByte2(); }
      else if k == 15 { CoveredByte3(); }
      else if k == 16 { CoveredByte3(); }
      else if k == 17 { CoveredByte2(); }
      else if k == 18 { CoveredByte0(); }
      else if k == 19 { CoveredByte3(); }
      else if k == 20 { CoveredByte3(); }
      else if k == 21 { CoveredByte0(); }
      else if k == 22 { CoveredByte2(); }
      else if k == 23 { CoveredByte1(); }
      else if k == 24 { CoveredByte0(); }
      else if k == 25 { CoveredByte2(); }
      else if k == 26 { CoveredByte1(); }
      else if k == 27 { CoveredByte3(); }
      else if k == 28 { CoveredByte3(); }
      else if k == 29 { CoveredByte0(); }
      else if k == 30 { CoveredByte2(); }
      else { CoveredByte1(); }
    }
  }

  /** P addresses each of the 32 (byte, bit) positions of the round output exactly once:
      after all 32 visits every bit of the 4 output bytes is covered, and no visit
      returns to a bit covered before. */
  lemma OutputPermutationIsBijective()
    ensures forall b :: 0 <= b < 4 ==> Covered(b, 32) == 0xFF
    ensures forall k :: 0 <= k < 32 ==> FreshVisit(k)
  {
    forall b | 0 <= b < 4
      ensures Covered(b, 32) == 0xFF
    {
      if b == 0 { CoveredByte0(); }
      else if b == 1 { CoveredByte1(); }
      else if b == 2 { CoveredByte2(); }
      else { CoveredByte3(); }
    }
    AllVisitsFresh();
  }
}
