/*
  The substitution and output permutation of one round of `_syster_des_f`
  (systerdes.c:162-182).  Step c (0..7) xors expanded key and control word
  byte c, looks up a 4-bit S-box entry and writes its four bits, through
  entries P[31-4c] down to P[28-4c], into the four-byte round output r: a
  bit is cleared when the S-box bit is 1 and set when it is 0.
*/
module Substitute {
  import opened Bits
  import opened SysterTables

  /** The block base 0x20 * (8 - c) & 0xFF of step c (systerdes.c:171).  The masking of
      the wider C product to its low byte is the wrap-around of 8-bit multiplication; for
      c = 0 the product 256 wraps to 0. */
  function BlockBase(c: bv8): bv8
  {
    0x20 * (8 - c)
  }

  /** The S-box address of step c: x >> 1 | (0x20 * (8 - c) & 0xFF) (systerdes.c:171). */
  function SboxIndex(x: bv8, c: nat): (idx: nat)
    requires x < 64 && c < 8
    ensures idx < 256
  {
    ((x >> 1) | BlockBase(c as bv8)) as nat
  }

  /** Step c's base is 32 times (8 - c) % 8, so step 0 reads block 0. */
  lemma BlockBaseValue(c: nat)
    requires c < 8
    ensures BlockBase(c as bv8) & 0x1F == 0
    ensures BlockBase(c as bv8) as nat == 32 * ((8 - c) % 8)
  {
    if c == 0 {} else if c == 1 {} else if c == 2 {} else if c == 3 {}
    else if c == 4 {} else if c == 5 {} else if c == 6 {} else {}
  }

  /** A row below 32 or-ed into a base whose low five bits are clear is their sum. */
  lemma OrIsSum(y: bv8, base: bv8)
    requires y < 32 && base & 0x1F == 0
    ensures (y | base) as nat == base as nat + y as nat
  {
  }

  /** Step c reads the 32-byte block (8 - c) % 8 of S, at row x >> 1 < 32. */
  lemma SboxBlock(x: bv8, c: nat)
    requires x < 64 && c < 8
    ensures SboxIndex(x, c) == 32 * ((8 - c) % 8) + (x >> 1) as nat
  {
    BlockBaseValue(c);
    OrIsSum(x >> 1, BlockBase(c as bv8));
  }

  /** The S-box byte used by step c, with the selected nibble in the top four bits:
      an odd x moves the low nibble up (systerdes.c:172). */
  function SboxByte(x: bv8, c: nat): (sb: bv8)
    requires x < 64 && c < 8
    ensures Bit(sb, 7) == Bit(S[SboxIndex(x, c)], if x & 1 == 1 then 3 else 7)
    ensures Bit(sb, 6) == Bit(S[SboxIndex(x, c)], if x & 1 == 1 then 2 else 6)
    ensures Bit(sb, 5) == Bit(S[SboxIndex(x, c)], if x & 1 == 1 then 1 else 5)
    ensures Bit(sb, 4) == Bit(S[SboxIndex(x, c)], if x & 1 == 1 then 0 else 4)
  {
    var sb := S[SboxIndex(x, c)];
    if x & 1 == 1 then (sb << 4) & 0xF0 else sb
  }

  /** The six-bit S-box input of step c (systerdes.c:168). */
  function Input(ek: seq<bv8>, ecw: seq<bv8>, c: nat): (x: bv8)
    requires |ek| == 8 && |ecw| == 8 && c < 8
    ensures x < 64
  {
    (ek[c] ^ ecw[c]) & 0x3F
  }

  /** The S-box bit of visit k = 4c + l: bit 7-l of step c's S-box byte. */
  predicate VisitBit(ek: seq<bv8>, ecw: seq<bv8>, k: nat)
    requires |ek| == 8 && |ecw| == 8 && k < 32
  {
    Bit(SboxByte(Input(ek, ecw, k / 4), k / 4), 7 - k % 4)
  }

  /** The 32 S-box bits of a round, in visiting order. */
  function VisitBits(ek: seq<bv8>, ecw: seq<bv8>): (s: seq<bool>)
    requires |ek| == 8 && |ecw| == 8
    ensures |s| == 32 && forall k :: 0 <= k < 32 ==> s[k] == VisitBit(ek, ecw, k)
  {
    seq(32, k requires 0 <= k < 32 => VisitBit(ek, ecw, k))
  }

  /** The bits of round-output byte b written by the first n visits, given the S-box bits. */
  function Written(sbits: seq<bool>, b: nat, n: nat): bv8
    requires |sbits| == 32 && n <= 32
  {
    if n == 0 then 0
    else
      var v := Written(sbits, b, n - 1);
      var j := 32 - n;
      if PByte(j) != b then v
      else if sbits[n - 1] then v & (PBit(j) ^ 0xFF)
      else v | PBit(j)
  }

  /** The round output of expanded key ek and expanded control word ecw. */
  function RoundOutput(ek: seq<bv8>, ecw: seq<bv8>): (r: seq<bv8>)
    requires |ek| == 8 && |ecw| == 8
    ensures |r| == 4 && forall b :: 0 <= b < 4 ==> r[b] == Written(VisitBits(ek, ecw), b, 32)
  {
    var sbits := VisitBits(ek, ecw);
    seq(4, b requires 0 <= b < 4 => Written(sbits, b, 32))
  }

  /** The value of byte b of r after n visits, from its value r0 before them. */
  function Partial(r0: bv8, sbits: seq<bool>, b: nat, n: nat): bv8
    requires |sbits| == 32 && n <= 32
  {
    (r0 & (Covered(b, n) ^ 0xFF)) | Written(sbits, b, n)
  }

  /** How one visit extends the covered bits ... */
  lemma CoveredStep(b: nat, n: nat)
    requires n < 32
    ensures Covered(b, n + 1) == Covered(b, n) | (if PByte(31 - n) == b then PBit(31 - n) else 0)
  {
  }

  /** ... and the written bits. */
  lemma WrittenStep(sbits: seq<bool>, b: nat, n: nat)
    requires |sbits| == 32 && n < 32
    ensures PByte(31 - n) != b ==> Written(sbits, b, n + 1) == Written(sbits, b, n)
    ensures PByte(31 - n) == b && sbits[n] ==> Written(sbits, b, n + 1) == Written(sbits, b, n) & (PBit(31 - n) ^ 0xFF)
    ensures PByte(31 - n) == b && !sbits[n] ==> Written(sbits, b, n + 1) == Written(sbits, b, n) | PBit(31 - n)
  {
  }

  /** Visit n leaves every byte other than PByte(31-n) as it is ... */
  lemma PartialSkip(r0: bv8, sbits: seq<bool>, b: nat, n: nat)
    requires |sbits| == 32 && n < 32 && PByte(31 - n) != b
    ensures Partial(r0, sbits, b, n + 1) == Partial(r0, sbits, b, n)
  {
    CoveredStep(b, n);
    WrittenStep(sbits, b, n);
  }

  /** ... clears bit PBit(31-n) of byte PByte(31-n) when its S-box bit is 1 ... */
  lemma PartialClear(r0: bv8, sbits: seq<bool>, b: nat, n: nat)
    requires |sbits| == 32 && n < 32 && PByte(31 - n) == b && sbits[n]
    ensures Partial(r0, sbits, b, n + 1) == Partial(r0, sbits, b, n) & (PBit(31 - n) ^ 0xFF)
  {
    CoveredStep(b, n);
    WrittenStep(sbits, b, n);
    ClearIdentity(r0, Covered(b, n), Written(sbits, b, n), PBit(31 - n));
  }

  /** ... and sets it when the S-box bit is 0. */
  lemma PartialSet(r0: bv8, sbits: seq<bool>, b: nat, n: nat)
    requires |sbits| == 32 && n < 32 && PByte(31 - n) == b && !sbits[n]
    ensures Partial(r0, sbits, b, n + 1) == Partial(r0, sbits, b, n) | PBit(31 - n)
  {
    CoveredStep(b, n);
    WrittenStep(sbits, b, n);
    SetIdentity(r0, Covered(b, n), Written(sbits, b, n), PBit(31 - n));
  }

  /** Clearing bit m of r0 & ~cov | w gives r0 & ~(cov | m) | (w & ~m), whatever r0 holds. */
  lemma ClearIdentity(r0: bv8, cov: bv8, w: bv8, m: bv8)
    ensures ((r0 & (cov ^ 0xFF)) | w) & (m ^ 0xFF) == (r0 & ((cov | m) ^ 0xFF)) | (w & (m ^ 0xFF))
  {
  }

  /** Setting bit m of r0 & ~cov | w gives r0 & ~(cov | m) | (w | m), whatever r0 holds. */
  lemma SetIdentity(r0: bv8, cov: bv8, w: bv8, m: bv8)
    ensures ((r0 & (cov ^ 0xFF)) | w) | m == (r0 & ((cov | m) ^ 0xFF)) | (w | m)
  {
  }

  /** Once all 32 visits are done the old contents of r are gone. */
  lemma PartialComplete(r0: bv8, sbits: seq<bool>, b: nat)
    requires |sbits| == 32 && b < 4
    ensures Partial(r0, sbits, b, 32) == Written(sbits, b, 32)
  {
    OutputPermutationIsBijective();
  }

  /** A visited bit keeps the value its visit wrote: no later visit touches it. */
  lemma {:induction false} WrittenKeeps(sbits: seq<bool>, k: nat, n: nat)
    requires |sbits| == 32 && k < n <= 32
    requires forall k' :: 0 <= k' < 32 ==> FreshVisit(k')
    ensures Covered(PByte(31 - k), n) & PBit(31 - k) == PBit(31 - k)
    ensures (Written(sbits, PByte(31 - k), n) & PBit(31 - k) != 0) == !sbits[k]
  {
    if n == k + 1 {
      VisitWrites(sbits, k);
    } else {
      WrittenKeeps(sbits, k, n - 1);
      LaterVisitKeeps(sbits, k, n - 1);
    }
  }

  /** Visit k covers its bit and writes it. */
  lemma VisitWrites(sbits: seq<bool>, k: nat)
    requires |sbits| == 32 && k < 32
    ensures Covered(PByte(31 - k), k + 1) & PBit(31 - k) == PBit(31 - k)
    ensures (Written(sbits, PByte(31 - k), k + 1) & PBit(31 - k) != 0) == !sbits[k]
  {
    var b := PByte(31 - k);
    CoveredStep(b, k);
    WrittenStep(sbits, b, k);
    PBitNonZero(31 - k);
    VisitedBit(Written(sbits, b, k), PBit(31 - k));
  }

  /** A later fresh visit m keeps visit k's bit covered and as written. */
  lemma LaterVisitKeeps(sbits: seq<bool>, k: nat, m: nat)
    requires |sbits| == 32 && k < m < 32 && FreshVisit(m)
    requires Covered(PByte(31 - k), m) & PBit(31 - k) == PBit(31 - k)
    ensures Covered(PByte(31 - k), m + 1) & PBit(31 - k) == PBit(31 - k)
    ensures Written(sbits, PByte(31 - k), m + 1) & PBit(31 - k) == Written(sbits, PByte(31 - k), m) & PBit(31 - k)
  {
    var b := PByte(31 - k);
    CoveredStep(b, m);
    WrittenStep(sbits, b, m);
    if PByte(31 - m) == b {
      OtherBitKept(Written(sbits, b, m), Covered(b, m), PBit(31 - m), PBit(31 - k));
    }
  }

  /** An entry of P addresses exactly one bit. */
  lemma PBitNonZero(j: nat)
    requires j < 32
    ensures PBit(j) != 0
  {
    var s := (P[j] >> 4) & 0x07;
    if s == 0 {} else if s == 1 {} else if s == 2 {} else if s == 3 {}
    else if s == 4 {} else if s == 5 {} else if s == 6 {} else {}
  }

  /** Clearing or setting a non-zero mask decides whether it is set afterwards. */
  lemma VisitedBit(v: bv8, m: bv8)
    requires m != 0
    ensures (v & (m ^ 0xFF)) & m == 0 && (v | m) & m == m && m != 0
  {
  }

  /** Clearing or setting a bit m outside the covered bits leaves a covered bit mk as it was. */
  lemma OtherBitKept(v: bv8, cov: bv8, m: bv8, mk: bv8)
    requires cov & mk == mk && cov & m == 0
    ensures (v & (m ^ 0xFF)) & mk == v & mk && (v | m) & mk == v & mk
    ensures (cov | m) & mk == mk
  {
  }

  /** The round output sets the bit at P[31-k] exactly when the S-box bit of visit k is clear. */
  lemma RoundOutputBits(ek: seq<bv8>, ecw: seq<bv8>, k: nat)
    requires |ek| == 8 && |ecw| == 8 && k < 32
    ensures PByte(31 - k) < 4
    ensures (RoundOutput(ek, ecw)[PByte(31 - k)] & PBit(31 - k) != 0) == !VisitBit(ek, ecw, k)
  {
    OutputPermutationIsBijective();
    WrittenKeeps(VisitBits(ek, ecw), k, 32);
  }

  /** All four bytes of r after n visits. */
  ghost function PartialAll(r0: seq<bv8>, sbits: seq<bool>, n: nat): (r: seq<bv8>)
    requires |r0| == 4 && |sbits| == 32 && n <= 32
    ensures |r| == 4 && forall b :: 0 <= b < 4 ==> r[b] == Partial(r0[b], sbits, b, n)
  {
    seq(4, b requires 0 <= b < 4 => Partial(r0[b], sbits, b, n))
  }

  /** Visit n with S-box bit 1 clears one bit of byte PByte(31-n) ... */
  lemma PartialAllClear(r0: seq<bv8>, sbits: seq<bool>, n: nat, cur: seq<bv8>, b: nat, m: bv8)
    requires |r0| == 4 && |sbits| == 32 && n < 32 && sbits[n]
    requires cur == PartialAll(r0, sbits, n) && b == PByte(31 - n) && m == PBit(31 - n)
    ensures b < 4 && PartialAll(r0, sbits, n + 1) == cur[b := cur[b] & (m ^ 0xFF)]
  {
    var next := PartialAll(r0, sbits, n + 1);
    var want := cur[b := cur[b] & (m ^ 0xFF)];
    forall b' | 0 <= b' < 4
      ensures next[b'] == want[b']
    {
      if b' == b {
        PartialClear(r0[b'], sbits, b', n);
      } else {
        PartialSkip(r0[b'], sbits, b', n);
      }
    }
  }

  /** ... and with S-box bit 0 sets it. */
  lemma PartialAllSet(r0: seq<bv8>, sbits: seq<bool>, n: nat, cur: seq<bv8>, b: nat, m: bv8)
    requires |r0| == 4 && |sbits| == 32 && n < 32 && !sbits[n]
    requires cur == PartialAll(r0, sbits, n) && b == PByte(31 - n) && m == PBit(31 - n)
    ensures b < 4 && PartialAll(r0, sbits, n + 1) == cur[b := cur[b] | m]
  {
    var next := PartialAll(r0, sbits, n + 1);
    var want := cur[b := cur[b] | m];
    forall b' | 0 <= b' < 4
      ensures next[b'] == want[b']
    {
      if b' == b {
        PartialSet(r0[b'], sbits, b', n);
      } else {
        PartialSkip(r0[b'], sbits, b', n);
      }
    }
  }

  /** The four S-box bits of step c are the top four bits of its S-box byte. */
  lemma StepBits(ek: seq<bv8>, ecw: seq<bv8>, c: nat, sb: bv8)
    requires |ek| == 8 && |ecw| == 8 && c < 8 && sb == SboxByte(Input(ek, ecw, c), c)
    ensures forall n :: 4 * c <= n < 4 * c + 4 ==> VisitBits(ek, ecw)[n] == Bit(sb, 7 - (n - 4 * c))
  {
    forall n | 4 * c <= n < 4 * c + 4
      ensures VisitBits(ek, ecw)[n] == Bit(sb, 7 - (n - 4 * c))
    {
      assert n / 4 == c && n % 4 == n - 4 * c;
    }
  }

  lemma TopBit(s: bv8)
    ensures Bit(s, 7) == (s & 0x80 != 0)
  {
  }

  /** Visit n (systerdes.c:176-180): the top bit s of the shifted S-box byte clears
      (when 1) or sets (when 0) the bit mask m of output byte b named by P[31 - n]. */
  method Visit(r: array<bv8>, s: bv8, j: nat, ghost r0: seq<bv8>, ghost sbits: seq<bool>, ghost n: nat)
    requires r.Length == 4 && |r0| == 4 && |sbits| == 32 && n < 32 && j == 31 - n
    requires sbits[n] == Bit(s, 7) && r[..] == PartialAll(r0, sbits, n)
    modifies r
    ensures r[..] == PartialAll(r0, sbits, n + 1)
  {
    var b := PByte(j);
    var m := PBit(j);
    TopBit(s);
    ghost var cur := r[..];
    if s & 0x80 != 0 {
      PartialAllClear(r0, sbits, n, cur, b, m);
      r[b] := r[b] & (m ^ 0xFF);
      assert r[..] == cur[b := cur[b] & (m ^ 0xFF)];
    } else {
      PartialAllSet(r0, sbits, n, cur, b, m);
      r[b] := r[b] | m;
      assert r[..] == cur[b := cur[b] | m];
    }
  }

  /** Steps 4c .. 4c+3 of the permutation loop (systerdes.c:175-181): the four top bits
      of sb, most significant first, through P[j] down to P[j-3]. */
  method WriteNibble(r: array<bv8>, sb: bv8, c: nat, j: int, ghost r0: seq<bv8>, ghost sbits: seq<bool>)
    returns (j': int)
    requires r.Length == 4 && |r0| == 4 && |sbits| == 32 && c < 8 && j == 31 - 4 * c
    requires forall n :: 4 * c <= n < 4 * c + 4 ==> sbits[n] == Bit(sb, 7 - (n - 4 * c))
    requires r[..] == PartialAll(r0, sbits, 4 * c)
    modifies r
    ensures j' == j - 4 && r[..] == PartialAll(r0, sbits, 4 * c + 4)
  {
    var s := sb;
    j' := j;
    var l := 0;
    while l < 4
      invariant 0 <= l <= 4 && j' == 31 - 4 * c - l
      invariant s == Shl(sb, l)
      invariant r[..] == PartialAll(r0, sbits, 4 * c + l)
    {
      BitOfShl(sb, l, 7);
      assert sbits[4 * c + l] == Bit(s, 7);
      Visit(r, s, j', r0, sbits, 4 * c + l);
      s := s << 1;
      l := l + 1;
      j' := j' - 1;
    }
  }

  /** The S-box selection of systerdes.c:171-172. */
  method SelectSbox(x: bv8, c: nat) returns (sb: bv8)
    requires x < 64 && c < 8
    ensures sb == SboxByte(x, c)
  {
    sb := S[((x >> 1) | (0x20 * (8 - c as bv8))) as nat];
    if x & 1 == 1 {
      sb := (sb << 4) & 0xF0;
    }
  }

  /** The S-box and permutation steps of systerdes.c:162-182, writing r.  Whatever r held
      before (it is uninitialised in the source), it ends up as the round output. */
  method Substitute(ek: seq<bv8>, ecw: seq<bv8>, r: array<bv8>)
    requires |ek| == 8 && |ecw| == 8 && r.Length == 4
    modifies r
    ensures r[..] == RoundOutput(ek, ecw)
  {
    ghost var r0 := r[..];
    ghost var sbits := VisitBits(ek, ecw);
    var j := 31;
    var c := 0;
    while c < 8
      invariant 0 <= c <= 8 && j == 31 - 4 * c
      invariant r[..] == PartialAll(r0, sbits, 4 * c)
    {
      var x := (ek[c] ^ ecw[c]) & 0x3F;
      assert x == Input(ek, ecw, c);
      var sb := SelectSbox(x, c);
      StepBits(ek, ecw, c, sb);
      j := WriteNibble(r, sb, c, j, r0, sbits);
      c := c + 1;
    }
    forall b | 0 <= b < 4 {
      PartialComplete(r0[b], sbits, b);
    }
  }
}
