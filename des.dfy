/*
  `_syster_des_f` (systerdes.c:141-195) and `_get_syster_cw` (systerdes.c:197-247).

  A round expands the key with C and the control word with E, runs the S-box and
  output permutation steps into r, and then swaps the halves: the new right half
  is the old left half and the new left half is r xor the old right half.  After
  round i the key is rotated LS[i] steps.  `_get_syster_cw` runs the rounds on
  each 8-byte half of a 16-byte ECM with the same 56-bit key, and repacks the
  decoded halves into an 8-byte control word.
*/
module SysterDes {
  import opened Bits
  import opened SysterTables
  import opened Permute
  import opened Expand
  import opened KeyRotate
  import opened Substitute

  /** The round function: expanded key and expanded control word through the S-boxes
      and P (systerdes.c:155-182).  It reads all of the key and the control word. */
  ghost function F(k: seq<bv8>, cw: seq<bv8>): (r: seq<bv8>)
    requires |k| == 8 && |cw| == 8
    ensures |r| == 4
  {
    TablesAreExpansionTables();
    RoundOutput(ExpandSpec(C, k), ExpandSpec(E, cw))
  }

  /** The control word only enters the round function through its left half. */
  lemma FReadsLeftHalf(k: seq<bv8>, a: seq<bv8>, b: seq<bv8>)
    requires |k| == 8 && |a| == 8 && |b| == 8 && a[..4] == b[..4]
    ensures F(k, a) == F(k, b)
  {
    ExpandEReadsLeftHalf(a, b);
  }

  /** The swap of systerdes.c:185-190: r xor the right half, then the left half. */
  function Feistel(f: seq<bv8>, cw: seq<bv8>): (n: seq<bv8>)
    requires |f| == 4 && |cw| == 8
    ensures |n| == 8
  {
    seq(8, m requires 0 <= m < 8 => if m < 4 then f[m] ^ cw[m + 4] else cw[m - 4])
  }

  /** One round on a key and a control word. */
  ghost function Round(k: seq<bv8>, cw: seq<bv8>): (n: seq<bv8>)
    requires |k| == 8 && |cw| == 8
    ensures |n| == 8
  {
    Feistel(F(k, cw), cw)
  }

  /** The key used by round i (0-based): rotated after each earlier round. */
  ghost function KeyAt(k: seq<bv8>, i: nat): (r: seq<bv8>)
    requires |k| == 8 && i <= 16
    ensures |r| == 8
  {
    if i == 0 then k else RotateKey(KeyAt(k, i - 1), LS[i - 1])
  }

  /** The control word after the first i rounds. */
  ghost function CwAt(k: seq<bv8>, cw: seq<bv8>, i: nat): (r: seq<bv8>)
    requires |k| == 8 && |cw| == 8 && i <= 16
    ensures |r| == 8
  {
    if i == 0 then cw else Round(KeyAt(k, i - 1), CwAt(k, cw, i - 1))
  }

  /** Each round is a Feistel swap: the new right half is the old left half, and the new
      left half is the round function output xor the old right half. */
  lemma FeistelSwap(k: seq<bv8>, cw: seq<bv8>, i: nat)
    requires |k| == 8 && |cw| == 8 && i < 16
    ensures CwAt(k, cw, i + 1)[4..] == CwAt(k, cw, i)[..4]
    ensures forall l :: 0 <= l < 4 ==>
      CwAt(k, cw, i + 1)[l] == F(KeyAt(k, i), CwAt(k, cw, i))[l] ^ CwAt(k, cw, i)[l + 4]
  {
  }

  /** Undoing a round: the old left half is the new right half, so the round function
      can be recomputed from it and xor-ed out of the new left half. */
  ghost function Unround(k: seq<bv8>, n: seq<bv8>): (cw: seq<bv8>)
    requires |k| == 8 && |n| == 8
    ensures |cw| == 8
  {
    var f := F(k, n[4..] + n[4..]);
    seq(8, m requires 0 <= m < 8 => if m < 4 then n[m + 4] else n[m - 4] ^ f[m - 4])
  }

  /** A round can always be undone, so a round is a bijection on control words. */
  lemma RoundInverse(k: seq<bv8>, cw: seq<bv8>)
    requires |k| == 8 && |cw| == 8
    ensures Unround(k, Round(k, cw)) == cw
  {
    var n := Round(k, cw);
    var left := n[4..];
    assert left == cw[..4];
    FReadsLeftHalf(k, cw, left + left);
    var u := Unround(k, n);
    assert u[..4] == cw[..4];
    assert u[4..] == cw[4..];
    assert cw == cw[..4] + cw[4..];
  }

  /** Undoing the last n rounds, last round first. */
  ghost function Undo(k: seq<bv8>, c: seq<bv8>, n: nat): (cw: seq<bv8>)
    requires |k| == 8 && |c| == 8 && n <= 16
    ensures |cw| == 8
    decreases n
  {
    if n == 0 then c else Undo(k, Unround(KeyAt(k, n - 1), c), n - 1)
  }

  /** The sixteen rounds are invertible: undoing them in reverse order with the same key
      schedule gives back the control word. */
  lemma {:induction false} DesInverse(k: seq<bv8>, cw: seq<bv8>, n: nat)
    requires |k| == 8 && |cw| == 8 && n <= 16
    ensures Undo(k, CwAt(k, cw, n), n) == cw
  {
    if n > 0 {
      RoundInverse(KeyAt(k, n - 1), CwAt(k, cw, n - 1));
      DesInverse(k, cw, n - 1);
    }
  }

  /** Total number of key rotation steps taken before round i. */
  function Shifts(i: nat): (s: nat)
    requires i <= 16
  {
    if i == 0 then 0 else Shifts(i - 1) + LS[i - 1]
  }

  /** Rotation steps compose. */
  lemma {:induction false} StepsCompose(w: bv32, a: nat, b: nat)
    ensures RotateSteps(RotateSteps(w, a), b) == RotateSteps(w, a + b)
    decreases a
  {
    if a > 0 {
      StepsCompose(RotateStep(w), a - 1, b);
    }
  }

  /** Rotating a key by a and then by b steps rotates it by a + b steps. */
  lemma RotateKeyCompose(k: seq<bv8>, a: nat, b: nat)
    requires |k| == 8
    ensures RotateKey(RotateKey(k, a), b) == RotateKey(k, a + b)
  {
    var r := RotateKey(k, a);
    Le32Bytes32(RotateSteps(Le32(k[..4]), a), r[..4]);
    Le32Bytes32(RotateSteps(Le32(k[4..]), a), r[4..]);
    assert r[..4] == Bytes32(RotateSteps(Le32(k[..4]), a));
    assert r[4..] == Bytes32(RotateSteps(Le32(k[4..]), a));
    StepsCompose(Le32(k[..4]), a, b);
    StepsCompose(Le32(k[4..]), a, b);
  }

  /** The key schedule in closed form: before round i each half has been rotated
      Shifts(i) steps, independently of the other half. */
  lemma {:induction false} KeySchedule(k: seq<bv8>, i: nat)
    requires |k| == 8 && i <= 16
    ensures KeyAt(k, i) == RotateKey(k, Shifts(i))
  {
    if i == 0 {
      RotateNone(k);
    } else {
      KeySchedule(k, i - 1);
      RotateKeyCompose(k, Shifts(i - 1), LS[i - 1]);
    }
  }

  /** The two key halves evolve independently: each round key half depends only on the
      same half of the initial key. */
  lemma KeyHalvesIndependent(a: seq<bv8>, b: seq<bv8>, i: nat)
    requires |a| == 8 && |b| == 8 && i <= 16
    ensures a[..4] == b[..4] ==> KeyAt(a, i)[..4] == KeyAt(b, i)[..4]
    ensures a[4..] == b[4..] ==> KeyAt(a, i)[4..] == KeyAt(b, i)[4..]
  {
    KeySchedule(a, i);
    KeySchedule(b, i);
  }

  /** After the sixteen rounds the key has been rotated 27 steps (LS sums to 27). */
  lemma FinalKey(k: seq<bv8>)
    requires |k| == 8
    ensures KeyAt(k, 16) == RotateKey(k, 27)
  {
    KeySchedule(k, 16);
    ShiftsTotal();
  }

  /** The rotation amounts LS add up to 27. */
  lemma ShiftsTotal()
    ensures Shifts(16) == 27
  {
    assert Shifts(4) == 7;
    assert Shifts(8) == 14;
    assert Shifts(12) == 22;
  }

  /** The swap loop of systerdes.c:185-190. */
  method SwapHalves(r: array<bv8>, cw: array<bv8>)
    requires r.Length == 4 && cw.Length == 8 && r != cw
    modifies r, cw
    ensures cw[..] == Feistel(old(r[..]), old(cw[..]))
  {
    ghost var f := r[..];
    ghost var c := cw[..];
    var l := 0;
    while l < 4
      invariant 0 <= l <= 4
      invariant forall m :: 0 <= m < l ==> cw[m] == f[m] ^ c[m + 4]
      invariant forall m :: 4 <= m < l + 4 ==> cw[m] == c[m - 4]
      invariant forall m :: l <= m < 4 ==> cw[m] == c[m] && r[m] == f[m]
      invariant forall m :: l + 4 <= m < 8 ==> cw[m] == c[m]
    {
      r[l + 0] := r[l + 0] ^ cw[l + 4];
      cw[l + 4] := cw[l + 0];
      cw[l + 0] := r[l + 0];
      l := l + 1;
    }
    assert cw[..] == Feistel(f, c);
  }

  /** The body of the round loop of systerdes.c:148-194, round i. */
  method DesRound(i: nat, k: array<bv8>, cw: array<bv8>, ek: array<bv8>, ecw: array<bv8>, r: array<bv8>)
    requires i < 16 && k.Length == 8 && cw.Length == 8 && ek.Length == 8 && ecw.Length == 8 && r.Length == 4
    requires k != cw && ek != ecw && ek != k && ek != cw && ecw != k && ecw != cw
    modifies k, cw, ek, ecw, r
    ensures cw[..] == Round(old(k[..]), old(cw[..]))
    ensures k[..] == RotateKey(old(k[..]), LS[i])
  {
    TablesAreExpansionTables();
    Expand.Expand(C, k[..], ek);
    Expand.Expand(E, cw[..], ecw);
    Substitute.Substitute(ek[..], ecw[..], r);
    assert r[..] == F(k[..], cw[..]);
    SwapHalves(r, cw);
    KeyRotate.KeyRotate(i, k);
  }

  /** `_syster_des_f(k, cw)`: sixteen rounds; the key ends rotated by the whole schedule.
      The work buffer r starts with whatever it holds; the round output does not
      depend on it. */
  method DesF(k: array<bv8>, cw: array<bv8>)
    requires k.Length == 8 && cw.Length == 8 && k != cw
    modifies k, cw
    ensures cw[..] == CwAt(old(k[..]), old(cw[..]), 16)
    ensures k[..] == KeyAt(old(k[..]), 16)
  {
    ghost var k0 := k[..];
    ghost var cw0 := cw[..];
    var ecw := new bv8[8];
    var ek := new bv8[8];
    var r := new bv8[4];
    var i := 0;
    while i < 16
      invariant 0 <= i <= 16
      invariant k[..] == KeyAt(k0, i) && cw[..] == CwAt(k0, cw0, i)
    {
      DesRound(i, k, cw, ek, ecw, r);
      i := i + 1;
    }
  }

  /** The 56-bit key: k64 through kp, with byte 0 replaced by byte 4 shifted up a nibble
      (systerdes.c:211-212). */
  ghost function Key56(k64: seq<bv8>): (k: seq<bv8>)
    requires |k64| == 8
    ensures |k| == 8
  {
    PermutationTables();
    var p := PermuteSpec(k64, KP);
    p[0 := p[4] << 4]
  }

  /** Decoding of ECM half `half` (0 or 1): ip, the rounds, fp; what buffer2 holds. */
  ghost function DecodedHalf(ecm: seq<bv8>, k64: seq<bv8>, half: nat): (b: seq<bv8>)
    requires |ecm| == 16 && |k64| == 8 && half < 2
    ensures |b| == 8
  {
    PermutationTables();
    var pcw := PermuteSpec(ecm[half * 8..half * 8 + 8], IP);
    PermuteSpec(CwAt(Key56(k64), pcw, 16), FP)
  }

  /** The date of a decoded half: little-endian bytes 0..1, or bytes 2..3 when the
      first is 0xFFFF (systerdes.c:225-229). */
  function DateOf(b: seq<bv8>): bv16
    requires |b| == 8
  {
    var d := Le16(b[0], b[1]);
    if d == 0xFFFF then Le16(b[2], b[3]) else d
  }

  /** Byte m of the final repacking of systerdes.c:236-243. */
  function RepackByte(b: seq<bv8>, m: nat): bv8
    requires |b| == 8 && m < 8
  {
    if m < 3 then b[m + 4]
    else if m == 3 then b[7] & 0x7F
    else if m == 4 then (b[0] << 1) | ((b[7] >> 7) & 1)
    else if m < 7 then (b[m - 4] << 1) | ((b[m - 5] >> 7) & 1)
    else ((b[3] << 1) & 0x1F) | ((b[2] >> 7) & 1)
  }

  /** The final repacking of systerdes.c:236-243. */
  function Repack(b: seq<bv8>): (cw: seq<bv8>)
    requires |b| == 8
    ensures |cw| == 8 && cw[3] < 0x80 && cw[7] < 0x20
  {
    seq(8, m requires 0 <= m < 8 => RepackByte(b, m))
  }

  /** Byte m of the decoded buffer, read back out of a control word. */
  function UnpackByte(cw: seq<bv8>, m: nat): bv8
    requires |cw| == 8 && m < 8
  {
    if m < 3 then (cw[m + 4] >> 1) | ((cw[m + 5] & 1) << 7)
    else if m == 3 then cw[7] >> 1
    else if m < 7 then cw[m - 4]
    else (cw[3] & 0x7F) | ((cw[4] & 1) << 7)
  }

  /** Reading the decoded buffer back out of a control word. */
  function Unpack(cw: seq<bv8>): (b: seq<bv8>)
    requires |cw| == 8
    ensures |b| == 8
  {
    seq(8, m requires 0 <= m < 8 => UnpackByte(cw, m))
  }

  lemma UnpackRepackByte(b: seq<bv8>, m: nat)
    requires |b| == 8 && m < 8
    ensures UnpackByte(Repack(b), m) == if m == 3 then b[3] & 0x0F else b[m]
  {
    var r := Repack(b);
    if m < 3 {
      assert r[m + 4] == RepackByte(b, m + 4) && r[m + 5] == RepackByte(b, m + 5);
    } else if m == 3 {
      assert r[7] == RepackByte(b, 7);
    } else if m < 7 {
      assert r[m - 4] == RepackByte(b, m - 4);
    } else {
      assert r[3] == RepackByte(b, 3) && r[4] == RepackByte(b, 4);
    }
  }

  /** Repacking loses exactly the top nibble of byte 3: every other bit of the
      decoded buffer can be read back. */
  lemma UnpackRepack(b: seq<bv8>)
    requires |b| == 8
    ensures Unpack(Repack(b)) == b[3 := b[3] & 0x0F]
  {
    forall m | 0 <= m < 8
      ensures Unpack(Repack(b))[m] == b[3 := b[3] & 0x0F][m]
    {
      UnpackRepackByte(b, m);
    }
  }

  lemma RepackUnpackByte(cw: seq<bv8>, m: nat)
    requires |cw| == 8 && cw[3] < 0x80 && cw[7] < 0x20 && m < 8
    ensures RepackByte(Unpack(cw), m) == cw[m]
  {
    var u := Unpack(cw);
    if m < 3 {
      assert u[m + 4] == UnpackByte(cw, m + 4);
    } else if m == 3 {
      assert u[7] == UnpackByte(cw, 7);
    } else if m == 4 {
      assert u[0] == UnpackByte(cw, 0) && u[7] == UnpackByte(cw, 7);
    } else if m < 7 {
      assert u[m - 4] == UnpackByte(cw, m - 4) && u[m - 5] == UnpackByte(cw, m - 5);
    } else {
      assert u[3] == UnpackByte(cw, 3) && u[2] == UnpackByte(cw, 2);
    }
  }

  /** Conversely every control word with byte 3 below 0x80 and byte 7 below 0x20 is the
      repacking of some buffer; with UnpackRepack, the masks of Repack's ensures are
      exactly its image. */
  lemma RepackUnpack(cw: seq<bv8>)
    requires |cw| == 8 && cw[3] < 0x80 && cw[7] < 0x20
    ensures Repack(Unpack(cw)) == cw
  {
    forall m | 0 <= m < 8
      ensures Repack(Unpack(cw))[m] == cw[m]
    {
      RepackUnpackByte(cw, m);
    }
  }

  /** The control word `_get_syster_cw` produces: bytes 0..3 of the first decoded half
      and bytes 4..7 of the second, repacked. */
  ghost function SysterCw(ecm: seq<bv8>, k64: seq<bv8>): (cw: seq<bv8>)
    requires |ecm| == 16 && |k64| == 8
    ensures |cw| == 8
  {
    Repack(DecodedHalf(ecm, k64, 0)[..4] + DecodedHalf(ecm, k64, 1)[4..])
  }

  /** One half of the loop of systerdes.c:205-233. */
  method DecodeHalf(ecm: seq<bv8>, k64: seq<bv8>, half: nat, buffer2: array<bv8>)
    requires |ecm| == 16 && |k64| == 8 && half < 2 && buffer2.Length == 8
    modifies buffer2
    ensures buffer2[..] == DecodedHalf(ecm, k64, half)
  {
    PermutationTables();
    var k56 := MakeKey56(k64);
    var pcw := InitialBlock(ecm, half);
    DesF(k56, pcw);
    Permute.Permute(pcw[..], buffer2, FP);
  }

  /** The initial permutation of ECM half `half` into a new buffer (systerdes.c:215). */
  method InitialBlock(ecm: seq<bv8>, half: nat) returns (pcw: array<bv8>)
    requires |ecm| == 16 && half < 2
    ensures fresh(pcw) && pcw.Length == 8
    ensures IsPermutation(IP) && pcw[..] == PermuteSpec(ecm[half * 8..half * 8 + 8], IP)
  {
    PermutationTables();
    pcw := new bv8[8];
    Permute.Permute(ecm[half * 8..half * 8 + 8], pcw, IP);
  }

  /** The 56-bit key of systerdes.c:211-212 in a new buffer. */
  method MakeKey56(k64: seq<bv8>) returns (k56: array<bv8>)
    requires |k64| == 8
    ensures fresh(k56) && k56.Length == 8 && k56[..] == Key56(k64)
  {
    PermutationTables();
    k56 := new bv8[8];
    Permute.Permute(k64, k56, KP);
    k56[0] := k56[4] << 4;
  }

  /** `_get_syster_cw(ecm, k64, out)`: out[0..7] is the control word, out[8] the
      auxiliary byte (byte 6 of the first decoded half), and the result is the date of
      the second half.  ecm and k64 are values here, so they are left as they were. */
  method GetSysterCw(ecm: seq<bv8>, k64: seq<bv8>, out: array<bv8>) returns (date: bv16)
    requires |ecm| == 16 && |k64| == 8 && out.Length == 9
    modifies out
    ensures out[..8] == SysterCw(ecm, k64)
    ensures out[8] == DecodedHalf(ecm, k64, 0)[6]
    ensures date == DateOf(DecodedHalf(ecm, k64, 1))
  {
    var buffer1 := new bv8[8];
    var cw := new bv8[8];
    date := DecodeHalves(ecm, k64, buffer1, out, DecodedHalf(ecm, k64, 0), DecodedHalf(ecm, k64, 1));
    WriteCw(buffer1, cw, out);
  }

  /** The loop of systerdes.c:205-233: both halves decoded, bytes 0..3 of the first and
      4..7 of the second collected in buffer1; the date is that of the last half. */
  method DecodeHalves(ecm: seq<bv8>, k64: seq<bv8>, buffer1: array<bv8>, out: array<bv8>,
                      ghost d0: seq<bv8>, ghost d1: seq<bv8>) returns (date: bv16)
    requires |ecm| == 16 && |k64| == 8 && buffer1.Length == 8 && out.Length == 9 && buffer1 != out
    requires d0 == DecodedHalf(ecm, k64, 0) && d1 == DecodedHalf(ecm, k64, 1)
    modifies buffer1, out
    ensures buffer1[..] == d0[..4] + d1[4..]
    ensures out[8] == d0[6]
    ensures date == DateOf(d1)
  {
    date := 0;
    var round := 0;
    while round < 2
      invariant 0 <= round <= 2
      invariant forall m :: 0 <= m < 4 * round ==> buffer1[m] == (if m < 4 then d0 else d1)[m]
      invariant round > 0 ==> out[8] == d0[6]
      invariant round > 1 ==> date == DateOf(d1)
    {
      date := DecodeRound(ecm, k64, round, buffer1, out, d0, d1);
      round := round + 1;
    }
    JoinHalves(buffer1[..], d0, d1);
  }

  /** Eight bytes agreeing with a on 0..3 and with b on 4..7 are a[..4] + b[4..]. */
  lemma JoinHalves(s: seq<bv8>, a: seq<bv8>, b: seq<bv8>)
    requires |s| == 8 && |a| == 8 && |b| == 8
    requires forall m :: 0 <= m < 4 ==> s[m] == a[m]
    requires forall m :: 4 <= m < 8 ==> s[m] == b[m]
    ensures s == a[..4] + b[4..]
  {
  }

  /** Repack buffer1 into cw and copy cw to out[0..7] (systerdes.c:236-246). */
  method WriteCw(buffer1: array<bv8>, cw: array<bv8>, out: array<bv8>)
    requires buffer1.Length == 8 && cw.Length == 8 && out.Length == 9
    requires buffer1 != cw && buffer1 != out
    modifies cw, out
    ensures out[..8] == Repack(buffer1[..]) && out[8] == old(out[8])
  {
    RepackBuffer(buffer1, cw);
    forall m | 0 <= m < 8 {
      out[m] := cw[m];
    }
  }

  /** The body of the loop of systerdes.c:205-233 for round `round`: decode that half,
      keep the auxiliary byte of the first, compute the date and copy the half over. */
  method DecodeRound(ecm: seq<bv8>, k64: seq<bv8>, round: nat, buffer1: array<bv8>, out: array<bv8>,
                     ghost d0: seq<bv8>, ghost d1: seq<bv8>)
    returns (date: bv16)
    requires |ecm| == 16 && |k64| == 8 && round < 2 && buffer1.Length == 8 && out.Length == 9
    requires buffer1 != out && d0 == DecodedHalf(ecm, k64, 0) && d1 == DecodedHalf(ecm, k64, 1)
    modifies buffer1, out
    ensures forall m :: 0 <= m < round * 4 ==> buffer1[m] == old(buffer1[m])
    ensures forall m :: round * 4 <= m < round * 4 + 4 ==> buffer1[m] == (if round == 0 then d0 else d1)[m]
    ensures round == 0 ==> out[8] == d0[6]
    ensures round == 1 ==> out[8] == old(out[8])
    ensures date == DateOf(if round == 0 then d0 else d1)
  {
    var buffer2 := new bv8[8];
    DecodeHalf(ecm, k64, round, buffer2);
    ghost var d := if round == 0 then d0 else d1;
    assert buffer2[..] == d;
    if round == 0 {
      out[8] := buffer2[6];
    }
    date := Le16(buffer2[0], buffer2[1]);
    if date == 0xFFFF {
      date := Le16(buffer2[2], buffer2[3]);
    }
    CopyHalf(buffer1, buffer2, round);
  }

  /** The repacking loop and assignments of systerdes.c:236-243. */
  method RepackBuffer(buffer1: array<bv8>, cw: array<bv8>)
    requires buffer1.Length == 8 && cw.Length == 8 && buffer1 != cw
    modifies cw
    ensures cw[..] == Repack(buffer1[..])
  {
    ghost var b := buffer1[..];
    var i := 0;
    while i < 4
      invariant 0 <= i <= 4
      invariant forall m :: 0 <= m < i ==> cw[m] == RepackByte(b, m)
    {
      cw[i] := buffer1[i + 4] & (if i == 3 then 0x7F else 0xFF);
      i := i + 1;
    }
    RepackLeft(buffer1, cw);
  }

  /** Bytes 4..7 of the repacking (systerdes.c:240-243): the left half shifted up one bit. */
  method RepackLeft(buffer1: array<bv8>, cw: array<bv8>)
    requires buffer1.Length == 8 && cw.Length == 8 && buffer1 != cw
    modifies cw
    ensures forall m :: 0 <= m < 4 ==> cw[m] == old(cw[m])
    ensures cw[4] == RepackByte(buffer1[..], 4) && cw[5] == RepackByte(buffer1[..], 5)
    ensures cw[6] == RepackByte(buffer1[..], 6) && cw[7] == RepackByte(buffer1[..], 7)
  {
    cw[4] := (buffer1[0] << 1) | ((buffer1[7] >> 7) & 1);
    cw[5] := (buffer1[1] << 1) | ((buffer1[0] >> 7) & 1);
    cw[6] := (buffer1[2] << 1) | ((buffer1[1] >> 7) & 1);
    cw[7] := ((buffer1[3] << 1) & 0x1F) | ((buffer1[2] >> 7) & 1);
  }

  /** memcpy(buffer1 + round * 4, buffer2 + round * 4, 4) (systerdes.c:232). */
  method CopyHalf(buffer1: array<bv8>, buffer2: array<bv8>, round: nat)
    requires buffer1.Length == 8 && buffer2.Length == 8 && round < 2 && buffer1 != buffer2
    modifies buffer1
    ensures forall m :: 0 <= m < 8 ==> buffer1[m] == if round * 4 <= m < round * 4 + 4 then buffer2[m] else old(buffer1[m])
  {
    forall m | round * 4 <= m < round * 4 + 4 {
      buffer1[m] := buffer2[m];
    }
  }
}
