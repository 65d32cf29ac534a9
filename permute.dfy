/*
  `_permute` (systerdes.c:78-103): an 8x8 bit-matrix transposition through one
  of the three permutation tables.

  With a table whose first entry has its two low bits clear (kp, ip) the
  method feeds bit i of each input byte j into the top of output byte p[i]
  (initial kind); otherwise (fp) it feeds bit 0, 1, ... of input byte p[i] into
  the bottom of output byte j (final kind).  Either way every output byte is
  shifted eight times, so the output does not depend on what the buffer held.
*/
module Permute {
  import opened Bits
  import opened SysterTables

  /** Bit b of each of the eight rows, row 0 giving the most significant bit. */
  function Column(rows: seq<bv8>, b: nat): (r: bv8)
    requires |rows| == 8 && b < 8
  {
    (if Bit(rows[0], b) then 0x80 else 0) | (if Bit(rows[1], b) then 0x40 else 0) |
    (if Bit(rows[2], b) then 0x20 else 0) | (if Bit(rows[3], b) then 0x10 else 0) |
    (if Bit(rows[4], b) then 0x08 else 0) | (if Bit(rows[5], b) then 0x04 else 0) |
    (if Bit(rows[6], b) then 0x02 else 0) | (if Bit(rows[7], b) then 0x01 else 0)
  }

  /** Bit q of a column is bit b of row 7 - q. */
  lemma ColumnBits(rows: seq<bv8>, b: nat)
    requires |rows| == 8 && b < 8
    ensures forall q :: 0 <= q < 8 ==> Bit(Column(rows, b), q) == Bit(rows[7 - q], b)
  {
  }

  /** The input rows in the order the table visits them. */
  function Gather(inp: seq<bv8>, p: seq<nat>): (g: seq<bv8>)
    requires |inp| == 8 && IsPermutation(p)
    ensures |g| == 8 && forall i :: 0 <= i < 8 ==> g[i] == inp[p[i]]
  {
    seq(8, i requires 0 <= i < 8 => inp[p[i]])
  }

  /** Position of m in p. */
  function IndexOf(p: seq<nat>, m: nat): (i: nat)
    requires m in p
    ensures i < |p| && p[i] == m
  {
    if p[0] == m then 0 else 1 + IndexOf(p[1..], m)
  }

  /** The inverse of a permutation table: entry m is the position of m in p. */
  function Inverse(p: seq<nat>): (q: seq<nat>)
    requires IsPermutation(p)
    ensures |q| == 8 && forall m :: 0 <= m < 8 ==> q[m] < 8 && p[q[m]] == m
  {
    seq(8, m requires 0 <= m < 8 => IndexOf(p, m))
  }

  /** Whether a table selects the final kind of permutation (the test at systerdes.c:89). */
  predicate IsFinalKind(p: seq<nat>)
    requires |p| > 0
  {
    p[0] % 4 != 0
  }

  /** What `_permute` leaves in its output buffer. */
  ghost function PermuteSpec(inp: seq<bv8>, p: seq<nat>): (out: seq<bv8>)
    requires |inp| == 8 && IsPermutation(p)
    ensures |out| == 8
    ensures IsFinalKind(p) ==> forall j :: 0 <= j < 8 ==> out[j] == Column(Gather(inp, p), 7 - j)
    ensures !IsFinalKind(p) ==> forall m :: 0 <= m < 8 ==> out[m] == Column(inp, Inverse(p)[m])
  {
    if IsFinalKind(p) then seq(8, j requires 0 <= j < 8 => Column(Gather(inp, p), 7 - j))
    else var q := Inverse(p); seq(8, m requires 0 <= m < 8 => Column(inp, q[m]))
  }

  /** Initial kind (kp, ip): bit i of in[j] becomes bit 7-j of out[p[i]]. */
  lemma InitialPermutationBits(inp: seq<bv8>, p: seq<nat>, i: nat, j: nat)
    requires |inp| == 8 && IsPermutation(p) && !IsFinalKind(p)
    requires i < 8 && j < 8
    ensures Bit(PermuteSpec(inp, p)[p[i]], 7 - j) == Bit(inp[j], i)
  {
    var m := p[i];
    assert Inverse(p)[m] == i;
    ColumnBits(inp, i);
  }

  /** Final kind (fp): bit 7-j of in[p[i]] becomes bit 7-i of out[j]. */
  lemma FinalPermutationBits(inp: seq<bv8>, p: seq<nat>, i: nat, j: nat)
    requires |inp| == 8 && IsPermutation(p) && IsFinalKind(p)
    requires i < 8 && j < 8
    ensures Bit(PermuteSpec(inp, p)[j], 7 - i) == Bit(inp[p[i]], 7 - j)
  {
    assert PermuteSpec(inp, p)[j] == Column(Gather(inp, p), 7 - j);
    ColumnBits(Gather(inp, p), 7 - j);
  }

  /** x holds bits of rows[..][b] shifted in at the bottom i times over orig. */
  ghost predicate ShiftedInLow(x: bv8, orig: bv8, rows: seq<bv8>, b: nat, i: nat)
    requires |rows| == 8 && b < 8 && i <= 8
  {
    forall q :: 0 <= q < 8 ==> Bit(x, q) == if q < i then Bit(rows[i - 1 - q], b) else Bit(orig, q - i)
  }

  /** x holds bit b of rows 7, 6, ..., 8-d shifted in at the top d times over orig. */
  ghost predicate ShiftedInHigh(x: bv8, orig: bv8, rows: seq<bv8>, b: nat, d: nat)
    requires |rows| == 8 && b < 8 && d <= 8
  {
    forall q :: 0 <= q < 8 ==> Bit(x, q) == if q >= 8 - d then Bit(rows[15 - d - q], b) else Bit(orig, q + d)
  }

  /** One step of the final kind: shifting in bit b of rows[i] at the bottom. */
  lemma ShiftedInLowStep(x: bv8, c: bv8, y: bv8, orig: bv8, rows: seq<bv8>, b: nat, i: nat)
    requires |rows| == 8 && b < 8 && i < 8 && c <= 1 && y == (x << 1) | c
    requires ShiftedInLow(x, orig, rows, b, i)
    requires (c == 1) == Bit(rows[i], b)
    ensures ShiftedInLow(y, orig, rows, b, i + 1)
  {
    forall q | 0 <= q < 8 {
      ShiftInLow(x, c, q);
    }
  }

  /** One step of the initial kind: shifting in bit b of rows[7-d] at the top. */
  lemma ShiftedInHighStep(x: bv8, top: bool, y: bv8, orig: bv8, rows: seq<bv8>, b: nat, d: nat)
    requires |rows| == 8 && b < 8 && d < 8 && y == (x >> 1) | (if top then 0x80 else 0)
    requires ShiftedInHigh(x, orig, rows, b, d)
    requires top == Bit(rows[7 - d], b)
    ensures ShiftedInHigh(y, orig, rows, b, d + 1)
  {
    forall q | 0 <= q < 8 {
      ShiftInHigh(x, top, q);
    }
  }

  /** After eight steps the bytes equal the column the specification names. */
  lemma ShiftedInLowColumn(x: bv8, orig: bv8, rows: seq<bv8>, b: nat)
    requires |rows| == 8 && b < 8
    requires ShiftedInLow(x, orig, rows, b, 8)
    ensures x == Column(rows, b)
  {
    ColumnBits(rows, b);
    BitsDetermineByte(x, Column(rows, b));
  }

  lemma ShiftedInHighColumn(x: bv8, orig: bv8, rows: seq<bv8>, b: nat)
    requires |rows| == 8 && b < 8
    requires ShiftedInHigh(x, orig, rows, b, 8)
    ensures x == Column(rows, b)
  {
    ColumnBits(rows, b);
    BitsDetermineByte(x, Column(rows, b));
  }

  /** Row j of the final kind: the inner loop of systerdes.c:87-101 when p[0]&3 != 0. */
  method FinalRow(t: array<bv8>, buffer1: array<bv8>, p: seq<nat>, j: nat, ghost inp: seq<bv8>, ghost s: nat)
    requires t.Length == 8 && buffer1.Length == 8 && t != buffer1
    requires |inp| == 8 && IsPermutation(p) && j < 8 && s == 7 - j
    requires forall i :: 0 <= i < 8 ==> t[p[i]] == Shr(inp[p[i]], s)
    modifies t, buffer1
    ensures forall i :: 0 <= i < 8 ==> t[p[i]] == Shr(inp[p[i]], s + 1)
    ensures buffer1[j] == Column(Gather(inp, p), s)
    ensures forall r :: 0 <= r < 8 && r != j ==> buffer1[r] == old(buffer1[r])
  {
    ghost var g := Gather(inp, p);
    var i := 0;
    while i < 8
      invariant 0 <= i <= 8
      invariant forall i' :: 0 <= i' < i ==> t[p[i']] == Shr(inp[p[i']], s + 1)
      invariant forall i' :: i <= i' < 8 ==> t[p[i']] == Shr(inp[p[i']], s)
      invariant ShiftedInLow(buffer1[j], old(buffer1[j]), g, s, i)
      invariant forall r :: 0 <= r < 8 && r != j ==> buffer1[r] == old(buffer1[r])
    {
      ghost var x := buffer1[j];
      assert forall i' :: 0 <= i' < 8 && i' != i ==> p[i'] != p[i];
      FinalStep(t, buffer1, p[i], j, inp[p[i]], s);
      assert g[i] == inp[p[i]];
      ShiftedInLowStep(x, if Bit(g[i], s) then 1 else 0, buffer1[j], old(buffer1[j]), g, s, i);
      i := i + 1;
    }
    ShiftedInLowColumn(buffer1[j], old(buffer1[j]), g, s);
  }

  /** One step of a final-kind row: bit 0 of T[k], which is bit s of the input row v,
      goes into the bottom of buffer1[j] (systerdes.c:92-93). */
  method FinalStep(t: array<bv8>, buffer1: array<bv8>, k: nat, j: nat, ghost v: bv8, ghost s: nat)
    requires t.Length == 8 && buffer1.Length == 8 && t != buffer1 && k < 8 && j < 8 && s < 8
    requires t[k] == Shr(v, s)
    modifies t, buffer1
    ensures t[k] == Shr(v, s + 1)
    ensures buffer1[j] == (old(buffer1[j]) << 1) | (if Bit(v, s) then 1 else 0)
    ensures forall m :: 0 <= m < 8 && m != k ==> t[m] == old(t[m])
    ensures forall r :: 0 <= r < 8 && r != j ==> buffer1[r] == old(buffer1[r])
  {
    ShrLowBit(v, s);
    ShrStep(v, s);
    buffer1[j] := (buffer1[j] << 1) | (t[k] & 1);
    t[k] := t[k] >> 1;
  }

  /** One step of an initial-kind row: bit 0 of T[j], which is bit i of the input row v,
      goes into the top of buffer1[k] (systerdes.c:98-99). */
  method InitialStep(t: array<bv8>, buffer1: array<bv8>, k: nat, j: nat, ghost v: bv8, ghost i: nat)
    requires t.Length == 8 && buffer1.Length == 8 && t != buffer1 && k < 8 && j < 8 && i < 8
    requires t[j] == Shr(v, i)
    modifies t, buffer1
    ensures t[j] == Shr(v, i + 1)
    ensures buffer1[k] == (old(buffer1[k]) >> 1) | (if Bit(v, i) then 0x80 else 0)
    ensures forall m :: 0 <= m < 8 && m != j ==> t[m] == old(t[m])
    ensures forall m :: 0 <= m < 8 && m != k ==> buffer1[m] == old(buffer1[m])
  {
    ShrLowBit(v, i);
    ShrStep(v, i);
    buffer1[k] := (buffer1[k] >> 1) | (if t[j] & 1 == 1 then 0x80 else 0);
    t[j] := t[j] >> 1;
  }

  /** Row j of the initial kind: the inner loop of systerdes.c:87-101 when p[0]&3 == 0. */
  method InitialRow(t: array<bv8>, buffer1: array<bv8>, p: seq<nat>, j: nat, ghost inp: seq<bv8>, ghost orig: seq<bv8>, ghost s: nat)
    requires t.Length == 8 && buffer1.Length == 8 && t != buffer1
    requires |inp| == 8 && |orig| == 8 && IsPermutation(p) && j < 8 && s == 7 - j
    requires t[j] == inp[j]
    requires forall i :: 0 <= i < 8 ==> ShiftedInHigh(buffer1[p[i]], orig[p[i]], inp, i, s)
    modifies t, buffer1
    ensures forall m :: 0 <= m < 8 && m != j ==> t[m] == old(t[m])
    ensures forall i :: 0 <= i < 8 ==> ShiftedInHigh(buffer1[p[i]], orig[p[i]], inp, i, s + 1)
  {
    var i := 0;
    while i < 8
      invariant 0 <= i <= 8
      invariant t[j] == Shr(inp[j], i)
      invariant forall m :: 0 <= m < 8 && m != j ==> t[m] == old(t[m])
      invariant forall i' :: 0 <= i' < i ==> ShiftedInHigh(buffer1[p[i']], orig[p[i']], inp, i', s + 1)
      invariant forall i' :: i <= i' < 8 ==> ShiftedInHigh(buffer1[p[i']], orig[p[i']], inp, i', s)
    {
      ghost var x := buffer1[p[i]];
      assert forall i' :: 0 <= i' < 8 && i' != i ==> p[i'] != p[i];
      InitialStep(t, buffer1, p[i], j, inp[j], i);
      assert 7 - s == j;
      ShiftedInHighStep(x, Bit(inp[j], i), buffer1[p[i]], orig[p[i]], inp, i, s);
      i := i + 1;
    }
  }

  /** `_permute(in, buffer1, p)` (systerdes.c:78-103): the input is copied to T first,
      so it is never changed; buffer1 ends up fully determined by the input. */
  method Permute(inp: seq<bv8>, buffer1: array<bv8>, p: seq<nat>)
    requires |inp| == 8 && buffer1.Length == 8 && IsPermutation(p)
    modifies buffer1
    ensures buffer1[..] == PermuteSpec(inp, p)
  {
    var t := new bv8[8];
    forall m | 0 <= m < 8 {
      t[m] := inp[m];
    }
    if p[0] % 4 != 0 {
      PermuteFinal(inp, t, buffer1, p);
    } else {
      PermuteInitial(inp, t, buffer1, p);
    }
  }

  /** The row loop of `_permute` for the final kind. */
  method PermuteFinal(inp: seq<bv8>, t: array<bv8>, buffer1: array<bv8>, p: seq<nat>)
    requires |inp| == 8 && t.Length == 8 && buffer1.Length == 8 && t != buffer1
    requires IsPermutation(p) && IsFinalKind(p) && t[..] == inp
    modifies t, buffer1
    ensures buffer1[..] == PermuteSpec(inp, p)
  {
    ghost var g := Gather(inp, p);
    ghost var s: nat := 0;
    var j := 7;
    while j >= 0
      invariant -1 <= j <= 7 && s == 7 - j
      invariant forall i :: 0 <= i < 8 ==> t[p[i]] == Shr(inp[p[i]], s)
      invariant forall r :: j < r < 8 ==> buffer1[r] == Column(g, 7 - r)
    {
      FinalRow(t, buffer1, p, j, inp, s);
      j := j - 1;
      s := s + 1;
    }
    FinalSpec(inp, p, buffer1[..]);
  }

  /** The row loop of `_permute` for the initial kind. */
  method PermuteInitial(inp: seq<bv8>, t: array<bv8>, buffer1: array<bv8>, p: seq<nat>)
    requires |inp| == 8 && t.Length == 8 && buffer1.Length == 8 && t != buffer1
    requires IsPermutation(p) && !IsFinalKind(p) && t[..] == inp
    modifies t, buffer1
    ensures buffer1[..] == PermuteSpec(inp, p)
  {
    ghost var orig := buffer1[..];
    ghost var s: nat := 0;
    var j := 7;
    while j >= 0
      invariant -1 <= j <= 7 && s == 7 - j
      invariant forall m :: 0 <= m <= j ==> t[m] == inp[m]
      invariant forall i :: 0 <= i < 8 ==> ShiftedInHigh(buffer1[p[i]], orig[p[i]], inp, i, s)
    {
      InitialRow(t, buffer1, p, j, inp, orig, s);
      j := j - 1;
      s := s + 1;
    }
    InitialSpec(inp, p, orig, buffer1[..]);
  }

  lemma FinalSpec(inp: seq<bv8>, p: seq<nat>, out: seq<bv8>)
    requires |inp| == 8 && IsPermutation(p) && IsFinalKind(p) && |out| == 8
    requires forall r :: 0 <= r < 8 ==> out[r] == Column(Gather(inp, p), 7 - r)
    ensures out == PermuteSpec(inp, p)
  {
  }

  lemma InitialSpec(inp: seq<bv8>, p: seq<nat>, orig: seq<bv8>, out: seq<bv8>)
    requires |inp| == 8 && |orig| == 8 && IsPermutation(p) && !IsFinalKind(p) && |out| == 8
    requires forall i :: 0 <= i < 8 ==> ShiftedInHigh(out[p[i]], orig[p[i]], inp, i, 8)
    ensures out == PermuteSpec(inp, p)
  {
    forall m | 0 <= m < 8
      ensures out[m] == PermuteSpec(inp, p)[m]
    {
      var i := Inverse(p)[m];
      ShiftedInHighColumn(out[p[i]], orig[p[i]], inp, i);
    }
  }
}
