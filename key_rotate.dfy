/*
  `_key_rotate` (systerdes.c:123-138).  The 8-byte key is two independent
  little-endian 32-bit halves k[0..3] and k[4..7]; one step shifts a half
  right by one bit and feeds bit 4 back into bit 31, which rotates the 28-bit
  field in bits 4..31 right by one.  Round r performs LS[r] steps.
*/
module KeyRotate {
  import opened Bits
  import opened SysterTables

  /** Rotation of a 28-bit field right by one place. */
  function Rotr28(f: bv32): (g: bv32)
    requires f < 0x1000_0000
    ensures g < 0x1000_0000
  {
    (f >> 1) | ((f & 1) << 27)
  }

  /** One rotation step of a key half, as a 32-bit value. */
  function RotateStep(w: bv32): (v: bv32)
    ensures v >> 4 == Rotr28(w >> 4)
  {
    (w >> 1) | (((w >> 4) & 1) << 31)
  }

  /** n rotation steps of a key half. */
  function RotateSteps(w: bv32, n: nat): bv32
    decreases n
  {
    if n == 0 then w else RotateSteps(RotateStep(w), n - 1)
  }

  /** n steps applied to both halves of the key. */
  function RotateKey(k: seq<bv8>, n: nat): (r: seq<bv8>)
    requires |k| == 8
    ensures |r| == 8
  {
    Bytes32(RotateSteps(Le32(k[..4]), n)) + Bytes32(RotateSteps(Le32(k[4..]), n))
  }

  /** The byte updates of one step of a half, in the order systerdes.c:130-136 does them. */
  function StepHalf(h: seq<bv8>): (r: seq<bv8>)
    requires |h| == 4
    ensures |r| == 4
  {
    var b0 := (h[0] >> 1) | ((h[1] & 1) << 7);
    [b0, (h[1] >> 1) | ((h[2] & 1) << 7), (h[2] >> 1) | ((h[3] & 1) << 7), (h[3] >> 1) | (((b0 >> 3) & 1) << 7)]
  }

  /** The byte updates of one step are the 32-bit rotation step. */
  lemma StepHalfIsRotateStep(h: seq<bv8>)
    requires |h| == 4
    ensures StepHalf(h) == Bytes32(RotateStep(Le32(h)))
  {
    var w := Le32(h);
    var r := Bytes32(RotateStep(w));
    assert StepHalf(h)[0] == r[0];
    assert StepHalf(h)[1] == r[1];
    assert StepHalf(h)[2] == r[2];
    assert StepHalf(h)[3] == r[3];
  }

  /** The last round's entry LS[15] is 0, so the last round leaves the key as it is. */
  lemma LastRoundDoesNotRotate(k: seq<bv8>)
    requires |k| == 8
    ensures LS[15] == 0
    ensures RotateKey(k, LS[15]) == k
  {
    RotateNone(k);
  }

  /** Four bytes satisfying the updates of systerdes.c:130-136, in order, are StepHalf. */
  lemma StepHalfBytes(h: seq<bv8>, r: seq<bv8>)
    requires |h| == 4 && |r| == 4
    requires r[0] == (h[0] >> 1) | ((h[1] & 1) << 7)
    requires r[1] == (h[1] >> 1) | ((h[2] & 1) << 7)
    requires r[2] == (h[2] >> 1) | ((h[3] & 1) << 7)
    requires r[3] == (h[3] >> 1) | (((r[0] >> 3) & 1) << 7)
    ensures r == StepHalf(h)
  {
  }

  /** One step of both halves of the key, byte by byte. */
  function StepKey(k: seq<bv8>): (r: seq<bv8>)
    requires |k| == 8
    ensures |r| == 8
  {
    StepHalf(k[..4]) + StepHalf(k[4..])
  }

  /** One more step of both halves is one more rotation step. */
  lemma StepKeyAdvances(k0: seq<bv8>, i: nat)
    requires |k0| == 8
    ensures StepKey(RotateKey(k0, i)) == RotateKey(k0, i + 1)
  {
    var h := RotateKey(k0, i);
    assert h[..4] == Bytes32(RotateSteps(Le32(k0[..4]), i));
    assert h[4..] == Bytes32(RotateSteps(Le32(k0[4..]), i));
    StepAdvances(h[..4], Le32(k0[..4]), i);
    StepAdvances(h[4..], Le32(k0[4..]), i);
  }

  /** A byte shifted right by one with bit 0 of its neighbour as its new top bit. */
  function TakeCarry(b: bv8, next: bv8): bv8
  {
    (b >> 1) | ((next & 1) << 7)
  }

  /** The key after the inner loop of systerdes.c:130-134: bytes 0..2 of each half have
      taken their neighbour's bit 0 as their new top bit; bytes 3 and 7 are unchanged. */
  function ShiftedLow(h: seq<bv8>): (r: seq<bv8>)
    requires |h| == 8
    ensures |r| == 8
  {
    seq(8, m requires 0 <= m < 8 => if m == 3 || m == 7 then h[m] else TakeCarry(h[m], h[m + 1]))
  }

  /** Feeding bit 3 of the new byte 0 (4) into the top of byte 3 (7) completes one step. */
  lemma FeedBackCompletesStep(h: seq<bv8>, v3: bv8, v7: bv8)
    requires |h| == 8
    requires v3 == (h[3] >> 1) | (((ShiftedLow(h)[0] >> 3) & 1) << 7)
    requires v7 == (h[7] >> 1) | (((ShiftedLow(h)[4] >> 3) & 1) << 7)
    ensures ShiftedLow(h)[3 := v3][7 := v7] == StepKey(h)
  {
    var r := ShiftedLow(h)[3 := v3][7 := v7];
    StepHalfBytes(h[..4], r[..4]);
    StepHalfBytes(h[4..], r[4..]);
    assert r == r[..4] + r[4..];
  }

  /** The inner loop of systerdes.c:130-134. */
  method ShiftLowBytes(k: array<bv8>)
    requires k.Length == 8
    modifies k
    ensures k[..] == ShiftedLow(old(k[..]))
  {
    ghost var h := k[..];
    var j := 0;
    while j < 3
      invariant 0 <= j <= 3
      invariant forall m :: 0 <= m < j ==> k[m] == (h[m] >> 1) | ((h[m + 1] & 1) << 7)
      invariant forall m :: 4 <= m < j + 4 ==> k[m] == (h[m] >> 1) | ((h[m + 1] & 1) << 7)
      invariant forall m :: j <= m < 4 ==> k[m] == h[m]
      invariant forall m :: j + 4 <= m < 8 ==> k[m] == h[m]
    {
      k[j + 0] := (k[j + 0] >> 1) | ((k[j + 1] & 1) << 7);
      k[j + 4] := (k[j + 4] >> 1) | ((k[j + 5] & 1) << 7);
      j := j + 1;
    }
  }

  /** One step of both halves: the body of the outer loop of systerdes.c:128-137. */
  method RotateOnce(k: array<bv8>)
    requires k.Length == 8
    modifies k
    ensures k[..] == StepKey(old(k[..]))
  {
    ghost var h := k[..];
    ShiftLowBytes(k);
    ghost var h1 := k[..];
    k[3] := (k[3] >> 1) | (((k[0] >> 3) & 1) << 7);
    k[7] := (k[7] >> 1) | (((k[4] >> 3) & 1) << 7);
    assert k[..] == h1[3 := k[3]][7 := k[7]];
    FeedBackCompletesStep(h, k[3], k[7]);
  }

  /** `_key_rotate(rounds, k)`: LS[rounds] steps applied to each half independently. */
  method KeyRotate(rounds: nat, k: array<bv8>)
    requires rounds < 16 && k.Length == 8
    modifies k
    ensures k[..] == RotateKey(old(k[..]), LS[rounds])
  {
    ghost var k0 := k[..];
    RotateNone(k0);
    var i := 0;
    while i < LS[rounds]
      invariant 0 <= i <= LS[rounds]
      invariant k[..] == RotateKey(k0, i)
    {
      RotateOnce(k);
      StepKeyAdvances(k0, i);
      i := i + 1;
    }
  }

  /** No steps leave the key as it is. */
  lemma RotateNone(k: seq<bv8>)
    requires |k| == 8
    ensures RotateKey(k, 0) == k
  {
    Le32Bytes32(0, k[..4]);
    Le32Bytes32(0, k[4..]);
    assert k == k[..4] + k[4..];
  }

  /** A step applied to the bytes of i steps gives the bytes of i + 1 steps. */
  lemma StepAdvances(h: seq<bv8>, w0: bv32, i: nat)
    requires h == Bytes32(RotateSteps(w0, i))
    ensures StepHalf(h) == Bytes32(RotateSteps(w0, i + 1))
  {
    StepHalfIsRotateStep(h);
    Le32Bytes32(RotateSteps(w0, i), h);
    StepsLast(w0, i);
  }

  /** Taking one more step at the end. */
  lemma {:induction false} StepsLast(w: bv32, n: nat)
    ensures RotateSteps(w, n + 1) == RotateStep(RotateSteps(w, n))
    decreases n
  {
    if n > 0 {
      StepsLast(RotateStep(w), n - 1);
    }
  }
}
