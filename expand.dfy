/*
  `_expand` (systerdes.c:106-120): every output byte j collects six bits of
  the data, the bits addressed by entries (7-j)*6 + 5 down to (7-j)*6 + 0 of
  an expansion table.  An address d names bit d&7 of byte d>>3.
*/
module Expand {
  import opened Bits
  import opened SysterTables

  /** The address mask: 5 bits when the table starts with 0x1F (E), else 8 bits (C). */
  function Mask(e: seq<bv8>): (m: bv8)
    requires |e| > 0
    ensures m == 0x1F || m == 0xFF
  {
    if e[0] == 0x1F then 0x1F else 0xFF
  }

  /** Every masked address of e names a bit of an 8-byte buffer. */
  ghost predicate ExpansionTable(e: seq<bv8>)
  {
    |e| == 48 && forall k :: 0 <= k < 48 ==> e[k] & Mask(e) < 64
  }

  /** The data bit at address d, tested as systerdes.c:117 does. */
  predicate DataBit(data: seq<bv8>, d: bv8)
    requires |data| == 8 && d < 64
  {
    data[(d >> 3) as nat] & ((1 as bv8) << (d & 7)) != 0
  }

  /** The test names bit d & 7 of byte d >> 3. */
  lemma DataBitIsBit(data: seq<bv8>, d: bv8)
    requires |data| == 8 && d < 64
    ensures DataBit(data, d) == Bit(data[(d >> 3) as nat], (d & 7) as nat)
  {
    ShiftedMaskBit(data[(d >> 3) as nat], d & 7);
  }

  /** Address used by the n-th shift (n = 0..5) for output byte j: table entry
      (7-j)*6 + (i-1) with i = 6 - n, masked (systerdes.c:116). */
  function Address(e: seq<bv8>, j: nat, n: nat): (d: bv8)
    requires ExpansionTable(e) && j < 8 && n < 6
    ensures d < 64
  {
    e[(7 - j) * 6 + 5 - n] & Mask(e)
  }

  /** Output byte j after the first n of its six shifts. */
  function Group(e: seq<bv8>, data: seq<bv8>, j: nat, n: nat): bv8
    requires ExpansionTable(e) && |data| == 8 && j < 8 && n <= 6
  {
    if n == 0 then 0
    else (Group(e, data, j, n - 1) << 1) | (if DataBit(data, Address(e, j, n - 1)) then 1 else 0)
  }

  /** What `_expand(e, data, result)` leaves in result. */
  ghost function ExpandSpec(e: seq<bv8>, data: seq<bv8>): (r: seq<bv8>)
    requires ExpansionTable(e) && |data| == 8
    ensures |r| == 8 && forall j :: 0 <= j < 8 ==> r[j] == Group(e, data, j, 6)
  {
    seq(8, j requires 0 <= j < 8 => Group(e, data, j, 6))
  }

  /** Bit q of a group after n shifts is the data bit the (n-1-q)-th shift read. */
  lemma {:induction false} GroupBits(e: seq<bv8>, data: seq<bv8>, j: nat, n: nat, q: nat)
    requires ExpansionTable(e) && |data| == 8 && j < 8 && n <= 6 && q < 8
    ensures Bit(Group(e, data, j, n), q) == (q < n && DataBit(data, Address(e, j, n - 1 - q)))
  {
    if n == 0 {
      assert Group(e, data, j, n) == 0;
    } else {
      var c: bv8 := if DataBit(data, Address(e, j, n - 1)) then 1 else 0;
      ShiftInLow(Group(e, data, j, n - 1), c, q);
      if q > 0 {
        GroupBits(e, data, j, n - 1, q - 1);
      }
    }
  }

  /** The expansion of systerdes.c:112-119: bit q (q < 6) of output byte j is the data
      bit at table entry (7-j)*6 + q, and bits 6 and 7 are clear, so every byte is below 64. */
  lemma ExpandBits(e: seq<bv8>, data: seq<bv8>, j: nat, q: nat)
    requires ExpansionTable(e) && |data| == 8 && j < 8 && q < 8
    ensures q < 6 ==> Bit(ExpandSpec(e, data)[j], q) == DataBit(data, e[(7 - j) * 6 + q] & Mask(e))
    ensures q >= 6 ==> !Bit(ExpandSpec(e, data)[j], q)
  {
    GroupBits(e, data, j, 6, q);
  }

  lemma ExpandBelow64(e: seq<bv8>, data: seq<bv8>, j: nat)
    requires ExpansionTable(e) && |data| == 8 && j < 8
    ensures ExpandSpec(e, data)[j] < 64
  {
    var x := ExpandSpec(e, data)[j];
    ExpandBits(e, data, j, 6);
    ExpandBits(e, data, j, 7);
    assert !Bit(x, 6) && !Bit(x, 7);
  }

  /** Both expansion tables are well formed: C uses 8-bit addresses, all below 64,
      and E uses 5-bit addresses. */
  lemma TablesAreExpansionTables()
    ensures Mask(C) == 0xFF && ExpansionTable(C)
    ensures Mask(E) == 0x1F && ExpansionTable(E)
  {
    KeyExpansionInRange();
    assert forall k :: 0 <= k < 48 ==> E[k] & 0x1F < 32;
  }

  /** With E only bytes 0..3 of the data are read: 5-bit addresses name bytes 0..3. */
  lemma ExpandEReadsLeftHalf(a: seq<bv8>, b: seq<bv8>)
    requires |a| == 8 && |b| == 8 && a[..4] == b[..4]
    ensures ExpansionTable(E)
    ensures ExpandSpec(E, a) == ExpandSpec(E, b)
  {
    TablesAreExpansionTables();
    LowMaskReadsLeftHalf(E, a, b);
  }

  /** Any table with the 5-bit mask reads only bytes 0..3 of the data. */
  lemma LowMaskReadsLeftHalf(e: seq<bv8>, a: seq<bv8>, b: seq<bv8>)
    requires ExpansionTable(e) && Mask(e) == 0x1F
    requires |a| == 8 && |b| == 8 && a[..4] == b[..4]
    ensures ExpandSpec(e, a) == ExpandSpec(e, b)
  {
    forall j | 0 <= j < 8
      ensures Group(e, a, j, 6) == Group(e, b, j, 6)
    {
      forall n | 0 <= n < 6
        ensures DataBit(a, Address(e, j, n)) == DataBit(b, Address(e, j, n))
      {
        LowAddressAgrees(e, a, b, j, n);
      }
      GroupsAgree(e, a, b, j, 6);
    }
  }

  /** A 5-bit address names one of bytes 0..3, where a and b agree. */
  lemma LowAddressAgrees(e: seq<bv8>, a: seq<bv8>, b: seq<bv8>, j: nat, n: nat)
    requires ExpansionTable(e) && Mask(e) == 0x1F && j < 8 && n < 6
    requires |a| == 8 && |b| == 8 && a[..4] == b[..4]
    ensures DataBit(a, Address(e, j, n)) == DataBit(b, Address(e, j, n))
  {
    var d := Address(e, j, n);
    assert d >> 3 < 4;
    assert a[(d >> 3) as nat] == b[(d >> 3) as nat];
  }

  lemma {:induction false} GroupsAgree(e: seq<bv8>, a: seq<bv8>, b: seq<bv8>, j: nat, n: nat)
    requires |a| == 8 && |b| == 8 && ExpansionTable(e) && j < 8 && n <= 6
    requires forall n' :: 0 <= n' < 6 ==> DataBit(a, Address(e, j, n')) == DataBit(b, Address(e, j, n'))
    ensures Group(e, a, j, n) == Group(e, b, j, n)
  {
    if n > 0 {
      GroupsAgree(e, a, b, j, n - 1);
      assert DataBit(a, Address(e, j, n - 1)) == DataBit(b, Address(e, j, n - 1));
    }
  }

  /** The bit test of systerdes.c:117, with a shift by a computed amount, is Bit. */
  lemma ShiftedMaskBit(x: bv8, d: bv8)
    requires d < 8
    ensures (x & ((1 as bv8) << d) != 0) == Bit(x, d as nat)
  {
    if d == 0 {} else if d == 1 {} else if d == 2 {} else if d == 3 {}
    else if d == 4 {} else if d == 5 {} else if d == 6 {} else {}
  }

  /** One shift of output byte j (systerdes.c:115-118), the (6-i)-th of six.  The address
      and the bit test are computed before the shift; neither reads result. */
  method ExpandShift(e: seq<bv8>, data: seq<bv8>, result: array<bv8>, j: nat, i: nat)
    requires ExpansionTable(e) && |data| == 8 && result.Length == 8 && j < 8 && 0 < i <= 6
    requires result[j] == Group(e, data, j, 6 - i)
    modifies result
    ensures result[j] == Group(e, data, j, 7 - i)
    ensures forall r :: 0 <= r < 8 && r != j ==> result[r] == old(result[r])
  {
    var d := Address(e, j, 6 - i);
    var hit := DataBit(data, d);
    PushBit(result, j, hit);
  }

  /** `result[j] <<= 1` and, when the tested bit is set, `result[j] |= 1`. */
  method PushBit(result: array<bv8>, j: nat, hit: bool)
    requires j < result.Length
    modifies result
    ensures result[j] == (old(result[j]) << 1) | (if hit then 1 else 0)
    ensures forall r :: 0 <= r < result.Length && r != j ==> result[r] == old(result[r])
  {
    result[j] := result[j] << 1;
    if hit {
      result[j] := result[j] | 1;
    }
  }

  /** `_expand(e, data, result)`: result is cleared, then each byte takes six shifts. */
  method Expand(e: seq<bv8>, data: seq<bv8>, result: array<bv8>)
    requires ExpansionTable(e) && |data| == 8 && result.Length == 8
    modifies result
    ensures result[..] == ExpandSpec(e, data)
  {
    forall r | 0 <= r < 8 {
      result[r] := 0;
    }
    var j := 0;
    while j < 8
      invariant 0 <= j <= 8
      invariant forall r :: 0 <= r < j ==> result[r] == Group(e, data, r, 6)
      invariant forall r :: j <= r < 8 ==> result[r] == 0
    {
      var i := 6;
      while i > 0
        invariant 0 <= i <= 6
        invariant result[j] == Group(e, data, j, 6 - i)
        invariant forall r :: 0 <= r < j ==> result[r] == Group(e, data, r, 6)
        invariant forall r :: j < r < 8 ==> result[r] == 0
      {
        ExpandShift(e, data, result, j, i);
        i := i - 1;
      }
      j := j + 1;
    }
  }
}
