/*
  Bit-level vocabulary shared by the cipher and the card: single bits of a
  byte, shifting a bit in at either end of a byte, and the little-endian
  packing of bytes into 16- and 32-bit words that the firmware uses when it
  copies buffers into integers (memcpy on a little-endian AVR).
*/
module Bits {

  /** The one-bit mask 1 << q. */
  function Mask1(q: nat): bv8
    requires q < 8
  {
    if q == 0 then 0x01 else if q == 1 then 0x02 else if q == 2 then 0x04 else if q == 3 then 0x08
    else if q == 4 then 0x10 else if q == 5 then 0x20 else if q == 6 then 0x40 else 0x80
  }

  /** Bit q of byte x is set. */
  predicate Bit(x: bv8, q: nat)
    requires q < 8
  {
    x & Mask1(q) != 0
  }

  /** x shifted right s places, one place at a time. */
  function Shr(x: bv8, s: nat): (r: bv8)
    requires s <= 8
  {
    if s == 0 then x else Shr(x >> 1, s - 1)
  }

  /** A byte is determined by its eight bits. */
  lemma BitsDetermineByte(x: bv8, y: bv8)
    requires forall q :: 0 <= q < 8 ==> Bit(x, q) == Bit(y, q)
    ensures x == y
  {
    assert Bit(x, 0) == Bit(y, 0);
    assert Bit(x, 1) == Bit(y, 1);
    assert Bit(x, 2) == Bit(y, 2);
    assert Bit(x, 3) == Bit(y, 3);
    assert Bit(x, 4) == Bit(y, 4);
    assert Bit(x, 5) == Bit(y, 5);
    assert Bit(x, 6) == Bit(y, 6);
    assert Bit(x, 7) == Bit(y, 7);
  }

  /** The low bit of x >> s (s < 8) is bit s of x. */
  lemma {:induction false} ShrLowBit(x: bv8, s: nat)
    requires s < 8
    ensures (Shr(x, s) & 1 == 1) == Bit(x, s)
  {
    if s > 0 {
      ShrLowBit(x >> 1, s - 1);
      ShiftRightBit(x, s - 1);
    }
  }

  /** One more place is one more shift of the result. */
  lemma {:induction false} ShrStep(x: bv8, s: nat)
    requires s < 8
    ensures Shr(x, s + 1) == Shr(x, s) >> 1
  {
    if s > 0 {
      ShrStep(x >> 1, s - 1);
    }
  }

  /** x shifted left s places, one place at a time. */
  function Shl(x: bv8, s: nat): bv8
  {
    if s == 0 then x else Shl(x, s - 1) << 1
  }

  /** Bit q of x << s is bit q - s of x. */
  lemma {:induction false} BitOfShl(x: bv8, s: nat, q: nat)
    requires q < 8
    ensures Bit(Shl(x, s), q) == (q >= s && Bit(x, q - s))
  {
    if s > 0 {
      if q > 0 {
        BitOfShl(x, s - 1, q - 1);
      }
      ShiftLeftBit(Shl(x, s - 1), q);
    }
  }

  lemma ShiftLeftBit(y: bv8, q: nat)
    requires q < 8
    ensures Bit(y << 1, q) == (q > 0 && Bit(y, q - 1))
  {
    if q == 0 {} else if q == 1 {} else if q == 2 {} else if q == 3 {}
    else if q == 4 {} else if q == 5 {} else if q == 6 {} else {}
  }

  lemma ShiftRightBit(y: bv8, q: nat)
    requires q < 8
    ensures Bit(y >> 1, q) == (q < 7 && Bit(y, q + 1))
  {
    if q == 0 {} else if q == 1 {} else if q == 2 {} else if q == 3 {}
    else if q == 4 {} else if q == 5 {} else if q == 6 {} else {}
  }

  /** Shifting left by one and or-ing in a bit c (0 or 1) moves every bit up by one
      and puts c at the bottom. */
  lemma ShiftInLow(x: bv8, c: bv8, q: nat)
    requires c <= 1 && q < 8
    ensures Bit((x << 1) | c, q) == if q == 0 then c == 1 else Bit(x, q - 1)
  {
    if q == 0 {} else if q == 1 {} else if q == 2 {} else if q == 3 {}
    else if q == 4 {} else if q == 5 {} else if q == 6 {} else {}
  }

  /** Shifting right by one and or-ing in 0x80 or 0 moves every bit down by one
      and puts the new bit at the top. */
  lemma ShiftInHigh(x: bv8, top: bool, q: nat)
    requires q < 8
    ensures Bit((x >> 1) | (if top then 0x80 else 0), q) == if q == 7 then top else Bit(x, q + 1)
  {
    if q == 0 {} else if q == 1 {} else if q == 2 {} else if q == 3 {}
    else if q == 4 {} else if q == 5 {} else if q == 6 {} else {}
  }

  /** Little-endian 16-bit value of two bytes (lo first). */
  function Le16(lo: bv8, hi: bv8): (w: bv16)
    ensures (w & 0xFF) as bv8 == lo && (w >> 8) as bv8 == hi
  {
    ((hi as bv16) << 8) | (lo as bv16)
  }

  /** Little-endian 32-bit value of four bytes. */
  function Le32(s: seq<bv8>): (w: bv32)
    requires |s| == 4
  {
    ((s[3] as bv32) << 24) | ((s[2] as bv32) << 16) | ((s[1] as bv32) << 8) | (s[0] as bv32)
  }

  /** The four bytes of a 32-bit value, least significant first. */
  function Bytes32(w: bv32): (s: seq<bv8>)
    ensures |s| == 4
  {
    [(w & 0xFF) as bv8, ((w >> 8) & 0xFF) as bv8, ((w >> 16) & 0xFF) as bv8, ((w >> 24) & 0xFF) as bv8]
  }

  /** Le32 and Bytes32 are inverse to each other. */
  lemma Le32Bytes32(w: bv32, s: seq<bv8>)
    requires |s| == 4
    ensures Le32(Bytes32(w)) == w
    ensures Bytes32(Le32(s)) == s
  {
    var t := Bytes32(Le32(s));
    assert t[0] == s[0] && t[1] == s[1] && t[2] == s[2] && t[3] == s[3];
  }

  /** The low nibble `b & 0x0F`. */
  function Nibble(b: bv8): bv8
  {
    b & 0x0F
  }

  /** The high nibble `b & 0xF0`, left in place. */
  function HighNibble(b: bv8): bv8
  {
    b & 0xF0
  }

  /** The low byte of a 9-bit channel word, as C's (w & 0xff) stored into a byte. */
  function Low(w: bv16): (b: bv8)
    ensures b as bv16 == w & 0xFF
  {
    (w & 0xFF) as bv8
  }
}
