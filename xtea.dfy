/*
  The XTEA enciphering rounds of `_rand_seed_xtea` (main.c:158-204): Needham and
  Wheeler's round function on two 32-bit halves with 32-bit wrap-around, and the
  card's signature check, which compares the halves after the eighth round with
  the signature words of the message and stops early when they differ.
*/
module Xtea {

  /** The XTEA key-schedule constant (main.c:166). */
  const DELTA: bv32 := 0x9E3779B9

  /** The running halves and key-schedule sum of the cipher. */
  datatype State = State(v0: bv32, v1: bv32, sum: bv32)

  /** The mixing term ((v << 4) ^ (v >> 5)) + v. */
  function Mix(v: bv32): bv32
  {
    ((v << 4) ^ (v >> 5)) + v
  }

  /** Key word i (i < 4), the `key[i]` of main.c:185-187. */
  function Subkey(k: seq<bv32>, i: bv32): bv32
    requires |k| == 4 && i < 4
  {
    if i == 0 then k[0] else if i == 1 then k[1] else if i == 2 then k[2] else k[3]
  }

  /** The update `v += (((w << 4) ^ (w >> 5)) + w) ^ (sum + kw)` of one half. */
  function Feistel(v: bv32, w: bv32, sum: bv32, kw: bv32): bv32
  {
    v + (Mix(w) ^ (sum + kw))
  }

  /** One enciphering round (main.c:185-187). */
  function Round(k: seq<bv32>, s: State): (t: State)
    requires |k| == 4
    ensures t.sum == s.sum + DELTA
  {
    var v0 := Feistel(s.v0, s.v1, s.sum, Subkey(k, s.sum & 3));
    var sum := s.sum + DELTA;
    State(v0, Feistel(s.v1, v0, sum, Subkey(k, (sum >> 11) & 3)), sum)
  }

  /** n enciphering rounds. */
  function Rounds(k: seq<bv32>, s: State, n: nat): State
    requires |k| == 4
  {
    if n == 0 then s else Round(k, Rounds(k, s, n - 1))
  }

  /** The key-schedule sum after n rounds from sum: n additions of DELTA. */
  function SumAfter(sum: bv32, n: nat): bv32
  {
    if n == 0 then sum else SumAfter(sum, n - 1) + DELTA
  }

  /** The sum after n rounds does not depend on the halves. */
  lemma {:induction false} RoundsSum(k: seq<bv32>, s: State, n: nat)
    requires |k| == 4
    ensures Rounds(k, s, n).sum == SumAfter(s.sum, n)
  {
    if n > 0 {
      RoundsSum(k, s, n - 1);
    }
  }

  /** Starting from sum 0 as the card does, the full 32 rounds end at the classic
      XTEA value 32 * DELTA mod 2^32. */
  lemma FullSum(k: seq<bv32>, v0: bv32, v1: bv32)
    requires |k| == 4
    ensures Rounds(k, State(v0, v1, 0), 32).sum == 0xC6EF3720
  {
    RoundsSum(k, State(v0, v1, 0), 32);
    assert SumAfter(0, 8) == 0xF1BBCDC8;
    assert SumAfter(0, 16) == 0xE3779B90;
    assert SumAfter(0, 24) == 0xD5336958;
  }

  /** Whether the halves after the eighth round equal the signature words. */
  predicate SignatureMatches(k: seq<bv32>, v0: bv32, v1: bv32, s0: bv32, s1: bv32)
    requires |k| == 4
  {
    var t := Rounds(k, State(v0, v1, 0), 8);
    t.v0 == s0 && t.v1 == s1
  }

  /** The halves the card keeps: all 32 rounds when the signature matches, otherwise
      the eight rounds done before the check stopped it. */
  function Checked(k: seq<bv32>, v0: bv32, v1: bv32, s0: bv32, s1: bv32): (t: State)
    requires |k| == 4
  {
    if SignatureMatches(k, v0, v1, s0, s1) then Rounds(k, State(v0, v1, 0), 32)
    else Rounds(k, State(v0, v1, 0), 8)
  }

  /** The three statements of one round (main.c:185-187). */
  method EncipherRound(k: seq<bv32>, v0: bv32, v1: bv32, sum: bv32) returns (w0: bv32, w1: bv32, s: bv32)
    requires |k| == 4
    ensures State(w0, w1, s) == Round(k, State(v0, v1, sum))
  {
    w0 := Feistel(v0, v1, sum, Subkey(k, sum & 3));
    s := sum + DELTA;
    w1 := Feistel(v1, w0, s, Subkey(k, (s >> 11) & 3));
  }

  /** The round loop of main.c:183-198, which runs in mode 2: 32 rounds from sum 0, with
      the signature check after round index 7 ending the loop when it fails. */
  method SignedEncipher(k: seq<bv32>, v0: bv32, v1: bv32, s0: bv32, s1: bv32)
    returns (w0: bv32, w1: bv32, matched: bool)
    requires |k| == 4
    ensures matched == SignatureMatches(k, v0, v1, s0, s1)
    ensures matched ==> w0 == Rounds(k, State(v0, v1, 0), 32).v0 && w1 == Rounds(k, State(v0, v1, 0), 32).v1
    ensures !matched ==> w0 == Rounds(k, State(v0, v1, 0), 8).v0 && w1 == Rounds(k, State(v0, v1, 0), 8).v1
    ensures !matched ==> w0 != s0 || w1 != s1
    ensures w0 == Checked(k, v0, v1, s0, s1).v0 && w1 == Checked(k, v0, v1, s0, s1).v1
  {
    ghost var start := State(v0, v1, 0);
    w0, w1 := v0, v1;
    var sum: bv32 := 0;
    matched := false;
    var i := 0;
    while i < 32
      invariant 0 <= i <= 32
      invariant State(w0, w1, sum) == Rounds(k, start, i)
      invariant i >= 8 ==> matched && SignatureMatches(k, v0, v1, s0, s1)
    {
      w0, w1, sum := EncipherRound(k, w0, w1, sum);
      if i == 7 {
        if w0 == s0 && w1 == s1 {
          matched := true;
        } else {
          matched := false;
          break;
        }
      }
      i := i + 1;
    }
  }
}
