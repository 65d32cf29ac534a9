/*
  The card's answer buffer `_ob` (main.c:109-111): sixteen 9-bit words used as a
  ring, with `_ob_x` the index of the oldest pending word and `_ob_len` the number
  of pending words.  Positions wrap with `& 0x0F`, which for the small non-negative
  sums the firmware forms is the same as subtracting 16 once.
*/
module AnswerQueue {

  /** Ring position j places after x (both below 16): `(x + j) & 0x0F`. */
  function Pos(x: nat, j: nat): (p: nat)
    requires x < 16 && j < 16
    ensures p < 16
  {
    if x + j < 16 then x + j else x + j - 16
  }

  /** How many places after x ring position m lies. */
  function Off(x: nat, m: nat): (j: nat)
    requires x < 16 && m < 16
    ensures j < 16
  {
    if m >= x then m - x else m + 16 - x
  }

  /** Pos and Off undo each other. */
  lemma PosOff(x: nat, j: nat, m: nat)
    requires x < 16 && j < 16 && m < 16
    ensures Off(x, Pos(x, j)) == j
    ensures Pos(x, Off(x, m)) == m
  {
  }

  /** The pending words, oldest first. */
  function Queue(s: seq<bv16>, x: nat, n: nat): (q: seq<bv16>)
    requires |s| == 16 && x < 16 && n <= 16
    ensures |q| == n
  {
    seq(n, k requires 0 <= k < n => s[Pos(x, k)])
  }

  /** Whether ring position m holds one of the n pending words starting at x. */
  predicate InQueue(x: nat, n: nat, m: nat)
    requires x < 16 && m < 16
  {
    Off(x, m) < n
  }

  /** A byte as a 9-bit word with bit 8 clear. */
  function Word(b: bv8): bv16
  {
    b as bv16
  }

  /** A word with bit 8, the frame mark, set. */
  function Mark(w: bv16): bv16
  {
    w | 0x100
  }

  /** Bytes as 9-bit words with bit 8 clear. */
  function Widen(b: seq<bv8>): (w: seq<bv16>)
    ensures |w| == |b|
    ensures forall k :: 0 <= k < |b| ==> w[k] == Word(b[k])
  {
    seq(|b|, k requires 0 <= k < |b| => Word(b[k]))
  }

  /** n copies of w. */
  function Repeat(w: bv16, n: nat): (r: seq<bv16>)
    ensures |r| == n && forall k :: 0 <= k < n ==> r[k] == w
  {
    if n == 0 then [] else Repeat(w, n - 1) + [w]
  }

  /** The buffer after d is written, one byte after the other, into the positions that
      follow `at` (the loop of main.c:211-215). */
  function Pushed(s: seq<bv16>, at: nat, d: seq<bv8>): (r: seq<bv16>)
    requires |s| == 16 && at < 16 && |d| <= 16
    ensures |r| == 16
    decreases |d|
  {
    if |d| == 0 then s
    else Pushed(s, at, d[..|d| - 1])[Pos(at, |d| - 1) := Word(d[|d| - 1])]
  }

  /** The answer frame: bit 8 set on its first and on its tenth word
      (main.c:216-217). */
  function Framed(q: seq<bv16>): (f: seq<bv16>)
    requires |q| >= 10
    ensures |f| == |q|
  {
    q[0 := Mark(q[0])][9 := Mark(q[9])]
  }

  /** After the push, position m holds byte Off(at, m) of d when that is one of the
      pushed bytes, and its old word otherwise. */
  lemma {:induction false} PushedAt(s: seq<bv16>, at: nat, d: seq<bv8>, m: nat)
    requires |s| == 16 && at < 16 && |d| <= 16 && m < 16
    ensures Pushed(s, at, d)[m] == if Off(at, m) < |d| then Word(d[Off(at, m)]) else s[m]
    decreases |d|
  {
    if |d| > 0 {
      var d' := d[..|d| - 1];
      PosOff(at, |d| - 1, m);
      if m != Pos(at, |d| - 1) {
        PushedAt(s, at, d', m);
        assert Off(at, m) != |d| - 1;
        if Off(at, m) < |d'| {
          assert d'[Off(at, m)] == d[Off(at, m)];
        }
      }
    }
  }

  /** Pushing d behind n pending words appends d to the queue. */
  lemma PushedQueue(s: seq<bv16>, x: nat, n: nat, d: seq<bv8>)
    requires |s| == 16 && x < 16 && n < 16 && n + |d| <= 16
    ensures Queue(Pushed(s, Pos(x, n), d), x, n + |d|) == Queue(s, x, n) + Widen(d)
  {
    var at := Pos(x, n);
    var lhs := Queue(Pushed(s, at, d), x, n + |d|);
    var rhs := Queue(s, x, n) + Widen(d);
    forall k | 0 <= k < n + |d|
      ensures lhs[k] == rhs[k]
    {
      PushedAt(s, at, d, Pos(x, k));
      PosOff(x, k, 0);
      if k < n {
        assert Off(at, Pos(x, k)) == k + 16 - n;
      } else {
        assert Off(at, Pos(x, k)) == k - n;
      }
    }
  }

  /** Setting bit 8 at the first and at the tenth pending position frames the queue. */
  lemma FramedQueue(s: seq<bv16>, x: nat, n: nat)
    requires |s| == 16 && x < 16 && 10 <= n <= 16
    ensures Queue(s[x := Mark(s[x])][Pos(x, 9) := Mark(s[Pos(x, 9)])], x, n) == Framed(Queue(s, x, n))
  {
    var lhs := Queue(s[x := Mark(s[x])][Pos(x, 9) := Mark(s[Pos(x, 9)])], x, n);
    var q := Queue(s, x, n);
    forall k | 0 <= k < n
      ensures lhs[k] == Framed(q)[k]
    {
      PosOff(x, k, 0);
      PosOff(x, 9, 0);
    }
  }

  /** Taking the oldest word: the queue from the next position is the rest. */
  lemma QueueAdvance(s: seq<bv16>, x: nat, n: nat)
    requires |s| == 16 && x < 16 && 0 < n <= 16
    ensures Queue(s, x, n)[0] == s[x]
    ensures Queue(s, Pos(x, 1), n - 1) == Queue(s, x, n)[1..]
  {
  }

  /** A queue starting at position 0 is a prefix of the buffer. */
  lemma QueueFromZero(s: seq<bv16>, n: nat)
    requires |s| == 16 && n <= 16
    ensures Queue(s, 0, n) == s[..n]
  {
  }

  /** Pushing never touches a position outside the new queue. */
  lemma PushedOutside(s: seq<bv16>, x: nat, n: nat, d: seq<bv8>, m: nat)
    requires |s| == 16 && x < 16 && n < 16 && n + |d| <= 16 && m < 16 && !InQueue(x, n + |d|, m)
    ensures Pushed(s, Pos(x, n), d)[m] == s[m]
  {
    PushedAt(s, Pos(x, n), d, m);
    PosOff(x, n, m);
  }

  /** Framing an answer pushed into an empty queue: the nine bytes data[1..10] as
      words, the first and the last with bit 8 set. */
  lemma FramedFromEmpty(d: seq<bv8>)
    requires |d| == 10
    ensures Framed([] + Widen(d)) == [Mark(Word(d[0]))] + Widen(d[1..9]) + [Mark(Word(d[9]))]
  {
    var f := Framed([] + Widen(d));
    var g := [Mark(Word(d[0]))] + Widen(d[1..9]) + [Mark(Word(d[9]))];
    assert f[0] == g[0] && f[9] == g[9];
    forall k | 1 <= k < 9
      ensures f[k] == g[k]
    {
      assert g[k] == Widen(d[1..9])[k - 1];
    }
  }

  /** A buffer that holds the bytes a at positions 1..8 and the words of t elsewhere
      (the control word of main.c:147 and main.c:200-203 written over the message). */
  lemma Spliced(s: seq<bv16>, t: seq<bv16>, a: seq<bv8>)
    requires |s| == 16 && |t| == 16 && |a| == 8
    requires forall j :: 0 <= j < 16 ==> s[j] == if 1 <= j < 9 then Word(a[j - 1]) else t[j]
    ensures s[1..9] == Widen(a) && s[9] == t[9] && s[10..] == t[10..]
  {
    assert s[1..9] == Widen(a) by {
      forall k | 0 <= k < 8
        ensures s[1..9][k] == Widen(a)[k]
      {
        assert s[k + 1] == Word(a[k]);
      }
    }
  }
}
