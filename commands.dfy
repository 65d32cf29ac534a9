/*
  The command language of `_command` (main.c:236-452) and the values its handlers
  compute, as pure functions: which handler a 16-bit command code selects, how many
  further words from the host that handler reads, the constant tables it answers
  from, the layout of the DES key table, and the control word each decryption
  mode produces.
*/
module Commands {
  import opened Bits
  import opened AnswerQueue
  import SysterDes
  import Xtea

  /** The handlers of the switch in `_command`. */
  datatype Kind =
    | WriteChannels   // 0x0100, 0x0101
    | Identify        // 0x0200
    | ReadChannels    // 0x0201
    | SetCryptMode    // 0x0400 - 0x0402
    | SetAtr          // 0x1400 - 0x1402, 0x1410 - 0x1412
    | WriteKey        // 0x2400 - 0x240F
    | Info            // 0x5700 - 0x5702
    | Subscription    // 0x5F00
    | Acknowledge     // 0x5E00 - 0x5E02, 0x5F01, 0x5F02
    | SkipBlocks      // 0x0500, 0x0501
    | Decrypt         // 0x0600, 0x0620, 0x0601, 0x0621, 0x0602, 0x0622, 0x0611
    | Pop             // 0xFFFF
    | Unknown         // default

  /** The case labels of main.c:240-449. */
  function KindOf(cmd: bv16): Kind
  {
    if cmd == 0x0100 || cmd == 0x0101 then WriteChannels
    else if cmd == 0x0200 then Identify
    else if cmd == 0x0201 then ReadChannels
    else if 0x0400 <= cmd <= 0x0402 then SetCryptMode
    else if 0x1400 <= cmd <= 0x1402 || 0x1410 <= cmd <= 0x1412 then SetAtr
    else if 0x2400 <= cmd <= 0x240F then WriteKey
    else if 0x5700 <= cmd <= 0x5702 then Info
    else if cmd == 0x5F00 then Subscription
    else if 0x5E00 <= cmd <= 0x5E02 || cmd == 0x5F01 || cmd == 0x5F02 then Acknowledge
    else if cmd == 0x0500 || cmd == 0x0501 then SkipBlocks
    else if cmd in {0x0600, 0x0620, 0x0601, 0x0621, 0x0602, 0x0622, 0x0611} then Decrypt
    else if cmd == 0xFFFF then Pop
    else Unknown
  }

  /** Handlers that answer through `_io_response_*` and so append ten words to the
      answer buffer. */
  predicate Answers(k: Kind)
  {
    k == Identify || k == ReadChannels || k == Info
  }

  /** Handlers that store what they receive in EEPROM. */
  predicate Configures(k: Kind)
  {
    k == WriteChannels || k == SetCryptMode || k == SetAtr || k == WriteKey
  }

  /** Handlers that read a message from the host, acknowledging its words. */
  predicate Transfers(k: Kind)
  {
    k == Subscription || k == Acknowledge || k == SkipBlocks || k == Decrypt
  }

  /** How many words the handler for cmd reads from the host with `io_read`, given the
      words that follow; only 0x5F00 depends on them (main.c:318-365). */
  function Needs(cmd: bv16, rest: seq<bv16>): nat
  {
    match KindOf(cmd)
    case WriteChannels => 10
    case WriteKey => 8
    case Subscription => SubscriptionNeeds(rest)
    case Acknowledge => 4
    case SkipBlocks => 64
    case Decrypt => 16
    case _ => 0
  }

  /** The words 0x5F00 reads: a selector and one more word, and two more after
      selector 2 or 3 (main.c:318-365). */
  function SubscriptionNeeds(rest: seq<bv16>): nat
  {
    if |rest| > 0 && (rest[0] == 2 || rest[0] == 3) then 4 else 2
  }

  /** A command starts where a word with bit 8 set is followed by one with bit 8 clear
      (main.c:479-480). */
  predicate Boundary(a: bv16, b: bv16)
  {
    a & 0x100 == 0x100 && b & 0x100 == 0
  }

  /** The code passed to `_command` (main.c:482): `(a << 8) | b` in 16 bits. */
  function Code(a: bv16, b: bv16): bv16
  {
    (a << 8) | b
  }

  /** The code is the low byte of the first word followed by the second word: bit 8 of
      the first word is shifted out, and at a boundary the second word is a plain byte. */
  lemma CodeBytes(a: bv16, b: bv16)
    ensures Code(a, b) == ((a & 0xFF) << 8) | b
    ensures Boundary(a, b) && b < 0x200 ==> Code(a, b) >> 8 == a & 0xFF && Code(a, b) & 0xFF == b
  {
  }

  /** Every command code is reachable: the host sends its high byte with bit 8 set and
      then its low byte. */
  lemma CodeReachable(cmd: bv16)
    ensures Boundary(0x100 | (cmd >> 8), cmd & 0xFF) && Code(0x100 | (cmd >> 8), cmd & 0xFF) == cmd
  {
  }

  /** The decryption commands select key 1 exactly when bit 5 of the code is set, so
      `(cmd & 0xF0) >> 5` is 0 or 1 (main.c:405). */
  lemma DecryptKeyIndex(cmd: bv16)
    requires KindOf(cmd) == Decrypt
    ensures KeySelect(cmd) <= 1
    ensures (KeySelect(cmd) == 1) == (cmd & 0x20 != 0)
  {
  }

  /** The key index of a decryption command, `(cmd & 0xF0) >> 5` (main.c:405). */
  function KeySelect(cmd: bv16): bv8
  {
    Low((cmd & 0xF0) >> 5)
  }

  /** The mode commands store 0, 1 or 2 (main.c:274-275); the ATR commands store a
      provider number 0, 1 or 2 in the low nibble and 0 or 1 in the high nibble
      (main.c:284-285); the information commands select record 0, 1 or 2
      (main.c:312-314). */
  lemma StoredModes(cmd: bv16)
    ensures KindOf(cmd) == SetCryptMode ==> Low(cmd) <= 2
    ensures KindOf(cmd) == SetAtr ==> Nibble(Low(cmd)) <= 2 && Low(cmd) >> 4 <= 1
    ensures KindOf(cmd) == Info ==> Low(cmd) <= 2
  {
  }

  // ---- constant tables (main.c:47-104) ----

  const Response0200Prde: seq<bv8> := [0xA0, 0x02, 0x1C, 0x38, 0x14, 0x05, 0xFF, 0x14, 0xE1, 0xE5, 0x00]
  const Response0200Cpfr: seq<bv8> := [0xA0, 0x02, 0x18, 0x38, 0x12, 0x00, 0xFF, 0x14, 0x80, 0x83, 0x00]
  const Response0200Cppl: seq<bv8> := [0xA0, 0x02, 0x1C, 0xE0, 0x0C, 0x01, 0xFF, 0x14, 0xE1, 0xE5, 0x00]
  const Response5700: seq<bv8> := [0x01, 0x02, 0x4F, 0x53, 0x30, 0x40, 0x74, 0x72, 0x4B, 0x1D, 0x00]
  const Response5701: seq<bv8> := [0x01, 0x02, 0x00, 0x40, 0x00, 0x00, 0x74, 0x72, 0x4B, 0x1D, 0x00]
  const Response5702: seq<bv8> := [0x01, 0x02, 0x4F, 0x53, 0x30, 0x42, 0x74, 0x72, 0x4B, 0x1D, 0x00]
  const Response5F000000: seq<bv8> := [0x00, 0x01, 0xFF, 0xFF, 0x61, 0x6B, 0xDF, 0xBB, 0x21, 0x80]
  const Response5F000100: seq<bv8> := [0x00, 0x01, 0xFF, 0xFF, 0x60, 0x6A, 0xDF, 0xC1, 0x21, 0xBC]
  const Des11Key: seq<bv8> := [0xC4, 0xA5, 0xA8, 0x18, 0x74, 0x93, 0xC7, 0x65]
  const XteaKeys: seq<seq<bv32>> := [
    [0x00112233, 0x44556677, 0x8899AABB, 0xCCDDEEFF],
    [0xd5784071, 0x48909110, 0x01260c7a, 0xd5579e9d]]

  /** The identification answer of provider p (main.c:260-266). */
  function AtrResponse(p: bv8): (r: seq<bv8>)
    requires p <= 2
    ensures |r| == 11
  {
    if p == 0 then Response0200Prde else if p == 1 then Response0200Cpfr else Response0200Cppl
  }

  /** The three providers identify with three different answers, all of the same
      11-byte shape with first byte 0xA0. */
  lemma AtrResponsesDistinct(p: bv8, q: bv8)
    requires p <= 2 && q <= 2
    ensures AtrResponse(p)[0] == 0xA0
    ensures AtrResponse(p) == AtrResponse(q) ==> p == q
  {
    if p != q {
      assert AtrResponse(p)[2] != AtrResponse(q)[2] || AtrResponse(p)[3] != AtrResponse(q)[3];
    }
  }

  /** The answer to 0x5700 + i (main.c:312-314). */
  function InfoResponse(i: bv8): (r: seq<bv8>)
    requires i <= 2
    ensures |r| == 11
  {
    if i == 0 then Response5700 else if i == 1 then Response5701 else Response5702
  }

  /** The subscription record for selector c (0 or 1) of 0x5F00 (main.c:320-348). */
  function SubscriptionRecord(c: bv16): (r: seq<bv8>)
    requires c <= 1
    ensures |r| == 10
  {
    if c == 0 then Response5F000000 else Response5F000100
  }

  /** The low bytes of a run of words, as the firmware's `(uint8_t)` assignments and
      `& 0xff` masks take them. */
  function LowBytes(w: seq<bv16>): (b: seq<bv8>)
    ensures |b| == |w| && forall k :: 0 <= k < |w| ==> b[k] == Low(w[k])
  {
    seq(|w|, k requires 0 <= k < |w| => Low(w[k]))
  }

  /** The date window loaded at power-on (main.c:469-470): bytes 8..9 of the first
      subscription record and bytes 6..7 of the second, little-endian. */
  lemma DateWindow()
    ensures Le16(Response5F000000[8], Response5F000000[9]) == 0x8021
    ensures Le16(Response5F000100[6], Response5F000100[7]) == 0xC1DF
  {
  }

  // ---- the DES key table `_deskey[8][8]`, stored row after row ----

  /** The row of `_deskey` that `_rand_seed_des` reads (main.c:139): key ki of the
      provider in the low nibble of the ATR index. */
  function KeyRow(ki: bv8, atr: bv8): (r: nat)
    requires ki <= 1 && Nibble(atr) <= 3
    ensures r < 8
  {
    (ki + Nibble(atr) * 2) as nat
  }

  /** Each provider owns a pair of rows: row 2p holds its key 0 and row 2p + 1 its key 1. */
  lemma KeyRowPair(ki: bv8, atr: bv8)
    requires ki <= 1 && Nibble(atr) <= 3
    ensures KeyRow(ki, atr) == 2 * Nibble(atr) as nat + ki as nat
  {
  }

  /** The DES key of main.c:136-140: the fixed key for audience 0x11, otherwise the
      stored row. */
  function DesKeyFor(keys: seq<bv8>, atr: bv8, ki: bv8, aud: bv8): (k: seq<bv8>)
    requires |keys| == 64 && ki <= 1 && Nibble(atr) <= 3
    ensures |k| == 8
  {
    if aud == 0x11 then Des11Key else keys[KeyRow(ki, atr) * 8..KeyRow(ki, atr) * 8 + 8]
  }

  /** What `_update_key(slot)` leaves in the table when the slot exists: row slot
      replaced by k. */
  function StoreKey(keys: seq<bv8>, slot: nat, k: seq<bv8>): (r: seq<bv8>)
    requires |keys| == 64 && |k| == 8
    ensures |r| == 64
  {
    if slot < 8 then keys[..slot * 8] + k + keys[slot * 8 + 8..] else keys
  }

  /** Byte j of the table after StoreKey. */
  lemma StoreKeyAt(keys: seq<bv8>, slot: nat, k: seq<bv8>, j: nat)
    requires |keys| == 64 && |k| == 8 && slot < 8 && j < 64
    ensures StoreKey(keys, slot, k)[j] == if slot * 8 <= j < slot * 8 + 8 then k[j - slot * 8] else keys[j]
  {
    if j < slot * 8 {
      assert StoreKey(keys, slot, k)[j] == keys[..slot * 8][j];
    } else if j >= slot * 8 + 8 {
      assert StoreKey(keys, slot, k)[j] == keys[slot * 8 + 8..][j - slot * 8 - 8];
    }
  }

  /** A stored key is the one a later decryption with that row reads back, and every
      other row keeps its key. */
  lemma StoreKeyReadBack(keys: seq<bv8>, slot: nat, k: seq<bv8>, ki: bv8, atr: bv8, aud: bv8)
    requires |keys| == 64 && |k| == 8 && slot < 8 && ki <= 1 && Nibble(atr) <= 3 && aud != 0x11
    ensures KeyRow(ki, atr) == slot ==> DesKeyFor(StoreKey(keys, slot, k), atr, ki, aud) == k
    ensures KeyRow(ki, atr) != slot ==> DesKeyFor(StoreKey(keys, slot, k), atr, ki, aud) == DesKeyFor(keys, atr, ki, aud)
  {
    var r := KeyRow(ki, atr);
    var s := StoreKey(keys, slot, k);
    if r != slot {
      forall j | r * 8 <= j < r * 8 + 8
        ensures s[j] == keys[j]
      {
        if r < slot {
          assert s[j] == keys[..slot * 8][j];
        } else {
          assert s[j] == keys[slot * 8 + 8..][j - slot * 8 - 8];
        }
      }
    }
  }

  /** The first EEPROM offset, from the start of `_deskey`, that `_update_key` writes for
      a 0x24xx command as the code is written: `&_deskey[ki][0]` with ki = cmd & 0x0F. */
  function KeyOffsetAsWritten(cmd: bv16): nat
  {
    ((cmd & 0x0F) as nat) * 8
  }

  /** The switch accepts slots 8..15, whose writes fall past the 64-byte key table: for
      0x2408 the first written byte is offset 64. */
  lemma KeySlotOverrun()
    ensures KindOf(0x2408) == WriteKey && KeyOffsetAsWritten(0x2408) == 64
    ensures forall cmd :: KindOf(cmd) == WriteKey && cmd & 0x0F >= 8 ==> KeyOffsetAsWritten(cmd) >= 64
  {
    forall cmd | KindOf(cmd) == WriteKey && cmd & 0x0F >= 8
      ensures KeyOffsetAsWritten(cmd) >= 64
    {
      assert (cmd & 0x0F) as nat >= 8;
    }
  }

  // ---- the control word of each mode ----

  /** The DES verdict (main.c:148-154): only cards whose ATR index has high nibble 1
      check, and not for audience 0x11; the answer passes when the date lies in the
      window and the audience byte matches the auxiliary byte. */
  function DesVerdict(atr: bv8, aud: bv8, check: bv8, date: bv16, aux: bv8, lo: bv16, hi: bv16): (c: bv8)
    ensures c != check ==> HighNibble(atr) == 0x10 && aud != 0x11
    ensures HighNibble(atr) == 0x10 && aud != 0x11 ==> (c == 0 <==> lo <= date <= hi && aud == aux)
  {
    if HighNibble(atr) == 0x10 && aud != 0x11 then
      (if date >= lo && date <= hi && aud == aux then 0 else 1)
    else check
  }

  /** Four words as the little-endian number their low bytes spell, built as the loop of
      main.c:172-181 builds it, the last word first. */
  function LeWords(w: seq<bv16>): bv32
    requires |w| <= 4
    decreases |w|
  {
    if |w| == 0 then 0 else ShiftIn(LeWords(w[1..]), w[0])
  }

  /** One step of that loop: `v <<= 8; v |= (w & 0xff)`. */
  function ShiftIn(v: bv32, w: bv16): bv32
  {
    (v << 8) | ((w & 0xFF) as bv32)
  }

  /** Byte i of a 32-bit word as main.c:201-202 extracts it, `(v >> (i*8)) & 0xFF`, with
      the shift written out for each of the four values of i. */
  function ByteOf(v: bv32, i: nat): bv8
    requires i < 4
  {
    if i == 0 then (v & 0xFF) as bv8
    else if i == 1 then ((v >> 8) & 0xFF) as bv8
    else if i == 2 then ((v >> 16) & 0xFF) as bv8
    else ((v >> 24) & 0xFF) as bv8
  }

  /** The extracted bytes are those of Bytes32, lowest first. */
  lemma ByteOfWord(v: bv32, i: nat)
    requires i < 4
    ensures ByteOf(v, i) == Bytes32(v)[i]
  {
  }

  /** The loop's value is Le32 of the low bytes. */
  lemma LeWordsLe32(w: seq<bv16>)
    requires |w| == 4
    ensures LeWords(w) == Le32(LowBytes(w))
  {
    assert w[1..][1..] == w[2..] && w[2..][1..] == w[3..] && w[3..][1..] == [];
  }

  /** The XTEA halves and signature words of a 16-word message (main.c:172-181). */
  datatype XteaBlock = XteaBlock(v0: bv32, v1: bv32, s0: bv32, s1: bv32)

  function XteaParse(w: seq<bv16>): XteaBlock
    requires |w| == 16
  {
    XteaBlock(LeWords(w[4..8]), LeWords(w[0..4]), LeWords(w[12..16]), LeWords(w[8..12]))
  }

  /** The eight bytes `_rand_seed_xtea` leaves in `_ob[1..8]` (main.c:200-203): the bytes
      of v1 then of v0, after the rounds in mode 2. */
  function XteaAnswer(mode: bv8, k: seq<bv32>, b: XteaBlock): (a: seq<bv8>)
    requires |k| == 4
    ensures |a| == 8
  {
    if mode == 2 then
      var t := Xtea.Checked(k, b.v0, b.v1, b.s0, b.s1);
      Bytes32(t.v1) + Bytes32(t.v0)
    else Bytes32(b.v1) + Bytes32(b.v0)
  }

  /** The XTEA verdict: the signature check of mode 2; other modes leave check alone. */
  function XteaVerdict(mode: bv8, k: seq<bv32>, b: XteaBlock, check: bv8): bv8
    requires |k| == 4
  {
    if mode == 2 then (if Xtea.SignatureMatches(k, b.v0, b.v1, b.s0, b.s1) then 0 else 1)
    else check
  }

  /** Outside mode 2 the XTEA path does no rounds: the control word is the first eight
      bytes of the message, unchanged. */
  lemma XteaPassThrough(mode: bv8, k: seq<bv32>, w: seq<bv16>)
    requires |k| == 4 && |w| == 16 && mode != 2
    ensures XteaAnswer(mode, k, XteaParse(w)) == LowBytes(w[..8])
    ensures XteaVerdict(mode, k, XteaParse(w), 0) == 0 && XteaVerdict(mode, k, XteaParse(w), 1) == 1
  {
    LeWordsLe32(w[0..4]);
    LeWordsLe32(w[4..8]);
    Le32Bytes32(0, LowBytes(w[0..4]));
    Le32Bytes32(0, LowBytes(w[4..8]));
    assert LowBytes(w[..8]) == LowBytes(w[0..4]) + LowBytes(w[4..8]);
  }

  /** In mode 2 a rejected message leaves the halves of round eight, which differ from
      the signature words; an accepted one leaves the full 32 rounds. */
  lemma XteaSignedAnswer(k: seq<bv32>, b: XteaBlock)
    requires |k| == 4
    ensures XteaVerdict(2, k, b, 0) == 0 ==>
      XteaAnswer(2, k, b) == Bytes32(Xtea.Rounds(k, Xtea.State(b.v0, b.v1, 0), 32).v1)
                             + Bytes32(Xtea.Rounds(k, Xtea.State(b.v0, b.v1, 0), 32).v0)
    ensures XteaVerdict(2, k, b, 0) == 1 ==>
      XteaAnswer(2, k, b) == Bytes32(Xtea.Rounds(k, Xtea.State(b.v0, b.v1, 0), 8).v1)
                             + Bytes32(Xtea.Rounds(k, Xtea.State(b.v0, b.v1, 0), 8).v0)
      && (Xtea.Rounds(k, Xtea.State(b.v0, b.v1, 0), 8).v0 != b.s0
          || Xtea.Rounds(k, Xtea.State(b.v0, b.v1, 0), 8).v1 != b.s1)
  {
  }

  /** The XTEA key `_xtea_key[ki % 2]` (main.c:169-171). */
  function XteaKeyFor(ki: bv8): (k: seq<bv32>)
    ensures |k| == 4
  {
    XteaKeys[(ki % 2) as nat]
  }

  ghost function DecryptAnswer(mode: bv8, keys: seq<bv8>, atr: bv8, ki: bv8, aud: bv8, w: seq<bv16>): (a: seq<bv8>)
    requires |keys| == 64 && Nibble(atr) <= 3 && ki <= 1 && |w| == 16
    ensures |a| == 8
  {
    if mode == 0 then SysterDes.SysterCw(LowBytes(w), DesKeyFor(keys, atr, ki, aud))
    else XteaAnswer(mode, XteaKeyFor(ki), XteaParse(w))
  }

  /** The value of `check` after the 0x06xx handler's cipher call. */
  ghost function DecryptVerdict(mode: bv8, keys: seq<bv8>, atr: bv8, ki: bv8, aud: bv8, w: seq<bv16>,
                                check: bv8, lo: bv16, hi: bv16): bv8
    requires |keys| == 64 && Nibble(atr) <= 3 && ki <= 1 && |w| == 16
  {
    if mode == 0 then
      var ib := LowBytes(w);
      var k := DesKeyFor(keys, atr, ki, aud);
      DesVerdict(atr, aud, check, SysterDes.DateOf(SysterDes.DecodedHalf(ib, k, 1)),
                 SysterDes.DecodedHalf(ib, k, 0)[6], lo, hi)
    else XteaVerdict(mode, XteaKeyFor(ki), XteaParse(w), check)
  }

  /** The verdict only moves away from its old value by a check that ran: a DES check
      (ATR high nibble 1, audience not 0x11) or the mode-2 signature check. */
  lemma VerdictSources(mode: bv8, keys: seq<bv8>, atr: bv8, ki: bv8, aud: bv8, w: seq<bv16>,
                       check: bv8, lo: bv16, hi: bv16)
    requires |keys| == 64 && Nibble(atr) <= 3 && ki <= 1 && |w| == 16
    ensures DecryptVerdict(mode, keys, atr, ki, aud, w, check, lo, hi) != check ==>
      (mode == 0 && HighNibble(atr) == 0x10 && aud != 0x11) || mode == 2
  {
  }
}
