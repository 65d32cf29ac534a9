/*
  The card itself (main.c): the RAM registers and the answer buffer `_ob`, the
  EEPROM cells the handlers rewrite (the crypt mode, the ATR index, the DES key
  table `_deskey` and the channel record `_response_0201`), the handlers of
  `_command`, the two cipher front ends `_rand_seed_des` and `_rand_seed_xtea`,
  and one turn of the main loop.  The serial line to the decoder is a Line object:
  the words the decoder will send and the trace of words the card has sent.
*/
module Card {
  import opened Bits
  import opened AnswerQueue
  import opened Commands
  import SysterDes
  import Xtea

  /** The 9-bit serial line: `io_read` takes the next word the decoder sends and
      `io_write` appends to what the card has answered. */
  class Line {
    var input: seq<bv16>
    var output: seq<bv16>

    constructor (words: seq<bv16>)
      ensures input == words && output == []
    {
      input := words;
      output := [];
    }

    /** `io_read()` */
    method Read() returns (w: bv16)
      requires |input| > 0
      modifies this
      ensures w == old(input)[0] && input == old(input)[1..] && output == old(output)
    {
      w := input[0];
      input := input[1..];
    }

    /** `io_write(w)` */
    method Write(w: bv16)
      modifies this
      ensures output == old(output) + [w] && input == old(input)
    {
      output := output + [w];
    }
  }

  /** The card's scalar registers, to state which of them an operation changes. */
  datatype Registers = Registers(obX: nat, obLen: nat, check: bv8, cryptmode: bv8, keyindex: bv8,
                                 atrindex: bv8, mindate: bv16, maxdate: bv16, prev: bv16, cur: bv16,
                                 eeCryptmode: bv8, eeAtrindex: bv8)

  /** The card and its line at one instant, as values: the words still to be read, the
      words sent, the registers, `_ob`, the key table and the channel record. */
  datatype Snapshot = Snapshot(input: seq<bv16>, output: seq<bv16>, regs: Registers,
                               ob: seq<bv16>, deskey: seq<bv8>, channels: seq<bv8>)

  /** The shape every snapshot of a running card has. */
  predicate WellFormed(s: Snapshot)
  {
    |s.ob| == 16 && |s.deskey| == 64 && |s.channels| == 11
    && s.regs.obX < 16 && s.regs.obLen <= 16 && Nibble(s.regs.atrindex) <= 3
  }

  /** The pending answer words of a snapshot, oldest first. */
  function Pending(s: Snapshot): seq<bv16>
    requires WellFormed(s)
  {
    Queue(s.ob, s.regs.obX, s.regs.obLen)
  }

  /** Whether t is what the handler of `_command(cmd)` (main.c:241-450) leaves when it
      starts from s: the words it sends, and the registers, answer buffer and EEPROM
      cells it changes.  The words it reads are `Needs(cmd, s.input)`. */
  ghost predicate Handled(cmd: bv16, s: Snapshot, t: Snapshot)
  {
    WellFormed(s) && WellFormed(t)
    && (if Configures(KindOf(cmd)) then Needs(cmd, s.input) <= |s.input| && Configured(cmd, s, t)
        else if Answers(KindOf(cmd)) || KindOf(cmd) == Pop then Answered(cmd, s, t)
        else if Transfers(KindOf(cmd)) then Needs(cmd, s.input) <= |s.input| && Transferred(cmd, s, t)
        else t.output == s.output + [0x101] && t.regs == s.regs && t.ob == s.ob
             && t.deskey == s.deskey && t.channels == s.channels)
  }

  /** The handlers that store what they receive (main.c:243-258, 269-311). */
  predicate Configured(cmd: bv16, s: Snapshot, t: Snapshot)
    requires WellFormed(s) && WellFormed(t) && Needs(cmd, s.input) <= |s.input|
  {
    match KindOf(cmd)
    case WriteChannels => ChannelsWritten(s, t)
    case SetCryptMode => CryptModeSet(Low(cmd), s, t)
    case SetAtr => AtrSet(Low(cmd), s, t)
    case WriteKey => KeyWritten(Nibble(Low(cmd)), s, t)
    case _ => false
  }

  /** The handlers that answer from the card's tables or from the answer buffer
      (main.c:259-268, 312-314, 432-445). */
  predicate Answered(cmd: bv16, s: Snapshot, t: Snapshot)
    requires WellFormed(s) && WellFormed(t)
  {
    match KindOf(cmd)
    case Identify => Identified(s, t)
    case ReadChannels => ChannelsRead(s, t)
    case Info => Low(cmd) <= 2 && Informed(Low(cmd), s, t)
    case Pop => Popped(s, t)
    case _ => false
  }

  /** The handlers that read a message from the host (main.c:315-431). */
  ghost predicate Transferred(cmd: bv16, s: Snapshot, t: Snapshot)
    requires WellFormed(s) && WellFormed(t) && Needs(cmd, s.input) <= |s.input|
  {
    match KindOf(cmd)
    case Subscription => Subscribed(s, t)
    case Acknowledge => Acknowledged(s, t)
    case SkipBlocks => BlocksSkipped(s, t)
    case Decrypt => Decrypted(cmd, s, t)
    case _ => false
  }

  /** 0x0100 (main.c:243-258): the eight words become the channel bytes 2..9 and the
      first eight buffer words. */
  predicate ChannelsWritten(s: Snapshot, t: Snapshot)
    requires WellFormed(s) && WellFormed(t) && |s.input| >= 10
  {
    t.output == s.output + [0x101] + Repeat(0x101, 4) + [0x100] && t.regs == s.regs
    && (forall j :: 0 <= j < 16 ==> t.ob[j] == if j < 8 then s.input[j] else s.ob[j])
    && (forall j :: 0 <= j < 11 ==> t.channels[j] == if 2 <= j < 10 then Low(s.input[j - 2]) else s.channels[j])
    && t.deskey == s.deskey
  }

  /** 0x0400 - 0x0402 (main.c:269-275): mode m in RAM and EEPROM. */
  predicate CryptModeSet(m: bv8, s: Snapshot, t: Snapshot)
  {
    t.output == s.output + [0x1FF] && t.regs == s.regs.(cryptmode := m, eeCryptmode := m)
    && t.ob == s.ob && t.deskey == s.deskey && t.channels == s.channels
  }

  /** 0x1400 - 0x1412 (main.c:276-285): ATR index a in RAM and EEPROM. */
  predicate AtrSet(a: bv8, s: Snapshot, t: Snapshot)
  {
    t.output == s.output + [0x1FF] && t.regs == s.regs.(atrindex := a, eeAtrindex := a)
    && t.ob == s.ob && t.deskey == s.deskey && t.channels == s.channels
  }

  /** 0x2400 - 0x240F (main.c:286-311): the eight words in the buffer and, by their low
      bytes, in key row k. */
  predicate KeyWritten(k: bv8, s: Snapshot, t: Snapshot)
    requires WellFormed(s) && WellFormed(t) && |s.input| >= 8
  {
    t.output == s.output + [0x1FF] + Repeat(0x124, 4) && t.regs == s.regs.(keyindex := k)
    && (forall j :: 0 <= j < 16 ==> t.ob[j] == if j < 8 then s.input[j] else s.ob[j])
    && t.deskey == StoreKey(s.deskey, k as nat, LowBytes(s.input[..8]))
    && t.channels == s.channels
  }

  /** What `_io_response_*(data)` (main.c:208-234) leaves: byte 0 sent with bit 8 set,
      and bytes 1..10 framed behind the pending words. */
  predicate Responded(data: seq<bv8>, s: Snapshot, t: Snapshot)
    requires WellFormed(s) && WellFormed(t) && |data| == 11
  {
    t.output == s.output + [Mark(Word(data[0]))] && t.regs == s.regs.(obLen := s.regs.obLen + 10)
    && Pending(t) == Framed(Pending(s) + Widen(data[1..]))
    && t.deskey == s.deskey && t.channels == s.channels
  }

  /** 0x0200 (main.c:259-267): the ATR of the provider nibble, or nothing. */
  predicate Identified(s: Snapshot, t: Snapshot)
    requires WellFormed(s) && WellFormed(t)
  {
    if Nibble(s.regs.atrindex) <= 2 then Responded(AtrResponse(Nibble(s.regs.atrindex)), s, t)
    else t == s
  }

  /** 0x0201 (main.c:268): the channel record. */
  predicate ChannelsRead(s: Snapshot, t: Snapshot)
    requires WellFormed(s) && WellFormed(t)
  {
    Responded(s.channels, s, t)
  }

  /** 0x5700 - 0x5702 (main.c:312-314): information record i. */
  predicate Informed(i: bv8, s: Snapshot, t: Snapshot)
    requires WellFormed(s) && WellFormed(t) && i <= 2
  {
    Responded(InfoResponse(i), s, t)
  }

  /** 0xFFFF (main.c:432-445): the oldest pending word, or 0x101 when none is pending. */
  predicate Popped(s: Snapshot, t: Snapshot)
    requires WellFormed(s) && WellFormed(t)
  {
    t.ob == s.ob && t.deskey == s.deskey && t.channels == s.channels
    && if s.regs.obLen > 0 then
      t.output == s.output + [Pending(s)[0]] && Pending(t) == Pending(s)[1..]
      && t.regs == s.regs.(obX := Pos(s.regs.obX, 1), obLen := s.regs.obLen - 1)
    else t.output == s.output + [0x101] && t.regs == s.regs
  }

  /** 0x5F00 (main.c:315-367), by its selector word. */
  predicate Subscribed(s: Snapshot, t: Snapshot)
    requires WellFormed(s) && WellFormed(t) && |s.input| >= 2
  {
    t.deskey == s.deskey && t.channels == s.channels
    && if s.input[0] <= 1 then
      t.output == s.output + [0x101, 0x101] && t.regs == s.regs.(obX := 0, obLen := 11)
      && Pending(t) == [0x102] + Widen(SubscriptionRecord(s.input[0])[1..]) + [0x100]
      && t.ob[11..] == s.ob[11..]
    else if s.input[0] <= 3 then
      t.output == s.output + [0x101, 0x101, 0x14A] && t.regs == s.regs && t.ob == s.ob
    else t.output == s.output + [0x101] && t.regs == s.regs && t.ob == s.ob
  }

  /** 0x5E00 - 0x5E02, 0x5F01, 0x5F02 (main.c:368-383). */
  predicate Acknowledged(s: Snapshot, t: Snapshot)
  {
    t.output == s.output + [0x101, 0x101, 0x14A]
    && t.regs == s.regs && t.ob == s.ob && t.deskey == s.deskey && t.channels == s.channels
  }

  /** 0x0500, 0x0501 (main.c:384-395). */
  predicate BlocksSkipped(s: Snapshot, t: Snapshot)
  {
    t.output == s.output + [0x101] + Repeat(0x101, 32)
    && t.regs == s.regs && t.ob == s.ob && t.deskey == s.deskey && t.channels == s.channels
  }

  /** 0x06xx (main.c:396-431): the sixteen words deciphered with key `(cmd & 0xF0) >> 5`. */
  ghost predicate Decrypted(cmd: bv16, s: Snapshot, t: Snapshot)
    requires WellFormed(s) && WellFormed(t) && KindOf(cmd) == Decrypt && |s.input| >= 16
  {
    DecryptKeyIndex(cmd);
    t.output == s.output + [0x101] + Repeat(0x101, 8) && t.deskey == s.deskey && t.channels == s.channels
    && Deciphered(s.regs.(keyindex := KeySelect(cmd)), s.deskey, Low(cmd), s.input[..16], t.regs, t.ob)
  }

  /** What the decryption leaves (main.c:417-431) when the registers were r, the key table
      keys and the message w: the verdict, and the queue holding 0x106, the answer and
      0x102 on verdict 0, or 0x10A alone. */
  ghost predicate Deciphered(r: Registers, keys: seq<bv8>, aud: bv8, w: seq<bv16>, regs: Registers, ob: seq<bv16>)
    requires |keys| == 64 && Nibble(r.atrindex) <= 3 && r.keyindex <= 1 && |w| == 16 && |ob| == 16
  {
    var c := DecryptVerdict(r.cryptmode, keys, r.atrindex, r.keyindex, aud, w, r.check, r.mindate, r.maxdate);
    var a := DecryptAnswer(r.cryptmode, keys, r.atrindex, r.keyindex, aud, w);
    regs == r.(check := c, obX := 0, obLen := if c == 0 then 10 else 1)
    && Queue(ob, 0, regs.obLen) == (if c == 0 then [0x106] + Widen(a) + [0x102] else [0x10A])
    && ob[1..9] == Widen(a)
    && (c != 0 ==> ob[9] == w[9])
    && ob[10..] == w[10..]
  }

  /** The call `_get_syster_cw(ib, key64, ob)` of `_rand_seed_des` (main.c:146), with
      its local result array `ob[9]`: the control word, the date and the auxiliary byte. */
  method DesControlWord(ib: seq<bv8>, key: seq<bv8>) returns (cw: seq<bv8>, date: bv16, aux: bv8)
    requires |ib| == 16 && |key| == 8
    ensures cw == SysterDes.SysterCw(ib, key)
    ensures date == SysterDes.DateOf(SysterDes.DecodedHalf(ib, key, 1))
    ensures aux == SysterDes.DecodedHalf(ib, key, 0)[6]
  {
    var out := new bv8[9];
    date := SysterDes.GetSysterCw(ib, key, out);
    cw := out[..8];
    aux := out[8];
  }

  /** The round block of `_rand_seed_xtea` (main.c:182-198): the signed rounds in mode 2
      and nothing in the other modes; c is the new value of `check`. */
  method XteaCipher(mode: bv8, k: seq<bv32>, b: XteaBlock, check: bv8) returns (v0: bv32, v1: bv32, c: bv8)
    requires |k| == 4
    ensures Bytes32(v1) + Bytes32(v0) == XteaAnswer(mode, k, b)
    ensures c == XteaVerdict(mode, k, b, check)
  {
    v0, v1, c := b.v0, b.v1, check;
    if mode == 2 {
      var matched;
      v0, v1, matched := Xtea.SignedEncipher(k, v0, v1, b.s0, b.s1);
      c := if matched then 0 else 1;
    }
  }

  class SysterCard {
    const line: Line
    /** `_ob` */
    const ob: array<bv16>
    /** `_ob_x`, `_ob_len`, `check`, `cryptmode`, `keyindex`, `atrindex`, `_mindate`,
        `_maxdate`, the variables a and b of `main` and the EEPROM cells `_cryptmode` and
        `_atrindex` */
    var regs: Registers
    /** the EEPROM table `_deskey[8][8]`, row after row */
    const deskey: array<bv8>
    /** the EEPROM record `_response_0201`, whose bytes 2..9 are the channels */
    const channels: array<bv8>
    /** the command codes handled so far */
    ghost var commands: seq<bv16>

    ghost predicate Valid()
      reads this
    {
      ob.Length == 16 && deskey.Length == 64 && channels.Length == 11 && deskey != channels
      && regs.obX < 16 && regs.obLen <= 16 && Nibble(regs.atrindex) <= 3
    }

    /** The answer words waiting for 0xFFFF, oldest first. */
    ghost function Contents(): seq<bv16>
      requires Valid()
      reads this, ob
    {
      Queue(ob[..], regs.obX, regs.obLen)
    }

    /** The card and its line as values. */
    ghost function Snap(): (s: Snapshot)
      reads this`regs, line, ob, deskey, channels
      ensures Valid() ==> WellFormed(s) && Pending(s) == Contents()
    {
      Snapshot(line.input, line.output, regs, ob[..], deskey[..], channels[..])
    }

    /** Power-on (main.c:454-472): the registers start at zero, the mode and the ATR index
        are read from EEPROM, and the date window from the two subscription records. */
    constructor (host: Line, eeMode: bv8, eeAtr: bv8, keys: seq<bv8>, chans: seq<bv8>)
      requires |keys| == 64 && |chans| == 11 && Nibble(eeAtr) <= 3
      ensures Valid() && line == host && fresh(ob) && fresh(deskey) && fresh(channels)
      ensures regs == Registers(0, 0, 0, eeMode, 0, eeAtr, 0x8021, 0xC1DF, 0, 0, eeMode, eeAtr)
      ensures Contents() == [] && ob[..] == Repeat(0, 16)
      ensures deskey[..] == keys && channels[..] == chans && commands == []
    {
      line := host;
      ob := new bv16[16](_ => 0);
      deskey := new bv8[64](i requires 0 <= i < 64 => keys[i]);
      channels := new bv8[11](i requires 0 <= i < 11 => chans[i]);
      DateWindow();
      regs := Registers(0, 0, 0, eeMode, 0, eeAtr,
                        Le16(Response5F000000[8], Response5F000000[9]),
                        Le16(Response5F000100[6], Response5F000100[7]), 0, 0, eeMode, eeAtr);
      commands := [];
    }

    /** 0xFFFF (main.c:432-445): send the oldest pending answer word, or 0x101 when none
        is pending. */
    method OnPop()
      requires Valid()
      modifies this, line
      ensures Valid() && line.input == old(line.input) && commands == old(commands)
      ensures old(regs.obLen) > 0 ==>
        line.output == old(line.output) + [old(Contents())[0]] && Contents() == old(Contents())[1..]
        && regs == old(regs).(obX := Pos(old(regs.obX), 1), obLen := old(regs.obLen) - 1)
      ensures old(regs.obLen) == 0 ==> line.output == old(line.output) + [0x101] && regs == old(regs)
      ensures Popped(old(Snap()), Snap())
    {
      var c: bv16 := 0x101;
      if regs.obLen > 0 {
        QueueAdvance(ob[..], regs.obX, regs.obLen);
        c := ob[regs.obX];
        regs := regs.(obX := Pos(regs.obX, 1), obLen := regs.obLen - 1);
      }
      line.Write(c);
    }

    /** `_io_response_pgm(data)` and `_io_response_ee(data)` (main.c:208-234): bytes
        1..10 are queued behind the pending words, bit 8 is set on the first pending word
        and on the tenth, and byte 0 goes out at once with bit 8 set. */
    method Respond(data: seq<bv8>)
      requires Valid() && |data| == 11 && regs.obLen <= 6
      modifies this, line, ob
      ensures Valid() && line.input == old(line.input) && commands == old(commands)
      ensures line.output == old(line.output) + [Mark(Word(data[0]))]
      ensures regs == old(regs).(obLen := old(regs.obLen) + 10)
      ensures Contents() == Framed(old(Contents()) + Widen(data[1..]))
      ensures forall m :: 0 <= m < 16 && !InQueue(regs.obX, regs.obLen, m) ==> ob[m] == old(ob[m])
    {
      ghost var s := ob[..];
      ghost var n := regs.obLen;
      PushBytes(data);
      PushedQueue(s, regs.obX, n, data[1..]);
      ghost var pushed := ob[..];
      MarkFrame();
      forall m | 0 <= m < 16 && !InQueue(regs.obX, regs.obLen, m)
        ensures ob[m] == s[m]
      {
        PushedOutside(s, regs.obX, n, data[1..], m);
        PosOff(regs.obX, 0, m);
        PosOff(regs.obX, 9, m);
        assert ob[m] == pushed[m];
      }
      line.Write(Mark(Word(data[0])));
    }

    /** The loop of main.c:211-215: bytes 1..10 of data written behind the pending words. */
    method PushBytes(data: seq<bv8>)
      requires Valid() && |data| == 11 && regs.obLen <= 6
      modifies this, ob
      ensures Valid() && commands == old(commands)
      ensures regs == old(regs).(obLen := old(regs.obLen) + 10)
      ensures ob[..] == Pushed(old(ob[..]), Pos(regs.obX, old(regs.obLen)), data[1..])
    {
      ghost var s := ob[..];
      ghost var at := Pos(regs.obX, regs.obLen);
      var i := 1;
      while i < 11
        invariant 1 <= i <= 11
        invariant regs == old(regs).(obLen := old(regs.obLen) + i - 1)
        invariant ob[..] == Pushed(s, at, data[1..i])
        invariant commands == old(commands)
        modifies this, ob
      {
        ghost var d := data[1..i + 1];
        assert d[..|d| - 1] == data[1..i];
        assert Pos(regs.obX, regs.obLen) == Pos(at, i - 1);
        ob[Pos(regs.obX, regs.obLen)] := Word(data[i]);
        regs := regs.(obLen := regs.obLen + 1);
        i := i + 1;
      }
      assert data[1..i] == data[1..];
    }

    /** The marks of main.c:216-217: bit 8 on the first and on the tenth pending word. */
    method MarkFrame()
      requires Valid() && regs.obLen >= 10
      modifies ob
      ensures Contents() == Framed(old(Contents()))
      ensures forall m :: 0 <= m < 16 && m != regs.obX && m != Pos(regs.obX, 9) ==> ob[m] == old(ob[m])
    {
      ghost var s := ob[..];
      var x := regs.obX;
      ob[x] := Mark(ob[x]);
      ob[Pos(x, 9)] := Mark(ob[Pos(x, 9)]);
      assert ob[..] == s[x := Mark(s[x])][Pos(x, 9) := Mark(s[Pos(x, 9)])];
      FramedQueue(s, x, regs.obLen);
    }

    /** The receiving loops of main.c:247-252, 305-310 and 410-415: pairs of words from
        the decoder into `_ob[0..2*pairs-1]`, each pair acknowledged with ack. */
    method Receive(pairs: nat, ack: bv16)
      requires Valid() && pairs <= 8 && |line.input| >= 2 * pairs
      modifies line, ob
      ensures line.input == old(line.input)[2 * pairs..]
      ensures line.output == old(line.output) + Repeat(ack, pairs)
      ensures forall j :: 0 <= j < 16 ==> ob[j] == if j < 2 * pairs then old(line.input)[j] else old(ob[j])
    {
      var i := 0;
      ghost var p := 0;
      while i < 2 * pairs
        invariant 0 <= p <= pairs && i == 2 * p
        invariant line.input == old(line.input)[i..]
        invariant line.output == old(line.output) + Repeat(ack, p)
        invariant forall j :: 0 <= j < 16 ==> ob[j] == if j < i then old(line.input)[j] else old(ob[j])
        modifies line, ob
      {
        ReceivePair(i, ack);
        i := i + 2;
        p := p + 1;
      }
    }

    /** One pass of those loops: two words into `_ob[i]` and `_ob[i+1]`, then ack. */
    method ReceivePair(i: nat, ack: bv16)
      requires Valid() && i < 15 && |line.input| >= 2
      modifies line, ob
      ensures line.input == old(line.input)[2..] && line.output == old(line.output) + [ack]
      ensures forall j :: 0 <= j < 16 ==>
        ob[j] == if j == i then old(line.input)[0] else if j == i + 1 then old(line.input)[1] else old(ob[j])
    {
      var w := line.Read();
      ob[i] := w;
      w := line.Read();
      ob[i + 1] := w;
      line.Write(ack);
    }

    /** `_update_channels()` (main.c:117-122): the low bytes of `_ob[0..7]` become the
        channel bytes 2..9 of `_response_0201`. */
    method UpdateChannels()
      requires Valid()
      modifies channels
      ensures forall j :: 0 <= j < 11 ==>
        channels[j] == if 2 <= j < 10 then Low(ob[j - 2]) else old(channels[j])
    {
      var i := 0;
      while i < 8
        invariant 0 <= i <= 8
        invariant forall j :: 0 <= j < 11 ==>
          channels[j] == if 2 <= j < i + 2 then Low(ob[j - 2]) else old(channels[j])
      {
        channels[i + 2] := Low(ob[i]);
        i := i + 1;
      }
    }

    /** `_update_key(ki)` (main.c:124-129) for a slot of the table: the low bytes of
        `_ob[0..7]` become key row ki. */
    method UpdateKey(ki: bv8)
      requires Valid() && ki < 8
      modifies deskey
      ensures deskey[..] == StoreKey(old(deskey[..]), ki as nat, LowBytes(ob[..8]))
    {
      var row := ki as nat;
      var i := 0;
      while i < 8
        invariant 0 <= i <= 8
        invariant forall j :: 0 <= j < 64 ==>
          deskey[j] == if row * 8 <= j < row * 8 + i then Low(ob[j - row * 8]) else old(deskey[j])
      {
        deskey[row * 8 + i] := Low(ob[i]);
        i := i + 1;
      }
      forall j | 0 <= j < 64
        ensures deskey[j] == StoreKey(old(deskey[..]), row, LowBytes(ob[..8]))[j]
      {
        StoreKeyAt(old(deskey[..]), row, LowBytes(ob[..8]), j);
      }
    }

    /** 0x0100, 0x0101 (main.c:243-258): eight channel bytes from the decoder, stored,
        then two more words ignored. */
    method OnWriteChannels()
      requires Valid() && |line.input| >= 10
      modifies line, ob, channels
      ensures line.input == old(line.input)[10..]
      ensures line.output == old(line.output) + [0x101] + Repeat(0x101, 4) + [0x100]
      ensures forall j :: 0 <= j < 16 ==> ob[j] == if j < 8 then old(line.input)[j] else old(ob[j])
      ensures forall j :: 0 <= j < 11 ==>
        channels[j] == if 2 <= j < 10 then Low(old(line.input)[j - 2]) else old(channels[j])
      ensures ChannelsWritten(old(Snap()), Snap())
    {
      line.Write(0x101);
      Receive(4, 0x101);
      UpdateChannels();
      var ignored := line.Read();
      ignored := line.Read();
      line.Write(0x100);
    }

    /** 0x0200 (main.c:259-267): the ATR of the provider in the low nibble of the ATR
        index, or nothing at all for a nibble above 2. */
    method OnIdentify()
      requires Valid() && regs.obLen <= 6
      modifies this, line, ob
      ensures Valid() && line.input == old(line.input) && commands == old(commands)
      ensures Nibble(regs.atrindex) <= 2 ==>
        var r := AtrResponse(Nibble(regs.atrindex));
        line.output == old(line.output) + [Mark(Word(r[0]))]
        && Contents() == Framed(old(Contents()) + Widen(r[1..]))
        && regs == old(regs).(obLen := old(regs.obLen) + 10)
      ensures Nibble(regs.atrindex) > 2 ==>
        line.output == old(line.output) && regs == old(regs) && ob[..] == old(ob[..])
      ensures Identified(old(Snap()), Snap())
    {
      var p := Nibble(regs.atrindex);
      if p == 0 {
        Respond(Response0200Prde);
      } else if p == 1 {
        Respond(Response0200Cpfr);
      } else if p == 2 {
        Respond(Response0200Cppl);
      }
    }

    /** 0x0201 (main.c:268): the channel record, as stored in EEPROM. */
    method OnReadChannels()
      requires Valid() && regs.obLen <= 6
      modifies this, line, ob
      ensures Valid() && line.input == old(line.input) && commands == old(commands)
      ensures line.output == old(line.output) + [Mark(Word(channels[0]))]
      ensures Contents() == Framed(old(Contents()) + Widen(channels[1..]))
      ensures regs == old(regs).(obLen := old(regs.obLen) + 10)
      ensures ChannelsRead(old(Snap()), Snap())
    {
      Respond(channels[..]);
      assert channels[..][1..] == channels[1..];
    }

    /** 0x0400 - 0x0402 (main.c:269-275): select crypt mode `cmd & 0xFF`, in RAM and EEPROM. */
    method OnSetCryptMode(cmd: bv16)
      requires Valid() && KindOf(cmd) == SetCryptMode
      modifies this, line
      ensures Valid() && commands == old(commands)
      ensures line.input == old(line.input) && line.output == old(line.output) + [0x1FF]
      ensures regs == old(regs).(cryptmode := Low(cmd), eeCryptmode := Low(cmd))
      ensures regs.cryptmode <= 2
      ensures CryptModeSet(Low(cmd), old(Snap()), Snap())
    {
      StoredModes(cmd);
      line.Write(0x1FF);
      regs := regs.(cryptmode := Low(cmd), eeCryptmode := Low(cmd));
    }

    /** 0x1400 - 0x1402, 0x1410 - 0x1412 (main.c:276-285): select ATR index `cmd & 0xFF`. */
    method OnSetAtr(cmd: bv16)
      requires Valid() && KindOf(cmd) == SetAtr
      modifies this, line
      ensures Valid() && commands == old(commands)
      ensures line.input == old(line.input) && line.output == old(line.output) + [0x1FF]
      ensures regs == old(regs).(atrindex := Low(cmd), eeAtrindex := Low(cmd))
      ensures Nibble(regs.atrindex) <= 2 && regs.atrindex >> 4 <= 1
      ensures AtrSet(Low(cmd), old(Snap()), Snap())
    {
      StoredModes(cmd);
      line.Write(0x1FF);
      regs := regs.(atrindex := Low(cmd), eeAtrindex := Low(cmd));
    }

    /** 0x2400 - 0x240F (main.c:286-311): eight key bytes from the decoder, stored as key
        row `cmd & 0x0F`.  A slot past the table's eight rows stores nothing. */
    method OnWriteKey(cmd: bv16)
      requires Valid() && KindOf(cmd) == WriteKey && |line.input| >= 8
      modifies this, line, ob, deskey
      ensures Valid() && commands == old(commands)
      ensures regs == old(regs).(keyindex := Nibble(Low(cmd)))
      ensures line.input == old(line.input)[8..]
      ensures line.output == old(line.output) + [0x1FF] + Repeat(0x124, 4)
      ensures forall j :: 0 <= j < 16 ==> ob[j] == if j < 8 then old(line.input)[j] else old(ob[j])
      ensures deskey[..] == StoreKey(old(deskey[..]), Nibble(Low(cmd)) as nat, LowBytes(old(line.input)[..8]))
      ensures KeyWritten(Nibble(Low(cmd)), old(Snap()), Snap())
    {
      line.Write(0x1FF);
      var ki := Nibble(Low(cmd));
      regs := regs.(keyindex := ki);
      Receive(4, 0x124);
      assert ob[..8] == old(line.input)[..8];
      if ki < 8 {
        UpdateKey(ki);
      }
    }

    /** 0x5700 - 0x5702 (main.c:312-314): the information record `0x57` + `cmd & 0xFF`. */
    method OnInfo(cmd: bv16)
      requires Valid() && KindOf(cmd) == Info && regs.obLen <= 6
      modifies this, line, ob
      ensures Valid() && line.input == old(line.input) && commands == old(commands)
      ensures Low(cmd) <= 2
      ensures var r := InfoResponse(Low(cmd));
        line.output == old(line.output) + [Mark(Word(r[0]))]
        && Contents() == Framed(old(Contents()) + Widen(r[1..]))
        && regs == old(regs).(obLen := old(regs.obLen) + 10)
      ensures Informed(Low(cmd), old(Snap()), Snap())
    {
      StoredModes(cmd);
      Respond(InfoResponse(Low(cmd)));
    }

    /** 0x5F00 (main.c:315-367): a selector word and one ignored word; selectors 0 and 1
        replace the buffer by the framed subscription record, 2 and 3 take two more words
        and answer 0x14A, any other selector ends the command. */
    method OnSubscription()
      requires Valid() && |line.input| >= SubscriptionNeeds(line.input)
      modifies this, line, ob
      ensures Valid() && commands == old(commands)
      ensures line.input == old(line.input)[SubscriptionNeeds(old(line.input))..]
      ensures old(line.input)[0] <= 1 ==>
        line.output == old(line.output) + [0x101, 0x101]
        && Contents() == [0x102] + Widen(SubscriptionRecord(old(line.input)[0])[1..]) + [0x100]
        && regs == old(regs).(obX := 0, obLen := 11)
        && ob[11..] == old(ob[11..])
      ensures old(line.input)[0] == 2 || old(line.input)[0] == 3 ==>
        line.output == old(line.output) + [0x101, 0x101, 0x14A] && regs == old(regs)
        && ob[..] == old(ob[..])
      ensures old(line.input)[0] > 3 ==>
        line.output == old(line.output) + [0x101] && regs == old(regs) && ob[..] == old(ob[..])
      ensures Subscribed(old(Snap()), Snap())
    {
      line.Write(0x101);
      var c := line.Read();
      var ignored := line.Read();
      if c == 0 || c == 1 {
        line.Write(0x101);
        LoadRecord(SubscriptionRecord(c));
      } else if c == 2 || c == 3 {
        line.Write(0x101);
        ignored := line.Read();
        ignored := line.Read();
        line.Write(0x14A);
      }
    }

    /** The answer of selectors 0 and 1 (main.c:322-333): bytes 1..9 of the record framed
        by 0x102 and 0x100, in place of whatever was pending. */
    method LoadRecord(rec: seq<bv8>)
      requires Valid() && |rec| == 10
      modifies this, ob
      ensures Valid() && commands == old(commands)
      ensures regs == old(regs).(obX := 0, obLen := 11)
      ensures Contents() == [0x102] + Widen(rec[1..]) + [0x100]
      ensures ob[11..] == old(ob[11..])
    {
      regs := regs.(obX := 0, obLen := 0);
      var i := 1;
      while i < 10
        invariant 1 <= i <= 10
        invariant forall j :: 0 <= j < 16 ==> ob[j] == if 1 <= j < i then Word(rec[j]) else old(ob[j])
        modifies ob
      {
        ob[i] := Word(rec[i]);
        i := i + 1;
      }
      ob[0] := 0x102;
      ob[10] := 0x100;
      regs := regs.(obX := 0, obLen := 11);
      QueueFromZero(ob[..], 11);
      assert Contents() == [0x102] + Widen(rec[1..]) + [0x100] by {
        forall j | 1 <= j < 10
          ensures ob[..11][j] == Widen(rec[1..])[j - 1]
        {
        }
      }
    }

    /** 0x5E00 - 0x5E02, 0x5F01, 0x5F02 (main.c:368-383): two pairs of words, each
        acknowledged, the second with 0x14A. */
    method OnAcknowledge()
      requires |line.input| >= 4
      modifies line
      ensures line.input == old(line.input)[4..]
      ensures line.output == old(line.output) + [0x101, 0x101, 0x14A]
      ensures Acknowledged(old(Snap()), Snap())
    {
      line.Write(0x101);
      var ignored := line.Read();
      ignored := line.Read();
      line.Write(0x101);
      ignored := line.Read();
      ignored := line.Read();
      line.Write(0x14A);
    }

    /** 0x0500, 0x0501 (main.c:384-395): 32 pairs of words read and acknowledged. */
    method OnSkipBlocks()
      requires |line.input| >= 64
      modifies line
      ensures line.input == old(line.input)[64..]
      ensures line.output == old(line.output) + [0x101] + Repeat(0x101, 32)
      ensures BlocksSkipped(old(Snap()), Snap())
    {
      line.Write(0x101);
      ghost var start := line.output;
      var i := 0;
      while i < 32
        invariant 0 <= i <= 32
        invariant line.input == old(line.input)[2 * i..]
        invariant line.output == start + Repeat(0x101, i)
      {
        var ignored := line.Read();
        ignored := line.Read();
        line.Write(0x101);
        i := i + 1;
      }
    }

    /** `_rand_seed_des(ki, aud)` (main.c:131-155): the DES key of audience aud, the
        control word into `_ob[1..8]`, and for a checking card the date and audience
        verdict. */
    method RandSeedDes(ki: bv8, aud: bv8)
      requires Valid() && ki <= 1
      modifies this, ob
      ensures Valid() && commands == old(commands)
      ensures var ib := LowBytes(old(ob[..]));
        var k := DesKeyFor(deskey[..], regs.atrindex, ki, aud);
        (forall j :: 0 <= j < 16 ==>
          ob[j] == if 1 <= j < 9 then Word(SysterDes.SysterCw(ib, k)[j - 1]) else old(ob[j]))
        && regs == old(regs).(check := DesVerdict(regs.atrindex, aud, old(regs.check),
             SysterDes.DateOf(SysterDes.DecodedHalf(ib, k, 1)), SysterDes.DecodedHalf(ib, k, 0)[6],
             regs.mindate, regs.maxdate))
    {
      var key := DesKey(ki, aud);
      var ib := LowCopy();
      var cw, date, aux := DesControlWord(ib[..], key);
      StoreCw(cw);
      regs := regs.(check := DesVerdict(regs.atrindex, aud, regs.check, date, aux, regs.mindate, regs.maxdate));
    }

    /** The key selection of main.c:136-140. */
    method DesKey(ki: bv8, aud: bv8) returns (key: seq<bv8>)
      requires Valid() && ki <= 1
      ensures key == DesKeyFor(deskey[..], regs.atrindex, ki, aud)
    {
      if aud == 0x11 {
        key := Des11Key;
      } else {
        var row := KeyRow(ki, regs.atrindex);
        key := deskey[row * 8..row * 8 + 8];
      }
    }

    /** The copy `ib[i] = _ob[i]` of main.c:145: the low bytes of the buffer. */
    method LowCopy() returns (ib: array<bv8>)
      requires Valid()
      ensures fresh(ib) && ib[..] == LowBytes(ob[..])
    {
      ib := new bv8[16];
      var i := 0;
      while i < 16
        invariant 0 <= i <= 16
        invariant forall j :: 0 <= j < i ==> ib[j] == Low(ob[j])
      {
        ib[i] := Low(ob[i]);
        i := i + 1;
      }
    }

    /** The copy `_ob[i+1] = ob[i]` of main.c:147. */
    method StoreCw(cw: seq<bv8>)
      requires Valid() && |cw| == 8
      modifies ob
      ensures forall j :: 0 <= j < 16 ==> ob[j] == if 1 <= j < 9 then Word(cw[j - 1]) else old(ob[j])
    {
      var i := 0;
      while i < 8
        invariant 0 <= i <= 8
        invariant forall j :: 0 <= j < 16 ==> ob[j] == if 1 <= j < i + 1 then Word(cw[j - 1]) else old(ob[j])
      {
        ob[i + 1] := Word(cw[i]);
        i := i + 1;
      }
    }

    /** The loop of main.c:172-181: the bytes of `_ob[0..15]` gathered into v1, v0, s1 and
        s0, four bytes each, the highest index first. */
    method ParseBlock() returns (v0: bv32, s0: bv32, v1: bv32, s1: bv32)
      requires Valid()
      ensures XteaBlock(v0, v1, s0, s1) == XteaParse(ob[..])
    {
      v0, s0, v1, s1 := 0, 0, 0, 0;
      var i := 3;
      while i > -1
        invariant -1 <= i <= 3
        invariant v1 == LeWords(ob[i + 1..4]) && v0 == LeWords(ob[i + 5..8])
        invariant s1 == LeWords(ob[i + 9..12]) && s0 == LeWords(ob[i + 13..16])
      {
        assert ob[i..4][1..] == ob[i + 1..4] && ob[i + 4..8][1..] == ob[i + 5..8];
        assert ob[i + 8..12][1..] == ob[i + 9..12] && ob[i + 12..16][1..] == ob[i + 13..16];
        v1 := ShiftIn(v1, ob[i]);
        s1 := ShiftIn(s1, ob[i + 8]);
        v0 := ShiftIn(v0, ob[i + 4]);
        s0 := ShiftIn(s0, ob[i + 12]);
        i := i - 1;
      }
      assert ob[0..4] == ob[..][0..4] && ob[4..8] == ob[..][4..8];
      assert ob[8..12] == ob[..][8..12] && ob[12..16] == ob[..][12..16];
    }

    /** The loop of main.c:200-203: the bytes of v1 into `_ob[1..4]` and those of v0 into
        `_ob[5..8]`, lowest first. */
    method StoreHalves(v0: bv32, v1: bv32)
      requires Valid()
      modifies ob
      ensures forall j :: 0 <= j < 16 ==>
        ob[j] == if 1 <= j < 9 then Word((Bytes32(v1) + Bytes32(v0))[j - 1]) else old(ob[j])
    {
      var i := 0;
      while i < 4
        invariant 0 <= i <= 4
        invariant forall j :: 0 <= j < 16 ==>
          ob[j] == if 1 <= j < i + 1 then Word(Bytes32(v1)[j - 1])
                   else if 5 <= j < i + 5 then Word(Bytes32(v0)[j - 5])
                   else old(ob[j])
      {
        ByteOfWord(v1, i);
        ByteOfWord(v0, i);
        ob[i + 1] := Word(ByteOf(v1, i));
        ob[i + 5] := Word(ByteOf(v0, i));
        i := i + 1;
      }
    }

    /** `_rand_seed_xtea(ki)` (main.c:158-204): in mode 2 the signed rounds with key ki and
        the signature verdict; in the other modes the halves pass unchanged. */
    method RandSeedXtea(ki: bv8)
      requires Valid()
      modifies this, ob
      ensures Valid() && commands == old(commands)
      ensures var k := XteaKeyFor(ki);
        var b := XteaParse(old(ob[..]));
        (forall j :: 0 <= j < 16 ==>
          ob[j] == if 1 <= j < 9 then Word(XteaAnswer(regs.cryptmode, k, b)[j - 1]) else old(ob[j]))
        && regs == old(regs).(check := XteaVerdict(regs.cryptmode, k, b, old(regs.check)))
    {
      var k := XteaKeyFor(ki);
      var v0, s0, v1, s1 := ParseBlock();
      var c;
      v0, v1, c := XteaCipher(regs.cryptmode, k, XteaBlock(v0, v1, s0, s1), regs.check);
      regs := regs.(check := c);
      StoreHalves(v0, v1);
    }

    /** The cipher call of main.c:417-421: DES in mode 0, XTEA otherwise. */
    method RandSeed(aud: bv8)
      requires Valid() && regs.keyindex <= 1
      modifies this, ob
      ensures Valid() && commands == old(commands)
      ensures var r := old(regs);
        regs == r.(check := DecryptVerdict(r.cryptmode, deskey[..], r.atrindex, r.keyindex, aud, old(ob[..]),
                                           r.check, r.mindate, r.maxdate))
      ensures var r := old(regs);
        var a := DecryptAnswer(r.cryptmode, deskey[..], r.atrindex, r.keyindex, aud, old(ob[..]));
        forall j :: 0 <= j < 16 ==> ob[j] == if 1 <= j < 9 then Word(a[j - 1]) else old(ob[j])
    {
      if regs.cryptmode == 0 {
        RandSeedDes(regs.keyindex, aud);
      } else {
        RandSeedXtea(regs.keyindex);
      }
    }

    /** The framing of main.c:422-431: with verdict 0 the control word between 0x106 and
        0x102, otherwise the single word 0x10A. */
    method FrameAnswer()
      requires Valid()
      modifies this, ob
      ensures Valid() && commands == old(commands)
      ensures regs == old(regs).(obX := 0, obLen := if regs.check == 0 then 10 else 1)
      ensures regs.check == 0 ==> Contents() == [0x106] + old(ob[1..9]) + [0x102]
      ensures regs.check != 0 ==> Contents() == [0x10A]
      ensures ob[1..9] == old(ob[1..9]) && ob[10..] == old(ob[10..])
      ensures regs.check != 0 ==> ob[9] == old(ob[9])
    {
      if regs.check == 0 {
        ob[0] := 0x106;
        ob[9] := 0x102;
        regs := regs.(obX := 0, obLen := 10);
        QueueFromZero(ob[..], 10);
        assert ob[..10] == [0x106] + old(ob[1..9]) + [0x102];
      } else {
        ob[0] := 0x10A;
        regs := regs.(obX := 0, obLen := 1);
        QueueFromZero(ob[..], 1);
      }
    }

    /** The cipher call and the framing of main.c:417-431 for the sixteen words w the
        buffer holds. */
    method Decipher(aud: bv8, ghost w: seq<bv16>)
      requires Valid() && regs.keyindex <= 1 && w == ob[..]
      modifies this, ob
      ensures Valid() && commands == old(commands)
      ensures Deciphered(old(regs), deskey[..], aud, w, regs, ob[..])
    {
      ghost var a := DecryptAnswer(regs.cryptmode, deskey[..], regs.atrindex, regs.keyindex, aud, w);
      RandSeed(aud);
      Spliced(ob[..], w, a);
      FrameAnswer();
    }

    /** 0x0600, 0x0620, 0x0601, 0x0621, 0x0602, 0x0622, 0x0611 (main.c:396-431): sixteen
        words of the decoder's message, deciphered with key `(cmd & 0xF0) >> 5` by the
        card's mode; the buffer then holds the framed control word when the verdict is 0
        and the single word 0x10A otherwise. */
    method OnDecrypt(cmd: bv16)
      requires Valid() && KindOf(cmd) == Decrypt && |line.input| >= 16
      modifies this, line, ob
      ensures Valid() && commands == old(commands)
      ensures line.input == old(line.input)[16..]
      ensures line.output == old(line.output) + [0x101] + Repeat(0x101, 8)
      ensures Decrypted(cmd, old(Snap()), Snap())
    {
      line.Write(0x101);
      DecryptKeyIndex(cmd);
      regs := regs.(keyindex := KeySelect(cmd), obX := 0, obLen := 0);
      Receive(8, 0x101);
      assert ob[..] == old(line.input)[..16];
      Decipher(Low(cmd), old(line.input)[..16]);
    }

    /** The cases of `_command` that store what they receive (main.c:243-258 and
        269-311). */
    method Configure(cmd: bv16)
      requires Valid() && Configures(KindOf(cmd)) && |line.input| >= Needs(cmd, line.input)
      modifies this, line, ob, deskey, channels
      ensures Valid() && commands == old(commands)
      ensures line.input == old(line.input)[Needs(cmd, old(line.input))..]
      ensures regs.prev == old(regs.prev) && regs.cur == old(regs.cur)
      ensures Configured(cmd, old(Snap()), Snap())
    {
      match KindOf(cmd)
      case WriteChannels => OnWriteChannels();
      case SetCryptMode => OnSetCryptMode(cmd);
      case SetAtr => OnSetAtr(cmd);
      case WriteKey => OnWriteKey(cmd);
    }

    /** The cases of `_command` that answer from the card's tables or from the answer
        buffer (main.c:259-268, 312-314 and 432-445). */
    method Query(cmd: bv16)
      requires Valid() && (Answers(KindOf(cmd)) || KindOf(cmd) == Pop)
      requires Answers(KindOf(cmd)) ==> regs.obLen <= 6
      modifies this, line, ob
      ensures Valid() && commands == old(commands) && line.input == old(line.input)
      ensures regs == old(regs).(obX := regs.obX, obLen := regs.obLen)
      ensures Answered(cmd, old(Snap()), Snap())
    {
      match KindOf(cmd)
      case Identify =>
        OnIdentify();
      case ReadChannels =>
        OnReadChannels();
      case Info =>
        OnInfo(cmd);
      case Pop =>
        OnPop();
    }

    /** The cases of `_command` that read a message from the host (main.c:315-431):
        only the buffer registers, the key index and the verdict change. */
    method Transfer(cmd: bv16)
      requires Valid() && Transfers(KindOf(cmd)) && |line.input| >= Needs(cmd, line.input)
      modifies this, line, ob
      ensures Valid() && commands == old(commands)
      ensures line.input == old(line.input)[Needs(cmd, old(line.input))..]
      ensures regs.prev == old(regs.prev) && regs.cur == old(regs.cur)
      ensures Transferred(cmd, old(Snap()), Snap())
    {
      match KindOf(cmd)
      case Subscription =>
        OnSubscription();
      case Acknowledge =>
        OnAcknowledge();
      case SkipBlocks =>
        OnSkipBlocks();
      case Decrypt =>
        OnDecrypt(cmd);
    }

    /** `_command(cmd)` (main.c:236-452): the handler cmd selects; an unknown code is
        answered with 0x101 and changes nothing else. */
    method Command(cmd: bv16)
      requires Valid() && |line.input| >= Needs(cmd, line.input)
      requires Answers(KindOf(cmd)) ==> regs.obLen <= 6
      modifies this, line, ob, deskey, channels
      ensures Valid() && commands == old(commands) + [cmd]
      ensures line.input == old(line.input)[Needs(cmd, old(line.input))..]
      ensures regs.prev == old(regs.prev) && regs.cur == old(regs.cur)
      ensures Handled(cmd, old(Snap()), Snap())
    {
      commands := commands + [cmd];
      var kind := KindOf(cmd);
      if Configures(kind) {
        Configure(cmd);
      } else if Answers(kind) || kind == Pop {
        Query(cmd);
      } else if Transfers(kind) {
        assert Needs(cmd, line.input) <= |line.input|;
        Transfer(cmd);
      } else {
        line.Write(0x101);
      }
    }

    /** One turn of the loop of main.c:474-485: the next word is read, and a word with
        bit 8 set followed by one with bit 8 clear starts the command they spell. */
    method Step()
      requires Valid() && |line.input| > 0
      requires Boundary(regs.cur, line.input[0]) ==>
        |line.input| - 1 >= Needs(Code(regs.cur, line.input[0]), line.input[1..])
        && (Answers(KindOf(Code(regs.cur, line.input[0]))) ==> regs.obLen <= 6)
      modifies this, line, ob, deskey, channels
      ensures Valid() && regs.prev == old(regs.cur) && regs.cur == old(line.input)[0]
      ensures Boundary(regs.prev, regs.cur) ==>
        commands == old(commands) + [Code(regs.prev, regs.cur)]
        && line.input == old(line.input)[1 + Needs(Code(regs.prev, regs.cur), old(line.input)[1..])..]
      ensures !Boundary(regs.prev, regs.cur) ==>
        commands == old(commands) && line.input == old(line.input)[1..] && line.output == old(line.output)
        && regs == old(regs).(prev := regs.prev, cur := regs.cur) && ob[..] == old(ob[..])
        && deskey[..] == old(deskey[..]) && channels[..] == old(channels[..])
      ensures Boundary(regs.prev, regs.cur) ==>
        Handled(Code(regs.prev, regs.cur),
                old(Snap()).(input := old(line.input)[1..], regs := old(regs).(prev := regs.prev, cur := regs.cur)),
                Snap())
    {
      var a := regs.cur;
      var b := line.Read();
      regs := regs.(prev := a, cur := b);
      if Boundary(a, b) {
        Command(Code(a, b));
        assert old(line.input)[1..][Needs(Code(a, b), old(line.input)[1..])..]
            == old(line.input)[1 + Needs(Code(a, b), old(line.input)[1..])..];
      }
    }
  }
}
