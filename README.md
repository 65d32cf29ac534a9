# Syster card emulator: a verified model

This project models the firmware of an AVR microcontroller that stands in for the
smartcard of a Nagravision Syster analogue pay-TV decoder. Two parts are modelled.

- **The card's cipher** (`systerdes.c`). This is a 16-round Feistel network of the DES
  family with proprietary tables. `_get_syster_cw` runs it over both 8-byte halves of a
  16-byte entitlement control message (ECM). It returns the decoded control word, a
  16-bit date and an auxiliary byte. The model covers each stage:
  - `_permute`, an 8×8 bit-matrix transposition through a table;
  - `_expand`, which gathers six-bit groups through a table;
  - `_key_rotate`, a pair of 28-bit rotations spread over bytes;
  - the S-box and permutation step of `_syster_des_f`;
  - the final repacking.

  Every routine keeps its arrays and loops as imperative Dafny. Each is proved against a
  declarative function, and lemmas about those functions state what the cipher
  guarantees:
  - every round can be undone, and so can all sixteen;
  - the key schedule makes 27 single-bit steps in total;
  - the output permutation writes each of the 32 bits exactly once;
  - the expansion of the control word reads only its left half;
  - repacking (`Repack`) and its inverse (`Unpack`) recover each other's input on the
    range of values they produce.
- **The command interpreter** (`main.c`). The decoder talks to the card over a 9-bit
  serial line. A word with bit 8 set followed by one with bit 8 clear forms a 16-bit
  command. `_command` dispatches it to one of thirteen handlers:
  - channel store and read;
  - identification;
  - crypt-mode and ATR selection (ATR: the card's answer-to-reset profile);
  - key store;
  - information records;
  - subscription queries;
  - acknowledgement sequences;
  - control-word decryption (DES in mode 0, XTEA otherwise);
  - `0xFFFF`, which pops one word of the pending answer.

  Answers wait in a 16-word ring buffer `_ob` and are drained by `0xFFFF`. The card is a
  class `SysterCard`:
  - its scalar globals are grouped in one `Registers` value;
  - `_ob`, the EEPROM key table `_deskey` and the EEPROM channel record are arrays;
  - the serial line is a `Line` object holding the words still to be read and the trace
    of words written.

  Each handler states its whole effect: the words it consumes, the words it sends, the
  new answer queue, and which registers and EEPROM cells change. The same effect is also
  stated as a relation between two `Snapshot` values of the card (one per handler:
  `ChannelsWritten`, `Identified`, `Popped`, `Decrypted`, …). `Handled(cmd, s, t)`
  selects the relation of the handler `cmd` names, and says that an unknown code sends
  `0x101` and changes nothing else. `Command` ensures `Handled` for every command code.
  `Step` models one turn of the main loop and ensures `Handled` whenever the word read
  completes a command.

Modules:
- `Bits` (bits.dfy): bytes, bit tests and little-endian packing.
- `SysterTables` (tables.dfy): the constant tables and their structural properties.
- `Permute`, `Expand`, `KeyRotate`, `Substitute` and `SysterDes` (permute.dfy, expand.dfy,
  key_rotate.dfy, substitute.dfy, des.dfy): the cipher.
- `Xtea` (xtea.dfy): the XTEA rounds and the signature check.
- `AnswerQueue` (queue.dfy): the ring buffer.
- `Commands` (commands.dfy): command decoding, constant answers and the key table layout.
- `Card` (card.dfy): the card state and the handlers.

Behaviour of the code that is easy to misread:
- Popping an empty answer buffer answers `0x101` (main.c:433).
- The answer builders `_io_response_pgm` and `_io_response_ee` append behind the pending
  words. They do not reset the read cursor (main.c:211-217). Only the subscription and
  decryption handlers restart the buffer at position 0.
- Nothing detects more than 16 pending words. The model requires that at most 6 words
  are pending before a ten-word answer is appended (see Left out).
- In the initial kind of `_permute` (tables `kp` and `ip`), bit i of input byte j becomes
  bit 7 − j of output byte p[i] (systerdes.c:98-99). `Permute.InitialPermutationBits`
  states this.
- The XTEA signature is checked after round index 7 of 32. A failed check stops the
  rounds early.

## Model

| member | source | states |
|---|---|---|
| Bits.Le16 | main.c:469-470 | two bytes read into a 16-bit variable on the little-endian AVR: the first byte is the low byte, the second the high byte |
| Bits.Le32Bytes32 | main.c:172-181 | packing four bytes little-endian into a 32-bit word and splitting a word back into bytes are inverse to each other, both ways |
| Bits.Low | main.c:120 | the byte kept by `& 0xff` from a 16-bit word is exactly its low eight bits |
| Bits.BitsDetermineByte | systerdes.c:92 | two bytes that agree on all eight bits are equal |
| Bits.ShrLowBit | systerdes.c:92-93 | after s right shifts, the low bit of a byte is its original bit s |
| Bits.ShrStep | systerdes.c:93 | one more right shift of a shifted byte is a shift by s + 1 |
| Bits.BitOfShl | systerdes.c:172 | bit q of a byte shifted left by s is its bit q − s, or clear when q < s |
| Bits.ShiftInLow | systerdes.c:92 | shifting left and or-ing in c puts c in bit 0 and moves every other bit up by one |
| Bits.ShiftInHigh | systerdes.c:98 | shifting right and or-ing in 0x80 or 0 puts that value in bit 7 and moves every other bit down by one |
| SysterTables.PermutationTables | systerdes.c:69-75 | kp, ip and fp each hold every index 0..7 once; the final-kind test `p[0] & 3` selects only fp |
| SysterTables.KeyExpansionInRange | systerdes.c:49-53 | every key-expansion entry addresses one of the 64 key bits |
| SysterTables.CoveredByte0 | systerdes.c:63-66 | the output-permutation entries that address byte 0 of r cover its eight bits, each at a first visit |
| SysterTables.CoveredByte1 | systerdes.c:63-66 | the same for byte 1 of r |
| SysterTables.CoveredByte2 | systerdes.c:63-66 | the same for byte 2 of r |
| SysterTables.CoveredByte3 | systerdes.c:63-66 | the same for byte 3 of r |
| SysterTables.AllVisitsFresh | systerdes.c:63-66 | no two of the 32 entries of P address the same bit of r |
| SysterTables.OutputPermutationIsBijective | systerdes.c:175-181 | the 32 visits of the permutation loop write every bit of the four bytes of r exactly once |
| Permute.ColumnBits | systerdes.c:92 | bit q of column b is bit b of row 7 − q |
| Permute.Gather | systerdes.c:92 | entry i of the gathered rows is input byte p[i] |
| Permute.IndexOf | systerdes.c:98 | the index found holds the value sought |
| Permute.Inverse | systerdes.c:98 | the inverse table maps each output position back to the entry that names it |
| Permute.PermuteSpec | systerdes.c:78-103 | the result of either kind as a bit-matrix transposition: the final kind makes output byte j from bit 7 − j of the gathered rows; the initial kind makes output byte m from the column its table entry selects |
| Permute.InitialPermutationBits | systerdes.c:97-99 | for kp and ip, bit i of input byte j becomes bit 7 − j of output byte p[i] |
| Permute.FinalPermutationBits | systerdes.c:90-94 | for fp, bit 7 − j of input byte p[i] becomes bit 7 − i of output byte j |
| Permute.ShiftedInLowStep | systerdes.c:92 | one shift-in of the final kind extends the column built so far by one bit |
| Permute.ShiftedInHighStep | systerdes.c:98 | one shift-in of the initial kind extends the column built so far by one bit |
| Permute.ShiftedInLowColumn | systerdes.c:85-101 | after eight shift-ins of the final kind the byte is the column, whatever it held before |
| Permute.ShiftedInHighColumn | systerdes.c:85-101 | after eight shift-ins of the initial kind the byte is the column, whatever it held before |
| Permute.FinalStep | systerdes.c:92-93 | one inner step of the final kind: the low bit of the source byte enters buffer1[j] from below, the source loses that bit, and nothing else changes |
| Permute.InitialStep | systerdes.c:98-99 | one inner step of the initial kind: the low bit of T[j] enters buffer1[p[i]] from the top, T[j] loses that bit, and nothing else changes |
| Permute.FinalRow | systerdes.c:87-94 | a row of the final kind makes buffer1[j] the column 7 − j of the gathered input and consumes one bit of each source byte |
| Permute.InitialRow | systerdes.c:87-101 | a row of the initial kind feeds the bits of T[j] into the top of the eight target bytes and leaves the other rows of T alone |
| Permute.PermuteFinal | systerdes.c:85-102 | the loops of the final kind produce PermuteSpec of the input |
| Permute.PermuteInitial | systerdes.c:85-102 | the loops of the initial kind produce PermuteSpec of the input |
| Permute.Permute | systerdes.c:78-103 | `_permute` writes the transposition of the input that its table selects, independent of what buffer1 held |
| Permute.FinalSpec | systerdes.c:85-94 | eight final-kind columns written in place are the PermuteSpec result |
| Permute.InitialSpec | systerdes.c:85-101 | eight complete initial-kind shift-ins are the PermuteSpec result |
| Expand.Mask | systerdes.c:116 | the address mask is 0x1F for a table beginning 0x1F and 0xFF otherwise |
| Expand.DataBitIsBit | systerdes.c:117 | the data bit at address d is bit d & 7 of byte d >> 3 |
| Expand.Address | systerdes.c:116 | every masked expansion address lies among the 64 data bits |
| Expand.ExpandSpec | systerdes.c:106-120 | each output byte j is the six-bit group collected for j |
| Expand.GroupBits | systerdes.c:114-118 | after n of the six shifts, bit q of the group is the data bit of the address read q shifts ago, or clear |
| Expand.ExpandBits | systerdes.c:112-119 | bit q < 6 of output byte j is the data bit at the masked address (7 − j)·6 + q of the table; bits 6 and 7 are clear |
| Expand.ExpandBelow64 | systerdes.c:110-119 | every expanded byte is a six-bit value |
| Expand.TablesAreExpansionTables | systerdes.c:49-60 | C is read with mask 0xFF and E with mask 0x1F, and both address only the 64 data bits |
| Expand.ExpandEReadsLeftHalf | systerdes.c:56-60 | the control-word expansion depends only on bytes 0..3 of the control word |
| Expand.LowMaskReadsLeftHalf | systerdes.c:116-117 | any table read with mask 0x1F depends only on data bytes 0..3 |
| Expand.LowAddressAgrees | systerdes.c:116-117 | a 0x1F-masked address reads the same bit from inputs that share bytes 0..3 |
| Expand.GroupsAgree | systerdes.c:114-118 | inputs that agree at all six addresses of group j give the same group |
| Expand.ShiftedMaskBit | systerdes.c:117 | the test `x & (1 << d)` is bit d of x |
| Expand.ExpandShift | systerdes.c:115-118 | one shift of output byte j adds the next address's data bit and leaves the other bytes alone |
| Expand.PushBit | systerdes.c:115-117 | byte j is shifted left with the hit bit at the bottom; the others are unchanged |
| Expand.Expand | systerdes.c:106-120 | `_expand` writes ExpandSpec of its table and data, whatever result held |
| KeyRotate.Rotr28 | systerdes.c:123-138 | rotating a 28-bit field keeps it 28 bits wide |
| KeyRotate.RotateStep | systerdes.c:130-136 | one step rotates the 28-bit field in bits 4..31 of a key half right by one |
| KeyRotate.RotateKey | systerdes.c:127-137 | n steps applied to both halves keep an 8-byte key |
| KeyRotate.StepHalf | systerdes.c:130-136 | the per-byte updates of one step keep four bytes |
| KeyRotate.StepHalfIsRotateStep | systerdes.c:130-136 | the byte-wise updates, including the feed-back from the already updated byte 0, equal the 32-bit rotation step |
| KeyRotate.StepHalfBytes | systerdes.c:130-136 | any four bytes satisfying the updates in source order are the step |
| KeyRotate.LastRoundDoesNotRotate | systerdes.c:26 | LS[15] is 0, so the key after the last round is not rotated |
| KeyRotate.StepKey | systerdes.c:128-137 | one step keeps an 8-byte key |
| KeyRotate.StepKeyAdvances | systerdes.c:128-137 | one more step after i steps is i + 1 steps of both halves |
| KeyRotate.ShiftedLow | systerdes.c:130-134 | the key after the inner loop keeps eight bytes |
| KeyRotate.FeedBackCompletesStep | systerdes.c:135-136 | the two feed-back assignments after the inner loop complete one step |
| KeyRotate.ShiftLowBytes | systerdes.c:130-134 | the inner loop leaves ShiftedLow of the old key |
| KeyRotate.RotateOnce | systerdes.c:129-137 | one pass of the outer loop rotates both halves by one step |
| KeyRotate.KeyRotate | systerdes.c:123-138 | `_key_rotate(rounds, k)` rotates both halves by LS[rounds] steps |
| KeyRotate.RotateNone | systerdes.c:128 | zero steps leave the key unchanged |
| KeyRotate.StepAdvances | systerdes.c:130-136 | a half after i steps becomes the half after i + 1 steps |
| KeyRotate.StepsLast | systerdes.c:128-137 | the (n+1)-th step applies to the result of n steps |
| Substitute.SboxIndex | systerdes.c:171 | the S-box address of every step lies inside the 256-byte table |
| Substitute.BlockBaseValue | systerdes.c:171 | the 8-bit block base 0x20·(8 − c) is 32·((8 − c) mod 8), so step 0 wraps to block 0 |
| Substitute.OrIsSum | systerdes.c:171 | or-ing a five-bit value into a block base adds it |
| Substitute.SboxBlock | systerdes.c:171 | step c reads entry x >> 1 of block (8 − c) mod 8 |
| Substitute.SboxByte | systerdes.c:171-172 | the top four bits of the selected byte are the high nibble of the S-box entry for even x and its low nibble for odd x |
| Substitute.Input | systerdes.c:168 | the S-box input is a six-bit value |
| Substitute.VisitBits | systerdes.c:162-181 | the 32 bits the permutation loop consumes, in visit order |
| Substitute.RoundOutput | systerdes.c:175-181 | the four bytes of r after all 32 visits |
| Substitute.CoveredStep | systerdes.c:177-178 | the bits covered after n + 1 visits are those after n plus the bit of visit n |
| Substitute.WrittenStep | systerdes.c:179 | a visit clears its bit of r when the S-box bit is set, sets it when clear, and leaves the other bytes alone |
| Substitute.PartialSkip | systerdes.c:177-179 | a visit to another byte leaves byte b unchanged |
| Substitute.PartialClear | systerdes.c:179 | a visit with a set S-box bit clears its bit of r |
| Substitute.PartialSet | systerdes.c:179 | a visit with a clear S-box bit sets its bit of r |
| Substitute.PartialComplete | systerdes.c:175-181 | once all 32 visits are made, r no longer depends on its initial contents |
| Substitute.WrittenKeeps | systerdes.c:175-181 | a bit written at visit k keeps its value through all later visits |
| Substitute.VisitWrites | systerdes.c:179 | visit k writes bit PBit of byte PByte as the complement of its S-box bit |
| Substitute.LaterVisitKeeps | systerdes.c:179 | a later visit to a fresh bit does not disturb a bit already written |
| Substitute.PBitNonZero | systerdes.c:178 | every permutation mask has one bit set |
| Substitute.RoundOutputBits | systerdes.c:175-181 | the bit of r that entry 31 − k addresses is the complement of the k-th S-box bit consumed |
| Substitute.PartialAll | systerdes.c:179 | the four bytes of r after the first n visits |
| Substitute.PartialAllClear | systerdes.c:179 | a visit with a set bit clears exactly one bit of r |
| Substitute.PartialAllSet | systerdes.c:179 | a visit with a clear bit sets exactly one bit of r |
| Substitute.StepBits | systerdes.c:172-180 | the four visits of step c consume the top four bits of its S-box byte, highest first |
| Substitute.TopBit | systerdes.c:179 | the test `sb & 0x80` is bit 7 |
| Substitute.Visit | systerdes.c:177-180 | one visit advances r from n visits to n + 1 |
| Substitute.WriteNibble | systerdes.c:175-181 | the four visits of step c advance r by four visits and j by four |
| Substitute.SelectSbox | systerdes.c:171-172 | the selected byte is SboxByte of the input |
| Substitute.Substitute | systerdes.c:162-182 | the eight S-box steps leave RoundOutput of the expanded key and control word in r, whatever r held |
| SysterDes.F | systerdes.c:155-182 | the round function yields four bytes |
| SysterDes.FReadsLeftHalf | systerdes.c:155-182 | the round function depends only on the left half of the control word |
| SysterDes.Feistel | systerdes.c:185-190 | the swap keeps an 8-byte control word |
| SysterDes.Round | systerdes.c:148-193 | one round keeps an 8-byte control word |
| SysterDes.KeyAt | systerdes.c:193 | the key at round i is eight bytes |
| SysterDes.CwAt | systerdes.c:148-194 | the control word after i rounds is eight bytes |
| SysterDes.FeistelSwap | systerdes.c:185-190 | after a round, the new right half is the old left half, and the new left half is F xor the old right half |
| SysterDes.Unround | systerdes.c:185-190 | undoing a round yields eight bytes |
| SysterDes.RoundInverse | systerdes.c:148-190 | every round can be undone with the same key |
| SysterDes.Undo | systerdes.c:148-194 | undoing n rounds yields eight bytes |
| SysterDes.DesInverse | systerdes.c:148-194 | running the rounds backwards with the key schedule recovers the input from any number of rounds up to 16 |
| SysterDes.StepsCompose | systerdes.c:128-137 | a steps then b steps are a + b steps |
| SysterDes.RotateKeyCompose | systerdes.c:193 | rotating the key by a then by b steps is rotating by a + b |
| SysterDes.KeySchedule | systerdes.c:193 | the key at round i is the original key rotated by the sum of the first i entries of LS |
| SysterDes.KeyHalvesIndependent | systerdes.c:127-137 | each half of the round key depends only on the same half of the starting key |
| SysterDes.FinalKey | systerdes.c:193 | after the 16 rounds the key has turned by 27 steps |
| SysterDes.ShiftsTotal | systerdes.c:26 | the LS table sums to 27 |
| SysterDes.SwapHalves | systerdes.c:185-190 | the swap loop leaves Feistel of r and the old control word |
| SysterDes.DesRound | systerdes.c:148-194 | one pass of the round loop applies Round to the control word and rotates the key by LS[i] |
| SysterDes.DesF | systerdes.c:141-195 | `_syster_des_f` leaves the control word after 16 rounds and the key after the full schedule |
| SysterDes.Key56 | systerdes.c:211-212 | the reduced working key has eight bytes |
| SysterDes.DecodedHalf | systerdes.c:211-221 | a decoded half, after the initial permutation, 16 rounds and the final permutation, has eight bytes |
| SysterDes.Repack | systerdes.c:236-243 | the final control word has bit 7 of byte 3 and the top three bits of byte 7 clear |
| SysterDes.Unpack | systerdes.c:236-243 | the inverse repacking yields eight bytes |
| SysterDes.UnpackRepackByte | systerdes.c:236-243 | unpacking recovers byte m of the decoded buffer; only the high nibble of byte 3 is lost |
| SysterDes.UnpackRepack | systerdes.c:236-243 | repacking loses only the high nibble of buffer1[3] |
| SysterDes.RepackUnpackByte | systerdes.c:236-243 | byte m repacked from an unpacked word is byte m of that word |
| SysterDes.RepackUnpack | systerdes.c:236-243 | every control word of the repacked shape is the repacking of its unpacking |
| SysterDes.SysterCw | systerdes.c:197-247 | the decoded control word has eight bytes |
| SysterDes.DecodeHalf | systerdes.c:207-221 | one decoding round leaves DecodedHalf of that ECM half in buffer2 |
| SysterDes.InitialBlock | systerdes.c:215 | the initial permutation of an ECM half |
| SysterDes.MakeKey56 | systerdes.c:211-212 | the 56-bit working key: kp applied to the key, then byte 0 replaced by byte 4 shifted up four bits |
| SysterDes.GetSysterCw | systerdes.c:197-247 | `_get_syster_cw` writes the control word to out[0..7], byte 6 of the first decoded half to out[8], and returns the date of the second half |
| SysterDes.DecodeHalves | systerdes.c:205-233 | the loop leaves bytes 0..3 of half 0 and bytes 4..7 of half 1 in buffer1, sets out[8] from half 0, and returns the date of half 1 |
| SysterDes.JoinHalves | systerdes.c:232 | a buffer that agrees with a on 0..3 and with b on 4..7 is their join |
| SysterDes.DecodeRound | systerdes.c:207-232 | one pass of the loop fills its quarter of buffer1, sets out[8] in pass 0 only, and returns the date of its half |
| SysterDes.WriteCw | systerdes.c:236-245 | out[0..7] receives the repacked buffer and out[8] is kept |
| SysterDes.RepackBuffer | systerdes.c:236-243 | cw receives Repack of buffer1 |
| SysterDes.RepackLeft | systerdes.c:240-243 | bytes 4..7 of cw receive their repacked values and bytes 0..3 are kept |
| SysterDes.CopyHalf | systerdes.c:232 | the memcpy copies quarter `round` of buffer2 into buffer1 and keeps the rest |
| Xtea.Round | main.c:185-187 | each round adds DELTA to the key-schedule sum |
| Xtea.RoundsSum | main.c:183-187 | after n rounds the sum is n additions of DELTA, whatever the halves |
| Xtea.FullSum | main.c:166-186 | thirty-two rounds from sum 0 end at 0xC6EF3720, the classic XTEA final sum |
| Xtea.EncipherRound | main.c:185-187 | the three statements of the loop body compute one round |
| Xtea.SignedEncipher | main.c:183-198 | the verdict is whether the halves after the eighth round equal the signature; on success the halves after all 32 rounds are returned, on failure those after eight, which then differ from the signature |
| AnswerQueue.Pos | main.c:213 | a ring position is below 16 |
| AnswerQueue.Off | main.c:436-442 | a ring offset is below 16 |
| AnswerQueue.PosOff | main.c:213 | position and offset undo each other |
| AnswerQueue.Queue | main.c:109-111 | the pending words number `_ob_len` |
| AnswerQueue.Widen | main.c:147 | bytes become words with the same low byte, one for one |
| AnswerQueue.Repeat | main.c:251 | n copies of a word |
| AnswerQueue.Pushed | main.c:211-215 | pushing keeps a 16-word buffer |
| AnswerQueue.Framed | main.c:216-217 | framing keeps the queue length |
| AnswerQueue.PushedAt | main.c:211-215 | after the push, a position holds its pushed byte when the push reached it and its old word otherwise |
| AnswerQueue.PushedQueue | main.c:211-215 | pushing bytes behind the pending words appends them, as words, to the queue |
| AnswerQueue.FramedQueue | main.c:216-217 | marking the first and the tenth pending positions frames the queue |
| AnswerQueue.QueueAdvance | main.c:436-442 | the word at the cursor is the oldest, and advancing the cursor leaves the rest of the queue |
| AnswerQueue.QueueFromZero | main.c:324-332 | a queue starting at position 0 is a prefix of the buffer |
| AnswerQueue.PushedOutside | main.c:211-215 | the push touches no position outside the new queue |
| AnswerQueue.FramedFromEmpty | main.c:211-217 | an answer pushed into an empty queue is its first byte marked, eight plain bytes, and its tenth byte marked |
| AnswerQueue.Spliced | main.c:147 | a buffer holding the control word at positions 1..8 and the message elsewhere splits into those parts |
| Commands.CodeBytes | main.c:480-483 | the command code is the low byte of the first word then the second word; at a boundary its two bytes are those words' payloads |
| Commands.CodeReachable | main.c:480-483 | every 16-bit code can be sent as a marked high byte followed by an unmarked low byte |
| Commands.DecryptKeyIndex | main.c:396-405 | every decryption command selects key 0 or 1, and key 1 exactly when bit 5 of the code is set |
| Commands.StoredModes | main.c:269-285 | the mode commands store a mode 0..2; the ATR commands store provider 0..2 with a high nibble 0 or 1; the information commands select a record 0..2 |
| Commands.AtrResponse | main.c:47-57 | each provider's identification answer is eleven bytes |
| Commands.AtrResponsesDistinct | main.c:47-57 | the three identification answers start with 0xA0 and differ from each other |
| Commands.InfoResponse | main.c:59-69 | each information answer is eleven bytes |
| Commands.SubscriptionRecord | main.c:79-85 | each subscription record is ten bytes |
| Commands.LowBytes | main.c:120 | the low bytes of a word sequence, one for one |
| Commands.DateWindow | main.c:469-470 | the power-on date window is 0x8021 to 0xC1DF, read little-endian from the two subscription records |
| Commands.KeyRow | main.c:139 | the key row read for any key index and provider 0..3 lies in the eight-row table |
| Commands.KeyRowPair | main.c:93-101 | provider p owns rows 2p (key 0) and 2p + 1 (key 1) |
| Commands.DesKeyFor | main.c:136-140 | the DES key is eight bytes: the fixed key for audience 0x11, otherwise the provider's row |
| Commands.StoreKey | main.c:124-129 | storing a key keeps the 64-byte table |
| Commands.StoreKeyAt | main.c:124-129 | after storing, byte j of the table is the new key's byte inside the row and the old byte elsewhere |
| Commands.StoreKeyReadBack | main.c:124-140 | a later decryption that selects the stored row reads back the stored key, and every other row reads its old key |
| Commands.KeySlotOverrun | main.c:286-311 | the switch accepts slots 8..15 of the eight-row table; for 0x2408 the first byte written lies at offset 64, past its end |
| Commands.DesVerdict | main.c:148-154 | the verdict changes only on cards whose ATR high nibble is 1 and for an audience other than 0x11; there it is 0 exactly when the date lies in the window and the audience byte matches the decoded auxiliary byte |
| Commands.ByteOfWord | main.c:201-202 | byte i extracted by shift and mask is byte i of the little-endian split |
| Commands.LeWordsLe32 | main.c:172-181 | gathering four words from the last to the first is the little-endian packing of their low bytes |
| Commands.XteaAnswer | main.c:200-203 | the XTEA answer is eight bytes |
| Commands.XteaPassThrough | main.c:182-203 | outside mode 2 the answer is the first eight message bytes unchanged and the verdict is kept |
| Commands.XteaSignedAnswer | main.c:182-203 | in mode 2 a passed signature answers the halves after 32 rounds, and a failed one answers those after eight, which differ from the signature |
| Commands.XteaKeyFor | main.c:169-171 | the XTEA key has four words |
| Commands.DecryptAnswer | main.c:417-421 | the decryption answer is eight bytes |
| Commands.VerdictSources | main.c:417-421 | the verdict changes only through the DES date check (mode 0, ATR high nibble 1, audience not 0x11) or the XTEA signature check (mode 2) |
| Card.Line.constructor | main.c:462 | the line starts with the words to be sent and an empty trace |
| Card.Line.Read | main.c:478 | `io_read` takes the next word and leaves the trace |
| Card.Line.Write | main.c:444 | `io_write` appends to the trace and leaves the input |
| Card.DesControlWord | main.c:146 | the cipher call yields the control word, the date of the second half and the auxiliary byte of the first |
| Card.XteaCipher | main.c:182-198 | the enciphered halves split into the XTEA answer, and the new check is the XTEA verdict |
| Card.SysterCard.constructor | main.c:454-472 | power-on: empty answer queue, zero registers, mode and ATR from EEPROM, date window 0x8021..0xC1DF |
| Card.SysterCard.OnPop | main.c:432-445 | with pending words, the oldest is sent and removed from the queue; with none, 0x101 is sent and nothing changes |
| Card.SysterCard.Respond | main.c:208-234 | the first byte is sent with bit 8 set; the other ten are appended to the queue and framed; buffer positions outside the queue are kept |
| Card.SysterCard.PushBytes | main.c:211-215 | ten bytes are written behind the pending words and the length grows by ten |
| Card.SysterCard.MarkFrame | main.c:216-217 | bit 8 is set on the first and the tenth pending word, and nothing else changes |
| Card.SysterCard.Receive | main.c:247-252 | pairs of words from the line go to `_ob[0..]`, one acknowledgement per pair, and the rest of the buffer is kept |
| Card.SysterCard.ReceivePair | main.c:249-251 | one pair is stored at i and i + 1 and acknowledged |
| Card.SysterCard.UpdateChannels | main.c:117-122 | bytes 2..9 of the channel record become the low bytes of `_ob[0..7]`; bytes 0, 1 and 10 are kept |
| Card.SysterCard.UpdateKey | main.c:124-129 | row ki of the key table becomes the low bytes of `_ob[0..7]` |
| Card.SysterCard.OnWriteChannels | main.c:243-258 | ten words are consumed, the acknowledgements 0x101 ×5 and 0x100 are sent, and the eight received bytes become the channels |
| Card.SysterCard.OnIdentify | main.c:259-267 | providers 0..2 get their identification answer queued and its first byte sent; any other provider gets nothing |
| Card.SysterCard.OnReadChannels | main.c:268 | the channel record, as stored, is answered |
| Card.SysterCard.OnSetCryptMode | main.c:269-275 | 0x1FF is sent and the crypt mode becomes the low byte, in RAM and in EEPROM, a value 0..2 |
| Card.SysterCard.OnSetAtr | main.c:276-285 | 0x1FF is sent and the ATR index becomes the low byte, in RAM and in EEPROM |
| Card.SysterCard.OnWriteKey | main.c:286-311 | eight words are consumed with one 0x1FF and four 0x124 acknowledgements, and their low bytes become key row `cmd & 0x0F`; a slot past the table stores nothing |
| Card.SysterCard.OnInfo | main.c:312-314 | the information record 0x57 + i is answered |
| Card.SysterCard.OnSubscription | main.c:315-367 | selectors 0 and 1 reset the queue to 0x102, the record's nine bytes and 0x100; selectors 2 and 3 read two more words and answer 0x14A; any other selector only consumes its two words |
| Card.SysterCard.LoadRecord | main.c:322-333 | the queue restarts at position 0 holding 0x102, bytes 1..9 of the record and 0x100 |
| Card.SysterCard.OnAcknowledge | main.c:368-383 | four words are consumed and 0x101, 0x101, 0x14A are sent |
| Card.SysterCard.OnSkipBlocks | main.c:384-395 | 64 words are consumed and 33 acknowledgements are sent |
| Card.SysterCard.RandSeedDes | main.c:131-155 | `_ob[1..8]` receive the DES control word under the key the index, ATR and audience select; the verdict follows DesVerdict; nothing else changes |
| Card.SysterCard.DesKey | main.c:136-140 | the key read is DesKeyFor of the stored table |
| Card.SysterCard.LowCopy | main.c:145 | the copy holds the low bytes of the buffer |
| Card.SysterCard.StoreCw | main.c:147 | `_ob[1..8]` receive the control word and every other word is kept |
| Card.SysterCard.ParseBlock | main.c:172-181 | the loop gathers v0, v1, s0 and s1 as XteaParse of the buffer |
| Card.SysterCard.StoreHalves | main.c:200-203 | `_ob[1..4]` receive the bytes of v1 and `_ob[5..8]` those of v0, low byte first |
| Card.SysterCard.RandSeedXtea | main.c:158-204 | `_ob[1..8]` receive the XTEA answer under key `ki % 2`; the verdict follows XteaVerdict |
| Card.SysterCard.RandSeed | main.c:417-421 | mode 0 takes the DES path and any other mode the XTEA path; the answer and the verdict are DecryptAnswer and DecryptVerdict of the message |
| Card.SysterCard.FrameAnswer | main.c:422-431 | verdict 0 queues 0x106, the eight answer words and 0x102; any other verdict queues 0x10A alone |
| Card.SysterCard.Decipher | main.c:417-431 | the cipher call and the framing together (`Deciphered`): the verdict is DecryptVerdict, the queue restarts at 0 holding 0x106, the DecryptAnswer words and 0x102 on verdict 0 and 0x10A alone otherwise, and words 10..15 of the message are kept |
| Card.SysterCard.OnDecrypt | main.c:396-431 | sixteen words are consumed with nine 0x101 acknowledgements; `Decrypted`: the key index becomes bit 5 of the code, verdict, queue and buffer are as `Deciphered` states for that key, and no EEPROM cell changes |
| Card.SysterCard.Configure | main.c:243-311 | `Configured`, per code: 0x0100 makes the eight words channel bytes 2..9 and `_ob[0..7]`; 0x04xx sets the crypt mode and 0x14xx the ATR index to the low byte, in RAM and EEPROM; 0x240x stores the low bytes as key row `cmd & 0x0F` (StoreKey); each sends its acknowledgements, and all other registers and cells are kept |
| Card.SysterCard.Query | main.c:259-445 | `Answered`, per code: 0x0200 (259-267) answers the ATR of provider 0..2 and nothing above; 0x0201 (268) the stored channel record; 0x57xx (312-314) information record i ≤ 2; 0xFFFF (432-445) sends and removes the oldest pending word, or sends 0x101 when none is pending; only the queue registers change |
| Card.SysterCard.Transfer | main.c:315-431 | `Transferred`, per code: 0x5F00 by its selector (record 0 or 1 framed in the queue, 0x14A after two more words for 2 and 3, nothing for others); 0x5E0x/0x5F0x send 0x101, 0x101, 0x14A; 0x050x sends 33 acknowledgements; 0x06xx is `Decrypted`; no EEPROM cell changes |
| Card.SysterCard.Command | main.c:236-452 | `_command` records the command, consumes what its handler reads, keeps the last two words read, and ensures `Handled`: the state after is the one the handler that cmd selects produces (Configured, Answered or Transferred), and an unknown code sends 0x101 and changes nothing else |
| Card.SysterCard.Step | main.c:474-485 | each turn shifts the last two words; a boundary records the command they form, consumes its words and leaves the state `Handled` prescribes for it; any other word changes nothing else |

## Left out

- Hardware: interrupts, the timer-driven software serial port, `io_init` and `sei` are
  not modelled. `io_read` and `io_write` become reading from and appending to a `Line`.
- `enable_rx` and the receive FIFO that answers the decoder during a decryption
  (main.c:133) are not modelled.
- The endless loop of `main` (main.c:474-485) is modelled one turn at a time by `Step`.
- Card.SysterCard.Command: the blocking `io_read` becomes a precondition that the line
  holds every word the handler reads (`Needs`). A decoder that stops sending is not modelled.
- Card.SysterCard.Respond: requires at most 6 pending words before a ten-word answer. The
  source does not check this. An overflow of `_ob`, which would wrap over pending words,
  is not modelled.
- Card.SysterCard.constructor: the EEPROM image is given as parameters: the crypt mode,
  the ATR index, the 64 key bytes and the channel record. The constructor requires the ATR
  provider nibble to be at most 3. Above 3, `_rand_seed_des` would read past the key table
  (main.c:139). The ATR commands store only 0..2 (`Commands.StoredModes`), so only the
  factory EEPROM value is restricted.
- `_io_response_ee` and `_io_response_pgm` differ only in the memory they read. Both are
  modelled by one `Respond` on a byte sequence. The constant tables are carried as data.
- The `key64` buffer of `_rand_seed_des` is a local value (`DesKey`), not a static array.
- The `_command` switch is one method per handler. `Configure`, `Query` and `Transfer`
  dispatch the handler groups, and `Command` dispatches the groups. Each group ensures
  the relation (`Configured`, `Answered`, `Transferred`) of the handler it runs.
- The XTEA decryption direction does not appear in the source and is not modelled.
  Only the enciphering rounds are.
- The EEPROM endurance of `eeprom_update_byte` (which skips equal bytes) is invisible in
  the model: an update is a plain write.

## Findings

| source | as written | input that shows it | evidently intended | confidence | as-written member | corrected member |
|---|---|---|---|---|---|---|
| main.c:286-311 | the key-store switch accepts 0x2400-0x240F and `_update_key(cmd & 0x0F)` writes row `cmd & 0x0F` of the eight-row `_deskey` table (main.c:93) | command 0x2408: the first byte written is at offset 64 from `_deskey`, past the table, into the next EEPROM cells | only the eight rows of the table are addressable; a slot past the table stores nothing | medium, not executed | Commands.KeySlotOverrun | Card.SysterCard.OnWriteKey |
