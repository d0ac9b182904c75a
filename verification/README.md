# Verified models of gpsd's wire layer

gpsd turns noisy byte streams from GPS receivers and differential-GPS beacons into checked packets and
reports. This project models the code that does so, and the encoders whose frames it must recognise, and
proves what the two do together. Each loop, buffer and struct that the C code updates in place is a method
over arrays or a class here, proved equal to a function on values; the theorems are about those functions.

| files | what they model |
|---|---|
| `IsgpsWord`, `Isgps`, `IsgpsTransport`, `IsgpsRoundTrip`, `IsgpsRecovery` | the IS-GPS-200 transport: parity words, the bit-level synchroniser, the encoder, the round trip between them, and recovery after damage, idle line or a late start (IS-GPS-200 sections 20.3.5.1 and 20.3.5.2) |
| `BitFields`, `RtcmFields`, `Rtcm`, `RtcmCodec`, `RtcmLayout`, `RtcmMessage`, `RtcmHooks` | the RTCM SC-104 message codec on the words the transport recovers, and the places of the fields in the bits sent |
| `RtcmStream`, `RtcmDelivery`, `RtcmBeacon` | transport, lexer and codec together: from the transmitter's messages to the receiver's packets and contents |
| `RtcmGreeting`, `RtcmRegister`, `RtcmFirstWord`, `RtcmLost` | letters of a greeting in such a stream: when they keep the decoder from the first word, and a message lost so |
| `Packet`, `PacketBuffer`, `PacketRuns`, `PacketShape`, `PacketSound`, `PacketForm`, `PacketFeed`, `PacketSwitch`, `FrameSwitch` | the packet lexer: its state machine and checks, the two buffers, whole runs, and what follows what |
| `Sirf`, `Evermore`, `DleFrames`, `Tsip`, `Navcom`, `Ubx`, `Nmea`, `NmeaFields` | the protocols' writers and frames, through the lexer |
| `Base64` | the encoder and the strict decoder (RFC 4648 section 4) |
| `Calendar`, `NmeaClock` | `mkgmtime`, and the date kept across midnights |
| `Gsv`, `YReport`, `Srecord` | satellites in view, the daemon's satellite report, S-records |
| `Bytes` | bytes, sums, exclusive or, DLE stuffing |

`dafny verify dfyconfig.toml` checks everything.

## What came out otherwise than promised

In each case the model does what the code does, and lemmas say exactly when the promise holds; where the
failing inputs are not plain from that, one names such an input.

- Idle line behind a message: the locked decoder takes each idle word for a sound one without a preamble, returns
  before it has moved its offset, and so keeps it. When symbols end where words do nothing is lost
  (`IsgpsRecovery.IdleBetween`); at any other phase the first bits of the next message are
  (`IsgpsRecovery.IdleWaits`). After a damaged word, too, the bits behind it in its last symbol are dropped with the
  lock, so that the very next message can only be heard if there are none (`IsgpsRecovery.DamageRecovered`).
- `!` sentences: `nmea_add_checksum` skips a leading `$` but sums a leading `!`, which the lexer does not.
  A completed sentence passes the lexer exactly if it began with `$` (`Nmea.SentOk`).
- Switching protocols: behind an accepted packet the lexer knows only that protocol's first character. The
  first character of any other frame is thrown away (`PacketSwitch.FirstCharacter`), and with it the frame
  is lost, whatever its other bytes: `FrameSwitch` says for each protocol behind which packets its frames
  are delivered. One such loss is `PacketSwitch.EmptyMessageLost`. The stream theorems therefore start from
  the ground or from the protocol's own state.
- RTCM streams: on the ground the letters `AS` or `EA`, which a first word may well contain, start a
  greeting of another receiver; when it stops, the decoder is given all but its first letter again
  (`RtcmGreeting.GreetingStops`). The first word is heard exactly if no two such letters follow each other
  up to lock (`RtcmFirstWord.FirstWordHeard`). Type 3 messages from stations 128 to 191, heard from
  their first bit, begin with `fAS`; one of them, alone on the line, is lost (`RtcmLost.MessageLost`). Behind
  lock the letters make no difference once the lexer follows the decoder, which it does from the first byte
  that is not itself an `A` or an `E` (`RtcmDelivery.Peaceful`).
- TSIP frames without data stay at the head of the buffer, and the lexer judges the next frame with these
  four bytes in front. The SiRF message behind one is always dropped (`Tsip.RuntSpoilsMessage`).
- The comment before the TSIP tests lists packets 0x83 and 0xbc, which the tests refuse, and gives 0x84 a data
  length of 36 where they take 37 too; `Tsip.KnownLengths` has the list that is in force.
- RTCM types 1 and 9: a small-scale correction of -32768, or a rate of -128, is repacked at the large
  scale and comes back rounded, unless both values are multiples of sixteen (`Rtcm.SurvivesIs`).
- RTCM type 16: repacking sets the length to a third of the text's and one more, so that a text of whole
  words comes back in a message one word longer (`RtcmCodec.AbcGrows`). 93 bytes of text call for a length
  of 32, which the five-bit field holds as zero; and a text comes back with whatever stands behind it in
  the buffer it is repacked into. `RtcmCodec.MessageComesBack` says exactly which messages come back.
- `mkgmtime` rounds towards zero: before 1968 it is a day late except in multiples of four
  (`Calendar.MkgmtimeIsTrue`). From 1970 on it is right.
- The NMEA clock loses a day when midnight passes and the next fix falls in the same hour as the last
  (`NmeaClock.StepWithinDay`), as after 23 hours and a half (`NmeaClock.GapTooLong`).
- `b64_pton` wants one byte more than it returns when the last quad is padded (`Base64.OutcomeIs`).
- The comment on the length limit of `evermore_write` is right: a frame passes the check exactly if its
  payload has at most 253 bytes (`Evermore.AcceptedIsWritten`). Beyond that the length byte is cut, and
  doubled or not by the length before the cut (`Evermore.WrittenIsFrame`).

## Reading of the source

- Bytes are integers from 0 to 255, words of the transport 32-bit vectors, words of an RTCM message 32 bits
  in the little-endian layout of `rtcm.h`. Counters are unbounded except where they can wrap around: the
  lexer's length counter is an unsigned 64-bit number, EverMore's a 32-bit one, the running sums bytes.
- Scaled RTCM quantities are exact integers: sixteenths of the large scale, units of the time and
  coordinate scales. Rounding is C's, halves away from zero. A negative coordinate converted to unsigned
  keeps its low 32 bits.
- A sentence of four bytes puts the index of its trailer one before the buffer; it is read as having no
  star. An S-record line of one character, for which `srec_check` also reads in front of its buffer, fails.
- Characters are signed where the code compares them with a blank. The character classes are those of the
  C locale.
- What `read` returns, the formatted time stamp of the satellite report and the uninitialised variables of
  `gps_unpack` are parameters.

## Model

| member | source | states |
|---|---|---|
| `IsgpsWord.ReverseBitsMeaning` | gpsd-2.37/isgps.c:91-96 | the 64-entry table turns six bits end for end |
| `IsgpsWord.TagRoundTrip` | gpsd-2.37/isgps.c:65-67 | a tagged byte is recognised and its six bits come back in sending order |
| `IsgpsWord.ParityArrayIsOdd` | gpsd-2.37/isgps.c:72-89 | the 256-entry table is the parity of its index |
| `IsgpsWord.TableOdd` | gpsd-2.37/isgps.c:118-120 | four table look-ups give the parity of a 32-bit word |
| `IsgpsWord.Parity` | gpsd-2.37/isgps.c:99-141 | the six successive shifts and ors compute the six parity bits, each the parity of its mask, in order |
| `IsgpsWord.Equation25` | gpsd-2.37/isgps.c:103 | parity bit D25 is the modulo-2 sum of exactly the bits that Table 20-XIV of IS-GPS-200 lists for it |
| `IsgpsWord.Equation26` | gpsd-2.37/isgps.c:104 | parity bit D26 is the modulo-2 sum of exactly the bits that Table 20-XIV of IS-GPS-200 lists for it |
| `IsgpsWord.Equation27` | gpsd-2.37/isgps.c:105 | parity bit D27 is the modulo-2 sum of exactly the bits that Table 20-XIV of IS-GPS-200 lists for it |
| `IsgpsWord.Equation28` | gpsd-2.37/isgps.c:106 | parity bit D28 is the modulo-2 sum of exactly the bits that Table 20-XIV of IS-GPS-200 lists for it |
| `IsgpsWord.Equation29` | gpsd-2.37/isgps.c:107 | parity bit D29 is the modulo-2 sum of exactly the bits that Table 20-XIV of IS-GPS-200 lists for it |
| `IsgpsWord.Equation30` | gpsd-2.37/isgps.c:108 | parity bit D30 is the modulo-2 sum of exactly the bits that Table 20-XIV of IS-GPS-200 lists for it |
| `IsgpsWord.OddXor` | gpsd-2.37/isgps.c:99-141 | parity is linear over exclusive or |
| `IsgpsWord.SyndromeLinear` | gpsd-2.37/isgps.c:143 | so are all six mismatches between received and computed parity bits |
| `IsgpsWord.ColumnsAreOdd` | gpsd-2.37/isgps.c:103-108 | every column of the check matrix has odd weight: an error pattern has odd weight exactly if an odd number of mismatches show |
| `IsgpsWord.TwoBitsShow` | gpsd-2.37/isgps.c:103-108 | its columns are distinct: two flipped bits always leave a mismatch |
| `IsgpsWord.SmallErrorsShow` | gpsd-2.37/isgps.c:143 | one to three flipped bits, the two carried bits intact, never pass the parity check |
| `IsgpsWord.ErrorDetected` | gpsd-2.37/isgps.c:143 | a sound word with one to three bits flipped is not sound |
| `Isgps.IsgpsDecoder.constructor` | gpsd-2.37/isgps.c:171-177 | a new decoder is in the initial state |
| `Isgps.IsgpsDecoder.Init` | gpsd-2.37/isgps.c:171-177 | resets all but the word buffer |
| `Isgps.IsgpsDecoder.Synchronise` | gpsd-2.37/isgps.c:198-223 | the loop over six offsets stops at the first at which preamble and parity are right, with the register and offset that belong to it |
| `Isgps.LockPointIs` | gpsd-2.37/isgps.c:202-222 | where the synchronising loop locks when no earlier window shows a preamble |
| `Isgps.NoLockPoint` | gpsd-2.37/isgps.c:202-222 | it does not lock when no window shows one |
| `Isgps.IsgpsDecoder.TrackSymbol` | gpsd-2.37/isgps.c:225-299 | the locked half: merging, inversion, parity, storing, completion, carry of two bits; on loss of lock the register is kept |
| `Isgps.IsgpsDecoder.Decode` | gpsd-2.37/isgps.c:180-306 | isgps_decode as one step of the decoder, with the RTCM hooks, keeping the reassembly invariant |
| `Isgps.StepKeepsValid` | gpsd-2.37/isgps.c:260-281 | reassembly bound: a decoder whose words do not yet complete a message never fills its 33-word buffer, so the overflow branch is dead |
| `IsgpsRoundTrip.RunKeepsValid` | gpsd-2.37/isgps.c:260-281 | the same over every run, on any bytes |
| `IsgpsTransport.OutputMagnavox` | gpsd-2.37/isgps.c:310-337 | the encoder sends every word with its carry, parity and inversion, as five tagged six-bit symbols |
| `IsgpsRoundTrip.FollowWord` | gpsd-2.37/isgps.c:225-299 | a locked decoder, the symbol that ends a sound word arriving at any bit phase: the word is stored upright, the message reported if it is the last, and the invariant on register and offset holds for the next word |
| `IsgpsRoundTrip.ListenLock` | gpsd-2.37/isgps.c:198-299 | an unlocked decoder locks on the symbol that brings the last bit of a first word, and stores it |
| `IsgpsRoundTrip.FollowStream` | gpsd-2.37/isgps.c:180-306 | a locked decoder follows any well-framed word stream to its end |
| `IsgpsRoundTrip.ListenStream` | gpsd-2.37/isgps.c:180-306 | a listening decoder does not lock before bit 30 and follows from there |
| `IsgpsRoundTrip.IdleStream` | gpsd-2.37/isgps.c:180-306 | any number of all-zero words before the first message is passed over without locking |
| `IsgpsRoundTrip.UntaggedBytesIgnored` | gpsd-2.37/isgps.c:189-193 | bytes with the wrong tag, anywhere, change neither the decoder nor what it returns for the others |
| `IsgpsRoundTrip.TransportRoundTrip` | gpsd-2.37/isgps.c:180-338 | from the initial state, for any sequence of well-formed messages in one encoder pass, at any bit phase behind any idle time, with wrong-tag bytes anywhere: ISGPS_MESSAGE exactly on the byte with the last bit of each message, with all its words, and nothing before the first lock |
| `IsgpsRoundTrip.MessagesRecovered` | gpsd-2.37/rtcm.c:434-452 | the messages returned are those sent: as many, in order, with all 24 data bits of every word |
| `IsgpsRoundTrip.DamagedWordDropsLock` | gpsd-2.37/isgps.c:234-295 | one to three flipped bits in a word, inverted or not, make a locked decoder drop lock without storing it, its register keeping what it read |
| `IsgpsRecovery.ReadyAfterDamage` | gpsd-2.37/isgps.c:290-295 | what such a word leaves in the register is what the next word needs: the two bits it carries over, if they are intact and the symbols end where the words do |
| `IsgpsRecovery.LateStream` | gpsd-2.37/isgps.c:180-306 | a decoder without lock that starts to listen in the middle of any word stream, at any bit, passes over it and locks on the last bit of the first word it is given behind one that ends in a zero, if no window before shows a sound first word |
| `IsgpsRecovery.PreambleHidden` | gpsd-2.37/isgps.c:202-222 | a preamble behind a word that ends in a one is sent inverted, and the unlocked decoder does not see it |
| `IsgpsRecovery.LateMessages` | gpsd-2.37/isgps.c:180-306 | that message and all behind it are returned, each on the byte of its last bit, with all their data bits and nothing else, untagged bytes anywhere |
| `IsgpsRecovery.DamageRecovered` | gpsd-2.37/isgps.c:234-306 | recovery: after a sound word with one to three flipped bits, the same of what follows: of the very next message, if the symbols end where the words do and the two carried bits are intact, and else of the first with a word before it |
| `IsgpsRecovery.IdleWaits` | gpsd-2.37/isgps.c:267-275 | idle line behind a message: the decoder keeps its lock and its offset, and loses the bits of the next word that a symbol brings with the last of an idle one |
| `IsgpsRecovery.IdleBetween` | gpsd-2.37/isgps.c:225-306 | when symbols end where words do it loses none: a message, any number of idle words, and any messages behind them are all returned, and what is returned in between |
| `Packet.JudgeChecked` | gpsd-2.37/packet.c:860-1145 | a checked frame is accepted, leaving the state, or dropped with all that was read, back to the ground |
| `Packet.NextStateMinSeen` | gpsd-2.37/packet.c:73-764 | a state is reached only with enough bytes in the buffer for what is read in it |
| `Packet.OneTurn` | gpsd-2.37/packet.c:837-1206 | a turn of the loop reads on, puts back all but the first byte, or drops what was read, delivering nothing but exactly what was read |
| `PacketBuffer.GpsPacket.constructor` | gpsd-2.37/packet.c:1241-1251 | a new lexer is on the ground with empty buffers |
| `PacketBuffer.GpsPacket.PacketReset` | gpsd-2.37/packet.c:1241-1251 | so is a lexer after packet_reset, whose RTCM decoder is reset too |
| `PacketBuffer.GpsPacket.PacketAccept` | gpsd-2.37/packet.c:768-786 | copies what was read to the output buffer with its type, or drops it if it does not fit |
| `PacketBuffer.GpsPacket.PacketDiscard` | gpsd-2.37/packet.c:788-802 | shifts out all that was read and keeps the rest |
| `PacketBuffer.GpsPacket.CharacterDiscard` | gpsd-2.37/packet.c:804-814 | shifts out one byte and puts the others back to be read again |
| `PacketBuffer.GpsPacket.NmeaCheck` | gpsd-2.37/packet.c:860-871 | the NMEA checksum loop, against the predicate on the frame |
| `PacketBuffer.GpsPacket.SirfCheck` | gpsd-2.37/packet.c:881-889 | the SiRF sum |
| `PacketBuffer.GpsPacket.UbxCheck` | gpsd-2.37/packet.c:1067-1078 | the two running UBX sums |
| `PacketBuffer.GpsPacket.ReadStuffed` | gpsd-2.37/packet.c:1107-1111 | one byte of a DLE-stuffed frame |
| `PacketBuffer.GpsPacket.ReadData` | gpsd-2.37/packet.c:1112-1120 | the walk over stuffed data bytes, with their sum; it stops inside the frame |
| `PacketBuffer.GpsPacket.EvermoreCheck` | gpsd-2.37/packet.c:1099-1145 | the EverMore walk, memory-safe on every frame the lexer recognises, against its predicate |
| `PacketBuffer.GpsPacket.GarminCheck` | gpsd-2.37/packet.c:905-956 | the Garmin walk likewise |
| `PacketBuffer.GpsPacket.NavcomCheck` | gpsd-2.37/packet.c:488-493 | the exclusive or kept over a Navcom frame |
| `PacketBuffer.GpsPacket.NextState` | gpsd-2.37/packet.c:73-764 | nextstate on the class: state, length counter and RTCM decoder after a character |
| `PacketBuffer.GpsPacket.Check` | gpsd-2.37/packet.c:860-1145 | which check goes with which state, and the type a passing frame gets |
| `PacketBuffer.GpsPacket.Act` | gpsd-2.37/packet.c:850-1206 | what is done about the state reached: state, both buffers, type and whether packet_parse stops |
| `PacketBuffer.GpsPacket.OneCharacter` | gpsd-2.37/packet.c:837-1206 | one turn of the loop on the buffers is one turn of the abstract lexer, and keeps the buffer invariant |
| `PacketBuffer.GpsPacket.PacketParse` | gpsd-2.37/packet.c:822-1209 | a call of packet_parse: lexer, unread bytes, output and the number of nextstate calls are those of the specification |
| `PacketBuffer.GpsPacket.PacketGet` | gpsd-2.37/packet.c:1211-1239 | a read of any size, then a call; nothing to read, or a failed read, leaves all as it was, and the two kinds of failure return 0 and BAD_PACKET |
| `PacketRuns.RunConcat` | gpsd-2.37/packet.c:822-1209 | draining a stream in two parts is draining it whole |
| `PacketRuns.ParseIsRun` | gpsd-2.37/packet.c:822-1209 | one call of packet_parse is the beginning of the drained run |
| `PacketRuns.SessionIsRun` | gpsd-2.37/packet.c:822-1239 | chunking independence: for any sequence of reads, what has been delivered and what is still to come equal what one read of the whole stream delivers, and the final lexer is the same |
| `PacketRuns.ChunkingIndependent` | gpsd-2.37/packet.c:822-1239 | two ways of cutting a stream into reads agree in packets, state and leftover buffer |
| `PacketRuns.RunConserves` | gpsd-2.37/packet.c:768-858 | conservation: packets are disjoint contiguous slices of the input in order, and the buffer is a suffix of it behind them |
| `PacketRuns.SessionConserves` | gpsd-2.37/packet.c:768-858 | the same for a caller that never drains: behind the packets delivered so far stand the bytes in the buffer, read and unread |
| `PacketRuns.ParseBound` | gpsd-2.37/packet.c:822-858 | one call ends after at most 1 + 2 + ... + L calls of nextstate, L the bytes in the buffer |
| `PacketRuns.TriangleClosed` | gpsd-2.37/packet.c:822-858 | that bound is L(L+1)/2 |
| `PacketShape.OneTurnShape` | gpsd-2.37/packet.c:440-459 | kept by every turn: what the buffer holds in each state of the stuffed protocols, with or without a four-byte TSIP runt before it |
| `PacketShape.RecognizedIsWalkable` | gpsd-2.37/packet.c:1099-1133 | a recognised frame ends in its only unpaired DLE, or begins with a runt that stops every walk at once |
| `Bytes.TakeStuffed` | gpsd-2.37/packet.c:1107-1130 | a walk over stuffed bytes gets what it asks for exactly if there are that many, and never passes the closing DLE ETX |
| `DleFrames.EvermoreMeaning` | gpsd-2.37/packet.c:1099-1133 | the EverMore check passes exactly the frames whose length byte counts length, payload and sum, and whose sum is right |
| `DleFrames.GarminMeaning` | gpsd-2.37/packet.c:905-946 | the Garmin check passes exactly the frames whose length byte counts the data and whose bytes sum to zero |
| `PacketSound.RunSound` | gpsd-2.37/packet.c:822-1209 | over every run, on any bytes: each packet delivered passed its check, and each EverMore packet is the frame of some payload of at most 253 bytes |
| `PacketForm.RunLooks` | gpsd-2.37/packet.c:73-1209 | over every run, on any bytes: each packet delivered is of the form of its protocol, leader, declared length and trailer, and its checksum is right: SiRF, UBX, Navcom, NMEA, comments |
| `PacketSwitch.FirstCharacter` | gpsd-2.37/packet.c:245-252 | between packets, the first character of a frame is kept exactly if the state left by the last packet knows it; else it is lost |
| `PacketSwitch.FrameLost` | gpsd-2.37/packet.c:245-252 | a frame whose first character the state does not know is never delivered, whatever its other bytes |
| `FrameSwitch.SirfArrives` | gpsd-2.37/packet.c:432-437 | between packets, any SiRF message is delivered exactly if the last packet was SiRF's or the lexer is on the ground |
| `FrameSwitch.UbxArrives` | gpsd-2.37/packet.c:624-629 | the same for UBX messages |
| `FrameSwitch.NavcomArrives` | gpsd-2.37/packet.c:510-515 | the same for Navcom frames |
| `FrameSwitch.NmeaArrives` | gpsd-2.37/packet.c:245-252 | the same for completed sentences |
| `FrameSwitch.EvermoreArrives` | gpsd-2.37/packet.c:656-663 | EverMore frames are delivered behind EverMore, TSIP and Garmin packets, and no others |
| `FrameSwitch.TsipArrives` | gpsd-2.37/packet.c:729-742 | TSIP and Garmin frames behind TSIP and Garmin packets only: behind EverMore the DLE is kept, but the packet id is not expected |
| `FrameSwitch.CommentArrives` | gpsd-2.37/packet.c:83-170 | a comment, hash to end of line, is delivered exactly on the ground, and leaves the lexer there |
| `FrameSwitch.FreshIsReachable` | gpsd-2.37/packet.c:1241-1251 | a lexer as packet_reset leaves it is in a state a lexer can be in, as the next four suppose |
| `FrameSwitch.NavcomDamaged` | gpsd-2.37/packet.c:485-500 | from any state a lexer can be in, whatever is read: a Navcom frame with one byte behind the leader changed is not delivered |
| `FrameSwitch.SirfDamaged` | gpsd-2.37/packet.c:881-894 | nor a SiRF message with one byte of payload or checksum changed |
| `FrameSwitch.UbxDamaged` | gpsd-2.37/packet.c:1067-1094 | nor a UBX frame so changed, or with two unequal payload neighbours swapped |
| `FrameSwitch.NmeaDamaged` | gpsd-2.37/packet.c:860-876 | nor a completed sentence with a character of its text changed |
| `PacketSwitch.EmptyMessageLost` | gpsd-2.37/packet.c:245-252 | a concrete loss: nothing at all is delivered of the empty SiRF message behind a sentence |
| `Sirf.SirfWrite` | gpsd-2.37/sirf.c:103-124 | completes a message in place: payload unchanged, checksum behind it, nothing else touched, and sends it |
| `Sirf.FrameRunBehind` | gpsd-2.37/packet.c:399-437 | a SiRF frame with any bytes for payload and checksum is delivered or dropped whole, together with what the buffer held before it |
| `Sirf.DamageShows` | gpsd-2.37/packet.c:881-894 | the check passes exactly the messages of which no payload or checksum byte was changed |
| `Sirf.SirfStream` | gpsd-2.37/packet.c:399-437 | any sequence of messages is delivered one for one and byte for byte, save those with one byte of payload or checksum changed |
| `Sirf.SirfSession` | gpsd-2.37/packet.c:822-1239 | the same however the stream is cut into reads |
| `Evermore.Put` | gpsd-2.37/evermore.c:143-171 | a byte, doubled if it is a DLE, behind what is there |
| `Evermore.EvermoreWrite` | gpsd-2.37/evermore.c:137-172 | DLE STX, the length byte, doubled if the length is 16, payload and sum with every DLE doubled, DLE ETX; for at most 253 bytes that is the stuffed frame |
| `Evermore.WrittenIsFrame` | gpsd-2.37/evermore.c:148-150 | what is written is the stuffed frame exactly if the length is 16 or its low byte is not |
| `Evermore.AcceptedIsWritten` | gpsd-2.37/packet.c:1099-1145 | a recognised frame passes the check exactly if it is what evermore_write makes of some payload of at most 253 bytes |
| `Evermore.StuffInjective` | gpsd-2.37/evermore.c:151-167 | stuffing loses nothing |
| `Evermore.Unstuff` | gpsd-2.37/evermore.c:192-208 | the unstuffing loop recovers the payload of every such frame |
| `Evermore.BytesRun` | gpsd-2.37/packet.c:645-657 | stuffed bytes fewer than the length counter keep the lexer in the payload |
| `Evermore.FrameRun` | gpsd-2.37/packet.c:440-459 | from the ground or behind an EverMore packet, the frame of a payload of at most 253 bytes yields exactly one packet, byte for byte |
| `Evermore.EvermoreStream` | gpsd-2.37/packet.c:632-663 | any number of them back to back is delivered one for one |
| `Tsip.JudgeIs` | gpsd-2.37/packet.c:897-1045 | when a DLE frame is Garmin's, when TSIP, and when dropped |
| `Tsip.KnownLengths` | gpsd-2.37/packet.c:958-1025 | for data without a DLE: the list of packet ids and data lengths that pass as TSIP |
| `Tsip.FrameRun` | gpsd-2.37/packet.c:705-735 | every DLE frame with data is recognised as a whole and delivered or dropped as that verdict says |
| `Tsip.TsipStream` | gpsd-2.37/packet.c:897-1045 | a stream of them, with the bar that an accepted TSIP packet puts on Garmin's |
| `Tsip.RuntRun` | gpsd-2.37/packet.c:898-900 | a frame without data stays at the head of the buffer |
| `Tsip.RuntSpoilsMessage` | gpsd-2.37/packet.c:898-900 | and makes the lexer drop the SiRF message behind it, whatever its payload |
| `Navcom.SumIs` | gpsd-2.37/packet.c:488-493 | the running exclusive or is that of everything between leader and checksum |
| `Navcom.NavcomStream` | gpsd-2.37/packet.c:461-516 | any number of Navcom frames with data, up to the buffers' size, is delivered one for one |
| `Nmea.NmeaAddChecksum` | gpsd-2.37/nmea_parse.c:798-815 | star, the exclusive or of what is summed in two hex digits, CR, LF and NUL at the first star or NUL; the rest of the buffer unchanged |
| `Nmea.LeaderWalks` | gpsd-2.37/packet.c:180-229 | every accepted leader brings the lexer to the body of the sentence |
| `Nmea.SentOk` | gpsd-2.37/packet.c:860-876 | a completed sentence passes the check exactly if it began with a $ and no character of its text was changed |
| `Nmea.SentenceRun` | gpsd-2.37/packet.c:180-252 | from the ground or behind a sentence, it is delivered unchanged or dropped whole |
| `Nmea.NmeaStream` | gpsd-2.37/packet.c:180-252 | a stream of them is delivered unchanged, save those damaged and those that began with a ! |
| `NmeaFields.JoinFields` | gpsd-2.37/nmea_parse.c:762-777 | the fields joined with commas are the text, and none holds a comma |
| `NmeaFields.FieldsJoin` | gpsd-2.37/nmea_parse.c:762-777 | no other list of comma-free fields is |
| `NmeaFields.EditableCopy` | gpsd-2.37/nmea_parse.c:751-755 | the copy that is cut up, ended where the checksum or line end begins, or at its NUL |
| `NmeaFields.FindComma` | gpsd-2.37/nmea_parse.c:769 | strchr for a comma |
| `NmeaFields.CutAtCommas` | gpsd-2.37/nmea_parse.c:760-777 | the loop leaves each field as a NUL-terminated string in the copy, in order, one more than there are commas |
| `NmeaFields.SplitFields` | gpsd-2.37/nmea_parse.c:737-777 | overlong sentences are refused, all others split so |
| `NmeaFields.SentenceFields` | gpsd-2.37/nmea_parse.c:737-777 | for a completed sentence, joining field[0..count] with commas gives back its body |
| `Ubx.FletcherIs` | gpsd-2.37/packet.c:1067-1078 | the loop computes the plain and the position-weighted sum modulo 256 |
| `Ubx.SwapShows` | gpsd-2.37/packet.c:1067-1078 | swapping two unequal neighbours keeps the first sum and changes the second |
| `Ubx.SentOk` | gpsd-2.37/packet.c:1079-1094 | the check passes exactly the frames with no payload or checksum byte changed and no two unequal payload neighbours swapped |
| `Ubx.ItemRun` | gpsd-2.37/packet.c:590-629 | a frame with 1 to 516 payload bytes is delivered as sent or dropped whole |
| `Ubx.UbxStream` | gpsd-2.37/packet.c:590-629 | a stream of them is delivered one for one, save the damaged |
| `Base64.B64Ntop` | gpsd-2.37/bsd-base64.c:132-191 | writes the encoding of section 4 of RFC 4648 and a NUL if both fit, else returns -1; nothing behind the target size is touched |
| `Base64.PutDigit` | gpsd-2.37/bsd-base64.c:220-258 | the switch: one more digit, shifted and ored into place, if there is room for what it touches |
| `Base64.PadTail` | gpsd-2.37/bsd-base64.c:266-297 | what is accepted behind the first padding character |
| `Base64.AlphabetIs` | gpsd-2.37/bsd-base64.c:64-65 | digit and value of all 64 characters, against Table 1 of RFC 4648 |
| `Base64.QuadNumber` | gpsd-2.37/bsd-base64.c:139-160 | four digits are the 24 bits of three bytes as one number |
| `Base64.B64Pton` | gpsd-2.37/bsd-base64.c:201-316 | result and bytes written are the specified outcome on the text without its white space |
| `Base64.DecodeEncode` | gpsd-2.37/bsd-base64.c:132-316 | every encoding is accepted and decodes to what was encoded |
| `Base64.EncodeDecode` | gpsd-2.37/bsd-base64.c:132-316 | a text that is accepted is the encoding of what it decodes to |
| `Base64.AcceptsEncodings` | gpsd-2.37/bsd-base64.c:132-316 | both directions as one equivalence |
| `Base64.OutcomeIs` | gpsd-2.37/bsd-base64.c:201-316 | with the target size: success exactly on encodings whose bytes fit, where bytes that do not fill their quads want one byte more |
| `Base64.RoundTrip` | gpsd-2.37/bsd-base64.c:132-316 | what b64_ntop writes b64_pton reads back, given that room |
| `Calendar.Mkgmtime` | gpsd-2.37/gpsutils.c:145-171 | the successive assignments compute the closed form |
| `Calendar.FlooredCounts` | gpsd-2.37/gpsutils.c:154-157 | the closed form, rounded down, is the recursive count of days of the Gregorian calendar |
| `Calendar.MonthClosed` | gpsd-2.37/gpsutils.c:150-151 | the table of cumulative days is the recursive sum of month lengths |
| `Calendar.MkgmtimeIsTrue` | gpsd-2.37/gpsutils.c:145-171 | for every year from 1900, mkgmtime equals the recursive count exactly if the year is 1968 or later or a multiple of four |
| `Calendar.NewYear1967` | gpsd-2.37/gpsutils.c:155 | a year for which it does not |
| `Calendar.LinearInDays` | gpsd-2.37/gpsutils.c:161-162 | a day of the month too many is a day more |
| `Calendar.MkgmtimeIncreases` | gpsd-2.37/gpsutils.c:145-171 | strictly increasing in calendar order |
| `NmeaClock.NmeaDriver.MergeHhmmss` | gpsd-2.37/nmea_parse.c:83-94 | a time of day merged into the date, with the midnight wrap |
| `NmeaClock.NmeaDriver.ProcessGPZDA` | gpsd-2.37/nmea_parse.c:533-537 | ZDA sets date and time |
| `NmeaClock.NmeaDriver.ProcessGPGGA` | gpsd-2.37/nmea_parse.c:277-289 | GGA moves the date on if it reports a fix, and makes a fix time of it if there is a year |
| `NmeaClock.NmeaDriver.ProcessGPGLL` | gpsd-2.37/nmea_parse.c:214-224 | GLL likewise |
| `NmeaClock.StepIsExact` | gpsd-2.37/nmea_parse.c:83-90 | a time field brings the date to the true second exactly if the days gone by are what the hours show |
| `NmeaClock.StepWithinDay` | gpsd-2.37/nmea_parse.c:83-90 | less than a day later, exactly unless midnight has passed and the hour is the same |
| `NmeaClock.GapIsSafe` | gpsd-2.37/nmea_parse.c:83-90 | gaps of at most 23 hours never do that |
| `NmeaClock.GapTooLong` | gpsd-2.37/nmea_parse.c:83-90 | a gap of 23 hours and a half that loses a day |
| `NmeaClock.ZdaSets` | gpsd-2.37/nmea_parse.c:533-537 | after a ZDA mkgmtime of the date is true UTC, whatever it was before |
| `NmeaClock.ClockKeepsTime` | gpsd-2.37/nmea_parse.c:283-288 | and stays so over any number of fixes with gaps of at most 23 hours: midnights, month ends and leap days included |
| `NmeaClock.ClockAfterZda` | gpsd-2.37/nmea_parse.c:519-544 | the two together |
| `RtcmHooks.LengthField` | gpsd-2.37/rtcm.c:439-443 | length_check reads the frame-length field of the message layout |
| `RtcmHooks.PreambleField` | gpsd-2.37/rtcm.c:434-437 | preamble_match reads the preamble field |
| `RtcmStream.GroundTurn` | gpsd-2.37/packet.c:108-173 | on the ground, what each byte that opens no other frame does, by what the decoder says of it: a packet, the start of following, a letter held back, or dropped |
| `RtcmStream.InsideTurn` | gpsd-2.37/packet.c:744-753 | following the decoder, the lexer hands over all it has read exactly on ISGPS_MESSAGE, and reads on otherwise |
| `RtcmStream.TaggedStays` | gpsd-2.37/packet.c:73-160 | no byte with the data tag opens a frame of another protocol |
| `RtcmGreeting.GreetingStops` | gpsd-2.37/packet.c:257-345 | when a greeting stops behind one to three letters on the ground, the decoder has had them all, and all but the first are put to it once more |
| `RtcmStream.StreamRun` | gpsd-2.37/packet.c:744-762 | on any bytes through which the decoder keeps lock, the packets are the stream cut after each completed message, and each is handed over while the decoder holds that message |
| `RtcmDelivery.PeacefulIsCalm` | gpsd-2.37/packet.c:108-173 | what the sender can see of its bytes, that no other frame and no greeting begins up to lock, keeps the lexer from being disturbed |
| `RtcmDelivery.StreamDelivered` | gpsd-2.37/packet.c:1194-1205 | from the transmitter to the packets: for any messages in one encoder pass, behind any idle line, from any bit on, with untagged bytes anywhere, if none of these bytes up to lock disturbs the lexer: each message ends one stretch of the stream, and exactly the stretches that fit the buffer are handed over, in order, the decoder holding all data bits of the message at that moment |
| `RtcmDelivery.CleanStreamFits` | gpsd-2.37/packet.c:768-790 | without untagged bytes every such stretch fits the output buffer |
| `RtcmDelivery.CleanStreamDelivered` | gpsd-2.37/packet.c:1194-1205 | so a clean transmission makes one packet of every message |
| `RtcmRegister.FifthStep` | gpsd-2.37/isgps.c:198-299 | a decoder that heard one letter too many locks, if at all, right way up and at a fresh offset |
| `RtcmRegister.LastStep` | gpsd-2.37/isgps.c:198-299 | and is not, after the symbol that ends the first word, a decoder that has just stored this word |
| `RtcmFirstWord.FirstWordHeard` | gpsd-2.37/packet.c:108-345 | exactly when the first word is heard: the lexer leaves the decoder as an undisturbed one, locked and with the first word stored, if and only if no two letters of a greeting follow each other in the bytes up to lock |
| `RtcmFirstWord.ExactlyHeard` | gpsd-2.37/packet.c:108-345 | for a clean transmission: that, and every message delivered if moreover lock does not come on a letter A or E |
| `RtcmLost.MessageLost` | gpsd-2.37/packet.c:257-264 | an input that fails: a type 3 message from station 130, sent as the encoder sends it to a fresh lexer, makes no packet |
| `RtcmBeacon.UnpackReadsMessage` | gpsd-2.37/rtcm.c:71-231 | types 1, 3, 5, 9 and 16: unpacking depends on no parity bit and on no word beyond the announced length |
| `RtcmBeacon.BeaconReceived` | gpsd-2.37/drivers.c:786-794 | the whole way: at each packet rtcm_unpack reads from the decoder's buffer the header and contents it would read from the transmitter's, for all messages whose stretch of the stream fits the lexer's buffer |
| `RtcmBeacon.CleanBeaconReceived` | gpsd-2.37/drivers.c:786-794 | for a clean transmission that is all messages, one for one |
| `RtcmFields.SatGood` | gpsd-2.37/rtcm.h:102-150 | the fields of a satellite lie inside their words and do not overlap |
| `RtcmFields.SatsApart` | gpsd-2.37/rtcm.h:102-150 | nor do those of different satellites, which share words |
| `RtcmFields.PutAllGet` | gpsd-2.37/rtcm.c:233-432 | assigning a list of disjoint bit-fields leaves the low bits of each value in its field |
| `RtcmLayout.FieldIs` | gpsd-2.37/rtcm.h:82-281 | a bit-field of a buffer word is a run of the data bits as sent, most significant first |
| `RtcmLayout.HeaderAt` | gpsd-2.37/rtcm.h:83-98 | the header is type 6 bits, station 10, time 13, sequence 3, length 5 and health 3, one behind the other from bit 8 |
| `RtcmLayout.SatelliteAt` | gpsd-2.37/rtcm.h:102-150 | types 1 and 9: satellite k is the 40 bits from bit 40k behind the header: scale 1, UDRE 2, number 5, correction 16, rate 8, issue of data 8, in whatever words they fall, the third correction of a group out of two |
| `RtcmLayout.StationAt` | gpsd-2.37/rtcm.c:132-142 | type 3: three signed numbers of 32 bits one behind the other, each out of two words |
| `RtcmLayout.HealthAt` | gpsd-2.37/rtcm.c:175-190 | type 5: 24 bits to a satellite, with the places of its eight fields |
| `RtcmLayout.TextByteAt` | gpsd-2.37/rtcm.c:207-225 | type 16: character k is the 8 bits from bit 8k behind the header |
| `Rtcm.SatCount` | gpsd-2.37/rtcm.c:93-129 | no five-bit length yields more than 18 satellites |
| `Rtcm.ReadPut` | gpsd-2.37/rtcm.c:256-304 | a stored satellite is read back rounded to its scale, the third of a group through its split correction |
| `Rtcm.ReadPutOther` | gpsd-2.37/rtcm.c:256-304 | storing one satellite leaves all others |
| `Rtcm.SurvivesIs` | gpsd-2.37/rtcm.c:88-131 | a satellite read, stored and read again is the same exactly if it was at the large scale, or neither -32768 nor -128 occurs, or both values are multiples of sixteen |
| `Rtcm.EcefReadPut` | gpsd-2.37/rtcm.c:306-320 | the coordinates, each split at another bit, are read back as 32-bit signed numbers |
| `Rtcm.ConsatReadPut` | gpsd-2.37/rtcm.c:358-372 | the health of a satellite is read back |
| `RtcmCodec.CorrectionsSurvive` | gpsd-2.37/rtcm.c:71-304 | types 1 and 9: unpack after repack after unpack is unpack exactly if every satellite survives, whatever buffer it is repacked into |
| `RtcmCodec.StationSurvives` | gpsd-2.37/rtcm.c:132-142 | type 3: always |
| `RtcmCodec.ConstellationSurvives` | gpsd-2.37/rtcm.c:175-190 | type 5: always |
| `RtcmCodec.TextSurvives` | gpsd-2.37/rtcm.c:401-420 | a text is read back exactly if it has at most 92 bytes and a zero behind it in the buffer |
| `RtcmCodec.TextComesBack` | gpsd-2.37/rtcm.c:207-225 | type 16: unpack after repack after unpack gives the text exactly then, and the header always, but for the length, which is a third of the text's and one more |
| `RtcmCodec.MessageComesBack` | gpsd-2.37/rtcm.c:395-420 | type 16: the whole message comes back exactly if its text does and its length was already that |
| `RtcmCodec.AbcGrows` | gpsd-2.37/rtcm.c:417 | one that does not: the text ABC in one word comes back with a length of two |
| `RtcmMessage.RtcmT.RtcmUnpack` | gpsd-2.37/rtcm.c:71-231 | fills the fields and arrays with the content of the buffer, inside their bounds; the header fields and counts are the numbers at their places in the data bits sent |
| `RtcmMessage.RtcmT.UnpackRanges` | gpsd-2.37/rtcm.c:91-130 | the loop over groups of five words reads every satellite announced, in order |
| `RtcmMessage.RtcmT.UnpackText` | gpsd-2.37/rtcm.c:207-225 | the text loop with its three exits |
| `RtcmMessage.RtcmT.RtcmRepack` | gpsd-2.37/rtcm.c:233-424 | leaves the content in the buffer, bit-field by bit-field, and the other bits as they were |
| `RtcmMessage.RtcmT.RepackRanges` | gpsd-2.37/rtcm.c:254-304 | the loop stores every satellite |
| `RtcmMessage.RtcmT.RepackText` | gpsd-2.37/rtcm.c:401-420 | the text loop, and the length one more than the word it ended in |
| `Gsv.GsvDriver.ZeroSatellites` | gpsd-2.37/libgpsd_core.c:855-862 | clears the table |
| `Gsv.GsvDriver.PutBlock` | gpsd-2.37/nmea_parse.c:445-457 | a block becomes the next row if its satellite has a number |
| `Gsv.GsvDriver.ProcessGPGSV` | gpsd-2.37/nmea_parse.c:404-484 | a sentence: table and returned mask are those specified, and the table never holds more than MAXCHANNELS |
| `Gsv.CompleteRun` | gpsd-2.37/nmea_parse.c:404-484 | parts 1 to k, from any prior table, if the last block finds the table not full: the numbered satellites in order; SATELLITE_SET on the last part only, and exactly if some azimuth is not zero |
| `Gsv.Overfull` | gpsd-2.37/nmea_parse.c:439-444 | if it finds it full: the table is cleared and nothing reported |
| `Gsv.ParsedShown` | gpsd-2.37/nmea_parse.c:406-448 | a sentence whose fields show part n of k and rows of number, elevation, azimuth, signal in decimal, perhaps with zeros in front, is read as just that |
| `Gsv.SentencesCollected` | gpsd-2.37/nmea_parse.c:404-484 | the run over sentences 1 to k from their text: from any prior table, every numbered satellite in order, each quantity in its own column |
| `Gsv.PrintIsSentence` | gpsd-2.37/nmea_parse.c:406-417 | what a receiver prints for any rows of numbers is such a sentence |
| `YReport.PrintReport` | gpsd-2.37/gpsd.c:1081-1124 | the report lists exactly the rows with a number, in order, with the used flag found in the inner loop |
| `YReport.EmptyReported` | gpsd-2.37/gpsd.c:1081-1124 | for an empty table the phrase that makes the client count no satellites |
| `YReport.RowSample` | gpsd-2.37/gpsd.c:1100-1115 | the text of one row, character by character: number, elevation, azimuth, signal, used |
| `YReport.ScanPrinted` | gpsd-2.37/libgps.c:464 | a printed number is scanned back up to the first character that is no digit |
| `YReport.GpsData.UnpackReport` | gpsd-2.37/libgps.c:440-479 | tag, count, rows and the count of used rows as read from the field |
| `YReport.ReportReadBack` | gpsd-2.37/libgps.c:448-471 | printed and unpacked: the client's table is the daemon's numbered rows in order with their flags, and satellites_used the number of listed rows found in used[] |
| `YReport.ReportIsOneField` | gpsd-2.37/libgps.c:194-200 | the field loop does not cut the report |
| `Srecord.Hexdump` | gpsd-2.37/srecord.c:77-89 | two digits to a byte, zeros behind them |
| `Bytes.HexDigitIs` | gpsd-2.37/srecord.c:92-118 | a digit is its character in 0 to 9, A to F |
| `Srecord.SrSum` | gpsd-2.37/srecord.c:120-136 | the complement of the sum of count, address and data |
| `Srecord.Bin2srec` | gpsd-2.37/srecord.c:40-56 | one record, or -1 for a chunk of the wrong size; a reader of it finds the type, the count, the offset most significant digit first, the data bytes in order and the sum |
| `Srecord.RecordReads` | gpsd-2.37/srecord.c:50-54 | the record written, read digit by digit: the eight digits behind the count are one base-16 number, the offset, and the pairs behind them the data |
| `Srecord.RecordReceived` | gpsd-2.37/srecord.c:40-56 | the undamaged records of the theorems below are what bin2srec writes |
| `Srecord.SrecCheck` | gpsd-2.37/gpsflash.c:633-687 | reports trouble exactly if some line is unsound |
| `Srecord.LineOkIs` | gpsd-2.37/gpsflash.c:661-684 | a line is sound exactly if its first byte counts the others and its last is the complement of their sum |
| `Srecord.DamageShows` | gpsd-2.37/hex.c:53-79 | a record is sound exactly if no hex digit behind its type was replaced by one of another value |
| `Srecord.ImageChecked` | gpsd-2.37/gpsflash.c:633-687 | so any concatenation of records passes, and exactly if none was so changed |

## Left out

- Zodiac and iTalk recognition: iTalk decides on bytes not yet read, and the Zodiac word index runs out of the frame behind a runt; TNT and Garmin text support are off.
- The order of tests in the ground state is kept, but the RTCM decoder sees the first bytes of the protocols left out.
- UBX frames without payload and Navcom frames of declared length 4: their counters are decremented from zero; the lexer model has the wrap-around, the stream theorems start at one data byte.
- Navcom.NavcomStream: has no damaged frames in the stream, because these are read again from their second byte; FrameSwitch.NavcomDamaged says that they are not delivered.
- RTCM types 4 and 7: the last word of the one declares 40 bits, and the other loops over words rather than stations.
- RtcmMessage.RtcmT.RtcmUnpack: requires a type other than 4 and 7.
- RtcmMessage.RtcmT.RtcmRepack: does not model the parity bits, which the source marks unfinished; no field that is read holds them.
- RtcmFirstWord.ExactlyHeard: does not say what becomes of the later messages when the first word is not heard; the decoder may lock on one of them, or on a chance preamble.
- Messages of unknown RTCM type are copied as raw words; no round trip is stated, because the copied words hold parity bits.
- IsgpsRoundTrip.TransportRoundTrip: is about well-formed messages in one encoder pass; for idle line between them see IsgpsRecovery.IdleWaits and IsgpsRecovery.IdleBetween.
- IsgpsRecovery.LateMessages: does not say what a chance preamble with right parity leads to.
- The date after GPRMC, which merges date before time, so that the day advances twice.
- NmeaClock.NmeaDriver.MergeHhmmss: leaves out subseconds.
- NmeaClock.NmeaDriver.ProcessGPZDA: leaves out subseconds, and requires a month of at least one, below which `mkgmtime` reads in front of its table.
- Srecord.Hexdump: requires at most 16 bytes; the limit of 32 in the code lets longer ones overrun the buffer.
- Srecord.Bin2srec: requires a type of one digit.
- YReport.GpsData.UnpackReport: requires a count, and one that the client's arrays have room for, which gps_unpack does not check.
- Base64.B64Pton: leaves out the null target, with which nothing is stored and the leftover bits go unchecked.
- srec_fin, whose sum omits the count bytes, and the Garmin packet builder, which does not stuff.
- YReport.ReportReadBack: takes tags of up to eight and time stamps of up to twenty characters, without blanks and colons.
- gps_unpack fields other than Y, handle_gpsd_request commands other than Y.
- Field decoding in the drivers, speed and mode switching, floating-point geodesy and error models: long but shallow, or not exact.
- Sockets, serial lines, logging, shared memory and clocks.
