/** The packet-recognition state machine of packet.c and the per-protocol checks made on a recognised
    frame, as functions of the state and the bytes seen so far. The Zodiac and iTalk branches are not
    part of this model; TNT and Garmin text support are off, as in the shipped configuration. */
module Packet {
  import opened Bytes
  import IsgpsWord
  import Isgps

  const MAX_PACKET_LENGTH: nat := 516
  const BUFFER_SIZE: nat := 2 * MAX_PACKET_LENGTH + 1
  /** The largest value of the length counter, an unsigned 64-bit number. */
  const SIZE_MAX: nat := 0xffff_ffff_ffff_ffff

  datatype PacketType =
    | BadPacket | CommentPacket | NmeaPacket | SirfPacket | TsipPacket | EvermorePacket
    | RtcmPacket | GarminPacket | NavcomPacket | UbxPacket

  datatype LexState =
    | Ground | CommentBody | CommentRecognized
    | NmeaDollar | NmeaBang | NmeaPubLead | NmeaVendorLead | NmeaLeaderEnd | NmeaCr | NmeaRecognized
    | SirfAckLead1 | SirfAckLead2 | AisLead1 | AisLead2 | SeatalkLead1
    | DleLeader
    | Astral1 | Astral2 | Astral3 | Astral4 | Astral5
    | Eartha1 | Eartha2 | Eartha3 | Eartha4 | Eartha5
    | SirfLeader1 | SirfLeader2 | SirfLength1 | SirfPayload | SirfDelivered | SirfTrailer1 | SirfRecognized
    | EvermoreLeader1 | EvermoreLeader2 | EvermorePayload | EvermorePayloadDle | EvermoreRecognized
    | NavcomLeader1 | NavcomLeader2 | NavcomLeader3 | NavcomId | NavcomLength1 | NavcomLength2
    | NavcomPayload | NavcomCsum | NavcomRecognized
    | UbxLeader1 | UbxLeader2 | UbxClassId | UbxMessageId | UbxLength1 | UbxLength2
    | UbxPayload | UbxChecksumA | UbxRecognized
    | TsipLeader | TsipPayload | TsipDle | TsipRecognized
    | RtcmSync | RtcmSkip | RtcmRecognized

  // ---------- nextstate ----------

  /** The characters that make nextstate call the RTCM decoder. */
  predicate FeedsRtcm(state: LexState, c: byte) {
    match state
    case Ground =>
      c != '#' as int && c != '$' as int && c != '!' as int && c != 0xa0 && c != DLE && c != 0xb5 && c != 0x02
    case Astral1 => c == 'S' as int
    case Astral2 => c == 'T' as int
    case Astral3 => c == 'R' as int
    case Astral4 => c == 'A' as int
    case Astral5 => c == 'L' as int
    case Eartha1 => c == 'A' as int
    case Eartha2 => c == 'R' as int
    case Eartha3 => c == 'T' as int
    case Eartha4 => c == 'H' as int
    case Eartha5 => c == 'A' as int
    case RtcmSync => true
    case RtcmSkip => true
    case RtcmRecognized => true
    case _ => false
  }

  /** `--length`: unsigned, so zero wraps around. */
  function Decrement(length: nat): nat {
    if length == 0 then SIZE_MAX else length - 1
  }

  /** The exclusive or kept over a Navcom frame. */
  function NavcomSum(seen: seq<byte>): byte
    requires |seen| >= 4
  {
    XorFold(seen[3], seen[4..])
  }

  function GroundNext(c: byte, stat: Isgps.Status): LexState {
    if c == '#' as int then CommentBody
    else if c == '$' as int then NmeaDollar
    else if c == '!' as int then NmeaBang
    else if c == 0xa0 then SirfLeader1
    else if c == DLE then DleLeader
    else if c == 'A' as int then (if stat == Isgps.Message then RtcmRecognized else Astral1)
    else if c == 'E' as int then (if stat == Isgps.Message then RtcmRecognized else Eartha1)
    else if c == 0xb5 then UbxLeader1
    else if c == 0x02 then NavcomLeader1
    else if stat == Isgps.Sync then RtcmSync
    else if stat == Isgps.Message then RtcmRecognized
    else Ground
  }

  function TextNext(state: LexState, c: byte): LexState {
    match state
    case CommentBody =>
      if c == '\n' as int then CommentRecognized
      else if !IsPrint(c) then Ground
      else state
    case NmeaDollar =>
      if c == 'G' as int then NmeaPubLead
      else if c == 'P' as int then NmeaVendorLead
      else if c == 'I' as int then SeatalkLead1
      else if c == 'A' as int then SirfAckLead1
      else Ground
    case NmeaPubLead => if c == 'P' as int then NmeaLeaderEnd else Ground
    case NmeaVendorLead => if IsAlpha(c) then NmeaLeaderEnd else Ground
    case NmeaBang => if c == 'A' as int then AisLead1 else Ground
    case AisLead1 => if c == 'I' as int then AisLead2 else Ground
    case AisLead2 => if IsAlpha(c) then NmeaLeaderEnd else Ground
    case NmeaLeaderEnd =>
      if c == '\r' as int then NmeaCr
      else if c == '\n' as int then NmeaRecognized
      else if c == '$' as int then NmeaDollar
      else if !IsPrint(c) then Ground
      else state
    case NmeaCr => if c == '\n' as int then NmeaRecognized else Ground
    case NmeaRecognized =>
      if c == '$' as int then NmeaDollar
      else if c == '!' as int then NmeaBang
      else Ground
    case SeatalkLead1 => if c == 'I' as int || c == 'N' as int then NmeaLeaderEnd else Ground
    case SirfAckLead1 =>
      if c == 'c' as int then SirfAckLead2
      else if c == 'I' as int then AisLead2
      else Ground
    case SirfAckLead2 => if c == 'k' as int then NmeaLeaderEnd else Ground
    case _ => state
  }

  function GreetingNext(state: LexState, c: byte, stat: Isgps.Status): LexState {
    match state
    case Astral1 => AfterLetter(c == 'S' as int, stat, Astral2)
    case Astral2 => AfterLetter(c == 'T' as int, stat, Astral3)
    case Astral3 => AfterLetter(c == 'R' as int, stat, Astral5)
    case Astral4 => AfterLetter(c == 'A' as int, stat, Astral2)
    case Astral5 => AfterLetter(c == 'L' as int, stat, NmeaRecognized)
    case Eartha1 => AfterLetter(c == 'A' as int, stat, Eartha2)
    case Eartha2 => AfterLetter(c == 'R' as int, stat, Eartha3)
    case Eartha3 => AfterLetter(c == 'T' as int, stat, Eartha4)
    case Eartha4 => AfterLetter(c == 'H' as int, stat, Eartha5)
    case Eartha5 => AfterLetter(c == 'A' as int, stat, NmeaRecognized)
    case _ => state
  }

  function SirfNext(state: LexState, length: nat, c: byte): (LexState, nat) {
    match state
    case SirfLeader1 => (if c == 0xa2 then SirfLeader2 else Ground, length)
    case SirfLeader2 => (SirfLength1, (c as int) * 256)
    case SirfLength1 =>
      var n := length + c + 2;
      (if n <= MAX_PACKET_LENGTH then SirfPayload else Ground, n)
    case SirfPayload => Counted(length, SirfPayload, SirfDelivered)
    case SirfDelivered => (if c == 0xb0 then SirfTrailer1 else Ground, length)
    case SirfTrailer1 => (if c == 0xb3 then SirfRecognized else Ground, length)
    case SirfRecognized => (if c == 0xa0 then SirfLeader1 else Ground, length)
    case _ => (state, length)
  }

  /** EverMore and TSIP, which share their leader. */
  function DleNext(state: LexState, length: nat, c: byte): (LexState, nat) {
    match state
    case DleLeader => (
      if c == STX then EvermoreLeader2
      else if c >= 0x13 then TsipPayload
      else Ground, length)
    case EvermoreLeader1 => (if c == STX then EvermoreLeader2 else Ground, length)
    case EvermoreLeader2 => (if c == DLE then EvermorePayloadDle else EvermorePayload, c)
    case EvermorePayload =>
      if c == DLE then (EvermorePayloadDle, length)
      else Counted(length, EvermorePayload, Ground)
    case EvermorePayloadDle => (
      if c == DLE then EvermorePayload
      else if c == ETX then EvermoreRecognized
      else Ground, length)
    case EvermoreRecognized => (if c == DLE then EvermoreLeader1 else Ground, length)
    case TsipLeader => (if c >= 0x13 then TsipPayload else Ground, length)
    case TsipPayload => (if c == DLE then TsipDle else TsipPayload, length)
    case TsipDle => (
      if c == ETX then TsipRecognized
      else if c == DLE then TsipPayload
      else Ground, length)
    case TsipRecognized => (if c == DLE then DleLeader else Ground, length)
    case _ => (state, length)
  }

  function NavcomNext(state: LexState, length: nat, seen: seq<byte>, c: byte): (LexState, nat)
    requires state == NavcomPayload ==> |seen| >= 4
  {
    match state
    case NavcomLeader1 => (if c == 0x99 then NavcomLeader2 else Ground, length)
    case NavcomLeader2 => (if c == 0x66 then NavcomLeader3 else Ground, length)
    case NavcomLeader3 => (NavcomId, length)
    case NavcomId => (NavcomLength1, if c < 4 then SIZE_MAX + 1 + c - 4 else c - 4)
    case NavcomLength1 => (NavcomLength2, (length + (c as int) * 256) % (SIZE_MAX + 1))
    case NavcomLength2 => Counted(length, NavcomLength2, NavcomPayload)
    case NavcomPayload => (if NavcomSum(seen) == c then NavcomCsum else Ground, length)
    case NavcomCsum => (if c == 0x03 then NavcomRecognized else Ground, length)
    case NavcomRecognized => (if c == 0x02 then NavcomLeader1 else Ground, length)
    case _ => (state, length)
  }

  function UbxNext(state: LexState, length: nat, c: byte): (LexState, nat) {
    match state
    case UbxLeader1 => (if c == 0x62 then UbxLeader2 else Ground, length)
    case UbxLeader2 => (UbxClassId, length)
    case UbxClassId => (UbxMessageId, length)
    case UbxMessageId => (UbxLength1, c)
    case UbxLength1 =>
      var n := length + (c as int) * 256;
      (if n <= MAX_PACKET_LENGTH then UbxLength2 else Ground, n)
    case UbxLength2 => (UbxPayload, length)
    case UbxPayload => Counted(length, UbxPayload, UbxChecksumA)
    case UbxChecksumA => (UbxRecognized, length)
    case UbxRecognized => (if c == 0xb5 then UbxLeader1 else Ground, length)
    case _ => (state, length)
  }

  function RtcmNext(state: LexState, stat: Isgps.Status): LexState {
    match state
    case RtcmRecognized => if stat == Isgps.Sync then RtcmSync else Ground
    case _ =>
      if stat == Isgps.Message then RtcmRecognized
      else if stat == Isgps.NoSync then Ground
      else state
  }

  datatype Family = GroundFamily | Text | Greeting | Sirf | Dle | Navcom | Ubx | Rtcm

  function FamilyOf(state: LexState): Family {
    match state
    case Ground => GroundFamily
    case Astral1 => Greeting case Astral2 => Greeting case Astral3 => Greeting case Astral4 => Greeting
    case Astral5 => Greeting
    case Eartha1 => Greeting case Eartha2 => Greeting case Eartha3 => Greeting case Eartha4 => Greeting
    case Eartha5 => Greeting
    case SirfLeader1 => Sirf case SirfLeader2 => Sirf case SirfLength1 => Sirf case SirfPayload => Sirf
    case SirfDelivered => Sirf case SirfTrailer1 => Sirf case SirfRecognized => Sirf
    case DleLeader => Dle
    case EvermoreLeader1 => Dle case EvermoreLeader2 => Dle case EvermorePayload => Dle
    case EvermorePayloadDle => Dle case EvermoreRecognized => Dle
    case TsipLeader => Dle case TsipPayload => Dle case TsipDle => Dle case TsipRecognized => Dle
    case NavcomLeader1 => Navcom case NavcomLeader2 => Navcom case NavcomLeader3 => Navcom
    case NavcomId => Navcom case NavcomLength1 => Navcom case NavcomLength2 => Navcom
    case NavcomPayload => Navcom case NavcomCsum => Navcom case NavcomRecognized => Navcom
    case UbxLeader1 => Ubx case UbxLeader2 => Ubx case UbxClassId => Ubx case UbxMessageId => Ubx
    case UbxLength1 => Ubx case UbxLength2 => Ubx case UbxPayload => Ubx case UbxChecksumA => Ubx
    case UbxRecognized => Ubx
    case RtcmSync => Rtcm case RtcmSkip => Rtcm case RtcmRecognized => Rtcm
    case _ => Text
  }

  /** The next state and length counter. `seen` is the buffer up to and not including `c`; `stat` is what
      the RTCM decoder made of `c`, where it was asked. */
  function NextState(state: LexState, length: nat, seen: seq<byte>, c: byte, stat: Isgps.Status): (LexState, nat)
    requires state == NavcomPayload ==> |seen| >= 4
  {
    match FamilyOf(state)
    case GroundFamily => (GroundNext(c, stat), length)
    case Text => (TextNext(state, c), length)
    case Greeting => (GreetingNext(state, c, stat), length)
    case Sirf => SirfNext(state, length, c)
    case Dle => DleNext(state, length, c)
    case Navcom => NavcomNext(state, length, seen, c)
    case Ubx => UbxNext(state, length, c)
    case Rtcm => (RtcmNext(state, stat), length)
  }

  /** A letter of a plain-text greeting, which may also end an RTCM message. */
  function AfterLetter(expected: bool, stat: Isgps.Status, next: LexState): LexState {
    if !expected then Ground
    else if stat == Isgps.Message then RtcmRecognized
    else next
  }

  function Counted(length: nat, stay: LexState, done: LexState): (LexState, nat) {
    var n := Decrement(length);
    (if n == 0 then done else stay, n)
  }

  // ---------- the checks on a recognised frame ----------

  /** A sentence with no star five bytes from its end is taken on trust; with one, the two hex digits
      after it must be the exclusive or of all between the first character and the star. */
  predicate NmeaOk(s: seq<byte>) {
    var t := |s| - 5;
    if t < 0 || s[t] != '*' as int then true
    else
      var crc := if t < 1 then 0 else XorFold(0, s[1..t]);
      HexDigit(crc / 16) == ToUpper(s[t + 1]) && HexDigit(crc % 16) == ToUpper(s[t + 2])
  }

  predicate SirfOk(s: seq<byte>)
    requires |s| >= 4
  {
    var t := |s| - 4;
    (s[t] as int) * 256 + s[t + 1] == (if t < 4 then 0 else Sum(s[4..t])) % 0x8000
  }

  function FletcherA(s: seq<byte>): byte { Sum(s) % 256 }

  function FletcherB(s: seq<byte>): byte {
    if s == [] then 0 else (FletcherB(s[..|s| - 1]) + FletcherA(s)) % 256
  }

  predicate UbxOk(s: seq<byte>)
    requires |s| >= 4
  {
    var t := |s| - 2;
    FletcherA(s[2..t]) == s[t] && FletcherB(s[2..t]) == s[t + 1]
  }

  /** Two header bytes, then stuffed: a length byte two more than the payload's, the payload, its sum;
      then DLE ETX. A length below two wraps around to more bytes than any buffer holds. */
  predicate EvermoreOk(s: seq<byte>)
    requires |s| >= 4
  {
    s[0] == DLE && s[1] == STX &&
    match Take(s, 2, 1)
    case None => false
    case Some((len, n1)) =>
      var b: int := len[0];
      var count: nat := if b < 2 then 0x1_0000_0000 + b - 2 else b - 2;
      match Take(s, n1, count)
      case None => false
      case Some((payload, n2)) =>
        match Take(s, n2, 1)
        case None => false
        case Some((sum, n3)) =>
          n3 + 1 < |s| && s[n3] == DLE && s[n3 + 1] == ETX && Sum(payload) % 256 == sum[0]
  }

  /** DLE and a packet id, then stuffed: a length byte, that many data bytes and a checksum that brings
      the sum of id, length, data and itself to zero modulo 256; then DLE ETX. */
  predicate GarminOk(s: seq<byte>)
    requires |s| >= 4
  {
    s[0] == DLE &&
    match Take(s, 2, 1)
    case None => false
    case Some((len, n1)) =>
      match Take(s, n1, len[0])
      case None => false
      case Some((data, n2)) =>
        match Take(s, n2, 1)
        case None => false
        case Some((sum, n3)) =>
          n3 + 1 < |s| && s[n3] == DLE && s[n3 + 1] == ETX
          && (len[0] + s[1] + Sum(data) + sum[0]) % 256 == 0
  }

  /** The known packet ids and their frame lengths. */
  predicate TsipOk(id: byte, len: nat) {
    || (id == 0x13 && 0x01 <= len)
    || (id == 0x41 && len == 0x0e)
    || (id == 0x42 && len == 0x14)
    || (id == 0x43 && len == 0x18)
    || (id == 0x45 && len == 0x0e)
    || (id == 0x46 && len == 0x06)
    || (id == 0x4a && len == 0x18)
    || (id == 0x4b && len == 0x07)
    || (id == 0x55 && len == 0x08)
    || (id == 0x56 && len == 0x18)
    || (id == 0x5c && 0x1c <= len <= 0x1e)
    || (id == 0x6d && 0x14 <= len <= 0x20)
    || (id == 0x82 && len == 0x05)
    || (id == 0x84 && 0x28 <= len <= 0x29)
    || id == 0x8e
    || id == 0x8f
    || (id == 0xbb && len == 0x2c)
  }

  // ---------- one turn of the loop in packet_parse ----------

  /** The lexer between two characters; `seen` is the buffer up to the read pointer. */
  datatype Lexer = Lexer(kind: PacketType, state: LexState, length: nat, rtcm: Isgps.Decoder, seen: seq<byte>)

  datatype Delivery = Delivery(kind: PacketType, bytes: seq<byte>)

  /** What is done with the buffer after a character: read on; drop the first character and start over
      with the rest; or drop all that was read, having accepted it as a packet or not. */
  datatype Action = ReadOn | Restart | Accept(kind: PacketType) | Discard

  /** The states whose frames are checked. */
  predicate Framed(state: LexState) {
    state == SirfRecognized || state == UbxRecognized || state == EvermoreRecognized || state == TsipRecognized
  }

  /** The states whose frames are put to a check; a TSIP frame of four bytes is not. */
  predicate IsChecked(state: LexState, n: nat) {
    state == NmeaRecognized || state == SirfRecognized || state == UbxRecognized || state == EvermoreRecognized
    || (state == TsipRecognized && n >= 5)
  }

  /** What is done in all other states, and the state to go on from. */
  function Unchecked(state: LexState): (Action, LexState) {
    if state == Ground then (Restart, Ground)
    else if state == CommentRecognized then (Accept(CommentPacket), Ground)
    else if state == NavcomRecognized then (Accept(NavcomPacket), state)
    else if state == RtcmRecognized then (Accept(RtcmPacket), RtcmSync)
    else if state == TsipRecognized then (ReadOn, Ground)
    else (ReadOn, state)
  }

  /** The verdict on `frame`, the buffer up to and including the character just read, and the state to
      go on from. */
  function Judge(kind: PacketType, state: LexState, frame: seq<byte>): (Action, LexState)
    requires Framed(state) ==> |frame| >= 4
  {
    if !IsChecked(state, |frame|) then Unchecked(state)
    else if state == NmeaRecognized then Checked(NmeaOk(frame), NmeaPacket, state)
    else if state == SirfRecognized then Checked(SirfOk(frame), SirfPacket, state)
    else if state == TsipRecognized then
      if kind != TsipPacket && GarminOk(frame) then (Accept(GarminPacket), state)
      else Checked(TsipOk(frame[1], |frame|), TsipPacket, state)
    else if state == UbxRecognized then Checked(UbxOk(frame), UbxPacket, state)
    else Checked(EvermoreOk(frame), EvermorePacket, state)
  }

  lemma JudgeChecked(kind: PacketType, state: LexState, frame: seq<byte>)
    requires Framed(state) ==> |frame| >= 4
    requires IsChecked(state, |frame|)
    ensures var (action, after) := Judge(kind, state, frame);
            (action.Accept? && after == state) || (action == Discard && after == Ground)
  {
    hide NmeaOk, SirfOk, UbxOk, EvermoreOk, GarminOk, TsipOk;
  }

  lemma JudgeUnchecked(kind: PacketType, state: LexState, frame: seq<byte>)
    requires Framed(state) ==> |frame| >= 4
    requires !IsChecked(state, |frame|)
    ensures Judge(kind, state, frame) == Unchecked(state)
  {
    hide NmeaOk, SirfOk, UbxOk, EvermoreOk, GarminOk, TsipOk, Unchecked;
  }

  function Checked(ok: bool, kind: PacketType, state: LexState): (Action, LexState) {
    if ok then (Accept(kind), state) else (Discard, Ground)
  }

  /** A byte as the RTCM decoder takes it. */
  function AsWord(c: byte): IsgpsWord.Word {
    IsgpsWord.Seal(c as bv32)
  }

  /** How many bytes at least have been read on the way to a state. */
  function MinSeen(state: LexState): nat {
    match state
    case SirfLeader1 => 1 case SirfLeader2 => 2 case SirfLength1 => 3 case SirfPayload => 4
    case SirfDelivered => 5 case SirfTrailer1 => 6
    case DleLeader => 1
    case EvermoreLeader1 => 1 case EvermoreLeader2 => 2 case EvermorePayload => 3 case EvermorePayloadDle => 3
    case NavcomLeader1 => 1 case NavcomLeader2 => 2 case NavcomLeader3 => 3 case NavcomId => 4
    case NavcomLength1 => 5 case NavcomLength2 => 6 case NavcomPayload => 7 case NavcomCsum => 8
    case UbxLeader1 => 1 case UbxLeader2 => 2 case UbxClassId => 3 case UbxMessageId => 4
    case UbxLength1 => 5 case UbxLength2 => 6 case UbxPayload => 7 case UbxChecksumA => 8
    case TsipLeader => 1 case TsipPayload => 2 case TsipDle => 3
    case _ => 0
  }

  predicate Safe(l: Lexer) {
    |l.seen| >= MinSeen(l.state) && Isgps.InBounds(l.rtcm)
  }

  /** Enough has been read for the checks that `next` calls for. */
  predicate EnoughSeen(next: LexState, n: nat) {
    n >= MinSeen(next) && (Framed(next) ==> n >= 4)
  }

  lemma SirfMinSeen(state: LexState, length: nat, c: byte, n: nat)
    requires FamilyOf(state) == Sirf && n >= MinSeen(state)
    ensures EnoughSeen(SirfNext(state, length, c).0, n + 1)
  {}

  lemma DleMinSeen(state: LexState, length: nat, c: byte, n: nat)
    requires FamilyOf(state) == Dle && n >= MinSeen(state)
    ensures EnoughSeen(DleNext(state, length, c).0, n + 1)
  {}

  lemma NavcomMinSeen(state: LexState, length: nat, seen: seq<byte>, c: byte)
    requires FamilyOf(state) == Navcom && |seen| >= MinSeen(state)
    ensures EnoughSeen(NavcomNext(state, length, seen, c).0, |seen| + 1)
  {}

  lemma UbxMinSeen(state: LexState, length: nat, c: byte, n: nat)
    requires FamilyOf(state) == Ubx && n >= MinSeen(state)
    ensures EnoughSeen(UbxNext(state, length, c).0, n + 1)
  {}

  lemma GroundMinSeen(c: byte, stat: Isgps.Status, n: nat)
    ensures EnoughSeen(GroundNext(c, stat), n + 1)
  {}

  lemma TextMinSeen(state: LexState, c: byte, n: nat)
    requires FamilyOf(state) == Text
    ensures EnoughSeen(TextNext(state, c), n + 1)
  {}

  lemma GreetingMinSeen(state: LexState, c: byte, stat: Isgps.Status, n: nat)
    requires FamilyOf(state) == Greeting
    ensures EnoughSeen(GreetingNext(state, c, stat), n + 1)
  {}

  lemma RtcmMinSeen(state: LexState, stat: Isgps.Status, n: nat)
    requires FamilyOf(state) == Rtcm
    ensures EnoughSeen(RtcmNext(state, stat), n + 1)
  {}

  lemma NextStateMinSeen(state: LexState, length: nat, seen: seq<byte>, c: byte, stat: Isgps.Status)
    requires |seen| >= MinSeen(state)
    ensures EnoughSeen(NextState(state, length, seen, c, stat).0, |seen| + 1)
  {
    NavcomPayloadSeen(state, seen);
    hide GroundNext, TextNext, GreetingNext, SirfNext, DleNext, NavcomNext, UbxNext, RtcmNext, EnoughSeen, MinSeen, FamilyOf;
    match FamilyOf(state)
    case Sirf => SirfMinSeen(state, length, c, |seen|);
    case Dle => DleMinSeen(state, length, c, |seen|);
    case Navcom => NavcomMinSeen(state, length, seen, c);
    case Ubx => UbxMinSeen(state, length, c, |seen|);
    case GroundFamily => GroundMinSeen(c, stat, |seen|);
    case Text => TextMinSeen(state, c, |seen|);
    case Greeting => GreetingMinSeen(state, c, stat, |seen|);
    case Rtcm => RtcmMinSeen(state, stat, |seen|);
  }

  lemma NavcomPayloadSeen(state: LexState, seen: seq<byte>)
    requires |seen| >= MinSeen(state)
    ensures state == NavcomPayload ==> |seen| >= 4
  {}

  /** What one character does: the lexer after it, what was delivered, the bytes put back to be read
      again, and whether packet_parse stops here. */
  datatype Turn = Turn(lexer: Lexer, out: seq<Delivery>, back: seq<byte>, stop: bool)

  /** The RTCM decoder's part in a turn. */
  function RtcmTurn(l: Lexer, c: byte): (r: (Isgps.Decoder, Isgps.Status))
    requires Isgps.InBounds(l.rtcm)
    ensures Isgps.InBounds(r.0)
  {
    hide Isgps.Absorb, IsgpsWord.Tagged, IsgpsWord.ReverseBits, Isgps.InBounds;
    if FeedsRtcm(l.state, c) then Isgps.Step(l.rtcm, AsWord(c)) else (l.rtcm, Isgps.Skip)
  }

  lemma EndsMinSeen()
    ensures MinSeen(Ground) == 0 && MinSeen(RtcmSync) == 0 && MinSeen(NmeaRecognized) == 0 && MinSeen(SirfRecognized) == 0
    ensures MinSeen(TsipRecognized) == 0 && MinSeen(UbxRecognized) == 0 && MinSeen(EvermoreRecognized) == 0
    ensures MinSeen(NavcomRecognized) == 0
  {}

  lemma JudgeMinSeen(kind: PacketType, state: LexState, frame: seq<byte>)
    requires EnoughSeen(state, |frame|)
    ensures var (action, after) := Judge(kind, state, frame);
            MinSeen(after) <= |frame| && (!action.ReadOn? ==> MinSeen(after) == 0)
  {
    hide Judge, MinSeen;
    EndsMinSeen();
    if IsChecked(state, |frame|) {
      JudgeChecked(kind, state, frame);
    } else {
      JudgeUnchecked(kind, state, frame);
    }
  }

  /** The lexer when nextstate has dealt with the character, which is then the last of `seen`. */
  function Advanced(l: Lexer, c: byte): (m: Lexer)
    requires Safe(l)
    ensures EnoughSeen(m.state, |m.seen|) && Isgps.InBounds(m.rtcm) && m.seen == l.seen + [c] && m.kind == l.kind
  {
    NavcomPayloadSeen(l.state, l.seen);
    var (rtcm, stat) := RtcmTurn(l, c);
    NextStateMinSeen(l.state, l.length, l.seen, c, stat);
    hide NextState, MinSeen, FeedsRtcm, Isgps.Step, Isgps.InBounds, EnoughSeen;
    var (state, length) := NextState(l.state, l.length, l.seen, c, stat);
    Lexer(l.kind, state, length, rtcm, l.seen + [c])
  }

  /** Carries out a verdict on what has been read. An accepted frame too long for the output buffer is
      dropped. */
  function Settle(l: Lexer, action: Action): Turn
    requires l.seen != []
  {
    match action
    case ReadOn => Turn(l, [], [], false)
    case Restart => Turn(l.(seen := []), [], l.seen[1..], false)
    case Discard => Turn(l.(seen := []), [], [], true)
    case Accept(kind) =>
      if |l.seen| < BUFFER_SIZE then Turn(l.(kind := kind, seen := []), [Delivery(kind, l.seen)], [], true)
      else Turn(l.(seen := []), [], [], true)
  }

  /** What packet_parse does with the state nextstate has reached. */
  function Verdict(m: Lexer): (r: Turn)
    requires m.seen != [] && EnoughSeen(m.state, |m.seen|) && Isgps.InBounds(m.rtcm)
    ensures Safe(r.lexer)
    ensures
      || (!r.stop && r.lexer.seen == m.seen && r.back == [] && r.out == [])
      || (!r.stop && r.lexer.seen == [] && r.back == m.seen[1..] && r.out == [])
      || (r.stop && r.lexer.seen == [] && r.back == []
          && (r.out == [] || exists kind: PacketType :: r.out == [Delivery(kind, m.seen)]))
  {
    hide Judge, MinSeen, Isgps.InBounds;
    JudgeMinSeen(m.kind, m.state, m.seen);
    var (action, after) := Judge(m.kind, m.state, m.seen);
    Settle(m.(state := after), action)
  }

  function OneTurn(l: Lexer, c: byte): (r: Turn)
    requires Safe(l)
    ensures Safe(r.lexer)
    ensures
      var frame := l.seen + [c];
      || (!r.stop && r.lexer.seen == frame && r.back == [] && r.out == [])
      || (!r.stop && r.lexer.seen == [] && r.back == frame[1..] && r.out == [])
      || (r.stop && r.lexer.seen == [] && r.back == []
          && (r.out == [] || exists kind: PacketType :: r.out == [Delivery(kind, frame)]))
  {
    hide Advanced, Verdict, Safe, EnoughSeen, Isgps.InBounds;
    Verdict(Advanced(l, c))
  }

  // ---------- runs ----------

  /** Reads until nothing is left: as many calls of packet_parse as it takes. */
  function Run(l: Lexer, pending: seq<byte>): (r: (Lexer, seq<Delivery>))
    requires Safe(l)
    ensures Safe(r.0)
    decreases |l.seen| + |pending|, |pending|
  {
    hide OneTurn;
    if pending == [] then (l, []) else
      var t := OneTurn(l, pending[0]);
      var (u, rest) := Run(t.lexer, t.back + pending[1..]);
      (u, t.out + rest)
  }

  /** One call of packet_parse: the lexer, the bytes still unread, what was delivered and the number of
      calls of nextstate. */
  function Parse(l: Lexer, pending: seq<byte>): (r: (Lexer, seq<byte>, seq<Delivery>, nat))
    requires Safe(l)
    ensures Safe(r.0)
    decreases |l.seen| + |pending|, |pending|
  {
    hide OneTurn;
    if pending == [] then (l, [], [], 0) else
      var t := OneTurn(l, pending[0]);
      if t.stop then (t.lexer, pending[1..], t.out, 1) else
        var (u, left, rest, calls) := Parse(t.lexer, t.back + pending[1..]);
        (u, left, rest, calls + 1)
  }
}
