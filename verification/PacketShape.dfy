/** What the buffer holds in the states of the two DLE-stuffed protocols, and hence how far the walks over
    a recognised frame can read. */
module PacketShape {
  import opened Bytes
  import opened Packet
  import Isgps

  ghost predicate IsStuffed(s: seq<byte>) {
    exists u: seq<byte> :: s == Stuff(u)
  }

  /** A four-byte TSIP runt, which the lexer leaves at the head of the buffer. */
  predicate IsRunt(s: seq<byte>) {
    |s| == 4 && s[0] == DLE && s[1] >= 0x13 && s[2] == DLE && s[3] == ETX
  }

  predicate EvermoreHead(b: seq<byte>) { |b| >= 2 && b[0] == DLE && b[1] == STX }

  predicate TsipHead(b: seq<byte>) { |b| >= 2 && b[0] == DLE && b[1] >= 0x13 }

  /** The bytes read since the start of the packet. */
  ghost predicate DleBody(state: LexState, b: seq<byte>) {
    match state
    case DleLeader => b == [DLE]
    case TsipLeader => b == [DLE]
    case EvermoreLeader1 => b == [DLE]
    case EvermoreLeader2 => b == [DLE, STX]
    case EvermorePayload => EvermoreHead(b) && IsStuffed(b[2..])
    case EvermorePayloadDle => |b| >= 3 && EvermoreHead(b) && b[|b| - 1] == DLE && IsStuffed(b[2..|b| - 1])
    case TsipPayload => TsipHead(b) && IsStuffed(b[2..])
    case TsipDle => |b| >= 3 && TsipHead(b) && b[|b| - 1] == DLE && IsStuffed(b[2..|b| - 1])
    case EvermoreRecognized => EvermoreHead(b) && exists u: seq<byte> :: StuffedFrom(b, 2, u)
    case TsipRecognized => TsipHead(b) && exists u: seq<byte> :: StuffedFrom(b, 2, u)
    case _ => true
  }

  /** A packet's bytes, with or without a runt before them. */
  ghost predicate MaybeRunt(state: LexState, s: seq<byte>) {
    DleBody(state, s) || (|s| >= 4 && IsRunt(s[..4]) && DleBody(state, s[4..]))
  }

  /** The states a packet can start from. */
  predicate AtStart(state: LexState) {
    state == Ground || state == EvermoreRecognized || state == TsipRecognized
  }

  ghost predicate Shaped(state: LexState, seen: seq<byte>) {
    if AtStart(state) then seen == [] || (state == Ground && IsRunt(seen)) else MaybeRunt(state, seen)
  }

  lemma StuffAppend(s: seq<byte>, t: seq<byte>)
    requires IsStuffed(s) && IsStuffed(t)
    ensures IsStuffed(s + t)
  {
    var u: seq<byte> :| s == Stuff(u);
    var v: seq<byte> :| t == Stuff(v);
    StuffConcat(u, v);
  }

  lemma StuffedPieces(c: byte)
    ensures IsStuffed([]) && (c != DLE ==> IsStuffed([c])) && IsStuffed([DLE, DLE])
  {
    assert [] == Stuff([]);
    assert [c][..0] == [] && Stuff([c]) == [] + Stuff1(c);
    assert [DLE][..0] == [] && Stuff([DLE]) == [] + Stuff1(DLE);
  }

  lemma LeaderNextBody(state: LexState, length: nat, b: seq<byte>, c: byte)
    requires state == DleLeader || state == TsipLeader || state == EvermoreLeader1 || state == EvermoreLeader2
    requires DleBody(state, b)
    ensures var next := DleNext(state, length, c).0; next == Ground || DleBody(next, b + [c])
  {
    hide Stuff, IsStuffed;
    StuffedPieces(c);
    var f := b + [c];
    assert f[2..] == if state == EvermoreLeader2 then [c] else [];
    assert state == EvermoreLeader2 ==> f[2..|f| - 1] == [];
  }

  lemma PayloadNextBody(state: LexState, length: nat, b: seq<byte>, c: byte)
    requires state == EvermorePayload || state == TsipPayload
    requires DleBody(state, b)
    ensures var next := DleNext(state, length, c).0; next == Ground || DleBody(next, b + [c])
  {
    hide Stuff, IsStuffed;
    StuffedPieces(c);
    var f := b + [c];
    assert f[2..] == b[2..] + [c] && f[2..|f| - 1] == b[2..];
    if c != DLE {
      StuffAppend(b[2..], [c]);
    }
  }

  lemma ClosingPair(b: seq<byte>, c: byte)
    requires |b| >= 3 && b[|b| - 1] == DLE && IsStuffed(b[2..|b| - 1])
    ensures c == DLE ==> IsStuffed((b + [c])[2..])
    ensures c == ETX ==> exists u: seq<byte> :: StuffedFrom(b + [c], 2, u)
  {
    var f, inner := b + [c], b[2..|b| - 1];
    assert f[2..] == inner + [DLE, c];
    if c == DLE {
      StuffedPieces(DLE);
      StuffAppend(inner, [DLE, DLE]);
    } else if c == ETX {
      var u: seq<byte> :| inner == Stuff(u);
      assert StuffedFrom(f, 2, u);
    }
  }

  lemma DleNextBody(state: LexState, length: nat, b: seq<byte>, c: byte)
    requires FamilyOf(state) == Dle && !AtStart(state) && DleBody(state, b)
    ensures var next := DleNext(state, length, c).0; next == Ground || DleBody(next, b + [c])
  {
    hide Stuff, IsStuffed, StuffedFrom;
    match state
    case EvermorePayload => PayloadNextBody(state, length, b, c);
    case TsipPayload => PayloadNextBody(state, length, b, c);
    case EvermorePayloadDle => ClosingPair(b, c);
    case TsipDle => ClosingPair(b, c);
    case _ => LeaderNextBody(state, length, b, c);
  }

  // Only DLE_LEADER is entered from outside the family, and only from the ground.

  lemma GroundNextFamily(c: byte, stat: Isgps.Status)
    ensures FamilyOf(GroundNext(c, stat)) == Dle ==> GroundNext(c, stat) == DleLeader && c == DLE
  {}

  lemma TextNextFamily(state: LexState, c: byte)
    requires FamilyOf(state) == Text
    ensures FamilyOf(TextNext(state, c)) != Dle
  {}

  lemma GreetingNextFamily(state: LexState, c: byte, stat: Isgps.Status)
    requires FamilyOf(state) == Greeting
    ensures FamilyOf(GreetingNext(state, c, stat)) != Dle
  {}

  lemma SirfNextFamily(state: LexState, length: nat, c: byte)
    requires FamilyOf(state) == Sirf
    ensures FamilyOf(SirfNext(state, length, c).0) != Dle
  {}

  lemma NavcomNextFamily(state: LexState, length: nat, seen: seq<byte>, c: byte)
    requires FamilyOf(state) == Navcom && (state == NavcomPayload ==> |seen| >= 4)
    ensures FamilyOf(NavcomNext(state, length, seen, c).0) != Dle
  {
    hide NavcomSum;
  }

  lemma UbxNextFamily(state: LexState, length: nat, c: byte)
    requires FamilyOf(state) == Ubx
    ensures FamilyOf(UbxNext(state, length, c).0) != Dle
  {}

  lemma RtcmNextFamily(state: LexState, stat: Isgps.Status)
    requires FamilyOf(state) == Rtcm
    ensures FamilyOf(RtcmNext(state, stat)) != Dle
  {}

  lemma OtherNextFamily(state: LexState, length: nat, seen: seq<byte>, c: byte, stat: Isgps.Status)
    requires state == NavcomPayload ==> |seen| >= 4
    requires FamilyOf(state) != Dle
    ensures var next := NextState(state, length, seen, c, stat).0;
            FamilyOf(next) == Dle ==> next == DleLeader && FamilyOf(state) == GroundFamily && c == DLE
  {
    hide GroundNext, TextNext, GreetingNext, SirfNext, DleNext, NavcomNext, UbxNext, RtcmNext, FamilyOf;
    match FamilyOf(state)
    case GroundFamily => GroundNextFamily(c, stat);
    case Text => TextNextFamily(state, c);
    case Greeting => GreetingNextFamily(state, c, stat);
    case Sirf => SirfNextFamily(state, length, c);
    case Navcom => NavcomNextFamily(state, length, seen, c);
    case Ubx => UbxNextFamily(state, length, c);
    case Rtcm => RtcmNextFamily(state, stat);
  }

  lemma OtherFamilies(state: LexState, b: seq<byte>)
    ensures FamilyOf(state) != Dle ==> DleBody(state, b)
    ensures FamilyOf(state) == GroundFamily <==> state == Ground
    ensures AtStart(state) && state != Ground ==> FamilyOf(state) == Dle
  {}

  lemma StartNextBody(state: LexState, length: nat, c: byte)
    requires state == EvermoreRecognized || state == TsipRecognized
    ensures var next := DleNext(state, length, c).0; next == Ground || (!AtStart(next) && DleBody(next, [c]))
  {}

  /** A recognised frame, or the buffer of a lexer still reading, has the shape its state calls for. */
  lemma NextStateShape(state: LexState, length: nat, seen: seq<byte>, c: byte, stat: Isgps.Status)
    requires |seen| >= MinSeen(state) && Shaped(state, seen)
    ensures var next := NextState(state, length, seen, c, stat).0;
            next == Ground || MaybeRunt(next, seen + [c])
  {
    NavcomPayloadSeen(state, seen);
    var next := NextState(state, length, seen, c, stat).0;
    var frame := seen + [c];
    OtherFamilies(state, seen);
    OtherFamilies(next, frame);
    assert DleBody(DleLeader, [DLE]);
    hide NextState, DleNext, FamilyOf, DleBody, MinSeen;
    if FamilyOf(state) != Dle {
      OtherNextFamily(state, length, seen, c, stat);
      if next == DleLeader && state == Ground {
        assert seen == [] ==> frame == [DLE];
        assert IsRunt(seen) ==> frame[..4] == seen && frame[4..] == [DLE];
      }
    } else {
      DleFamilyNext(state, length, seen, c, stat);
      if AtStart(state) {
        StartNextBody(state, length, c);
        assert frame == [c];
      } else if DleBody(state, seen) {
        DleNextBody(state, length, seen, c);
      } else {
        DleNextBody(state, length, seen[4..], c);
        assert frame[..4] == seen[..4] && frame[4..] == seen[4..] + [c];
      }
    }
  }

  lemma DleFamilyNext(state: LexState, length: nat, seen: seq<byte>, c: byte, stat: Isgps.Status)
    requires FamilyOf(state) == Dle
    ensures NextState(state, length, seen, c, stat) == DleNext(state, length, c)
  {
    hide DleNext;
  }

  /** A frame about to be checked has the shape its state calls for. */
  lemma AdvancedShape(l: Lexer, c: byte)
    requires Safe(l) && Shaped(l.state, l.seen)
    ensures var m := Advanced(l, c); m.state == Ground || MaybeRunt(m.state, m.seen)
  {
    NextStateShape(l.state, l.length, l.seen, c, RtcmTurn(l, c).1);
    hide NextState, RtcmTurn, MaybeRunt;
  }

  lemma VerdictShape(m: Lexer)
    requires m.seen != [] && EnoughSeen(m.state, |m.seen|) && Isgps.InBounds(m.rtcm)
    requires m.state == Ground || MaybeRunt(m.state, m.seen)
    ensures var t := Verdict(m); Shaped(t.lexer.state, t.lexer.seen)
  {
    hide Judge, MinSeen, MaybeRunt, Shaped, Isgps.InBounds;
    JudgeShape(m.kind, m.state, m.seen);
  }

  /** The shape of the buffer is kept by every turn of the loop. */
  lemma OneTurnShape(l: Lexer, c: byte)
    requires Safe(l) && Shaped(l.state, l.seen)
    ensures var t := OneTurn(l, c); Shaped(t.lexer.state, t.lexer.seen)
  {
    hide Advanced, Verdict, Safe, EnoughSeen, Isgps.InBounds, MaybeRunt, Shaped;
    AdvancedShape(l, c);
    VerdictShape(Advanced(l, c));
  }

  /** Where the verdict can leave the lexer: reading on as it was, on the ground behind a runt, or at the
      start of a packet. */
  lemma JudgeAfter(kind: PacketType, state: LexState, frame: seq<byte>)
    requires Framed(state) ==> |frame| >= 4
    ensures var (action, after) := Judge(kind, state, frame);
            if action == ReadOn then
              (after == state && !AtStart(state)) || (after == Ground && state == TsipRecognized && |frame| == 4)
            else AtStart(after) || FamilyOf(after) != Dle
  {
    hide Judge, FamilyOf;
    EndFamilies();
    if IsChecked(state, |frame|) {
      JudgeChecked(kind, state, frame);
    } else {
      JudgeUnchecked(kind, state, frame);
    }
  }

  lemma EndFamilies()
    ensures FamilyOf(NmeaRecognized) != Dle && FamilyOf(SirfRecognized) != Dle && FamilyOf(UbxRecognized) != Dle
    ensures FamilyOf(NavcomRecognized) != Dle && FamilyOf(RtcmSync) != Dle
  {}

  lemma JudgeShape(kind: PacketType, state: LexState, frame: seq<byte>)
    requires Framed(state) ==> |frame| >= 4
    requires state == Ground || MaybeRunt(state, frame)
    ensures var (action, after) := Judge(kind, state, frame);
            if action == ReadOn then Shaped(after, frame) else Shaped(after, [])
  {
    hide Judge, MaybeRunt, Framed, FamilyOf, IsRunt;
    var (action, after) := Judge(kind, state, frame);
    JudgeAfter(kind, state, frame);
    if action != ReadOn && !AtStart(after) {
      OtherFamilies(after, []);
      NoRunt(after);
    } else if state == TsipRecognized && after == Ground && |frame| == 4 {
      ShortTsip(frame);
    }
  }

  lemma NoRunt(state: LexState)
    requires DleBody(state, [])
    ensures MaybeRunt(state, [])
  {
    hide DleBody;
  }

  lemma ShortTsip(frame: seq<byte>)
    requires |frame| == 4 && MaybeRunt(TsipRecognized, frame)
    ensures IsRunt(frame)
  {
    if IsRunt(frame[..4]) && DleBody(TsipRecognized, frame[4..]) {
      assert false;
    }
    var u: seq<byte> :| StuffedFrom(frame, 2, u);
    assert frame[2..] == Stuff(u) + [DLE, ETX];
    assert |Stuff(u)| == 0;
    assert frame[2] == frame[2..][0] && frame[3] == frame[2..][1];
  }

  // ---------- how far the walks read ----------

  /** On a recognised frame of either protocol the bytes from the third on are stuffed and end in the only
      unpaired DLE, or the frame begins with a runt, whose third and fourth bytes stop every walk. */
  ghost predicate Walkable(s: seq<byte>) {
    |s| >= 4 && s[0] == DLE && ((exists u: seq<byte> :: StuffedFrom(s, 2, u)) || (s[1] >= 0x13 && s[2] == DLE && s[3] == ETX))
  }

  lemma RecognizedIsWalkable(state: LexState, frame: seq<byte>)
    requires state == EvermoreRecognized || state == TsipRecognized
    requires |frame| >= 4 && MaybeRunt(state, frame)
    ensures Walkable(frame)
  {
    if DleBody(state, frame) {
    } else {
      assert frame[..4][1] == frame[1] && frame[..4][2] == frame[2] && frame[..4][3] == frame[3];
    }
  }
}
