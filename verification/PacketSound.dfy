/** Nothing is delivered that did not pass its protocol's check. */
module PacketSound {
  import opened Bytes
  import opened Packet
  import opened PacketRuns
  import opened PacketShape
  import Evermore
  import Isgps

  /** What its type says about a packet's bytes. */
  ghost predicate Passed(d: Delivery) {
    match d.kind
    case NmeaPacket => NmeaOk(d.bytes)
    case SirfPacket => |d.bytes| >= 4 && SirfOk(d.bytes)
    case UbxPacket => |d.bytes| >= 4 && UbxOk(d.bytes)
    case TsipPacket => |d.bytes| >= 5 && TsipOk(d.bytes[1], |d.bytes|)
    case GarminPacket => |d.bytes| >= 5 && GarminOk(d.bytes)
    case EvermorePacket => exists p: seq<byte> :: |p| <= 253 && d.bytes == Evermore.Frame(p)
    case _ => true
  }

  lemma EvermoreHeadOk(s: seq<byte>)
    requires |s| >= 4 && EvermoreOk(s)
    ensures s[0] == DLE && s[1] == STX
  {}

  lemma WalkableIsStuffed(s: seq<byte>) returns (u: seq<byte>)
    requires Walkable(s) && s[1] == STX && |s| < BUFFER_SIZE
    ensures StuffedFrom(s, 2, u) && |u| < BUFFER_SIZE
  {
    u :| StuffedFrom(s, 2, u);
    assert |s[2..]| == |Stuff(u)| + 2;
  }

  lemma EvermorePassed(frame: seq<byte>)
    requires 4 <= |frame| < BUFFER_SIZE && MaybeRunt(EvermoreRecognized, frame) && EvermoreOk(frame)
    ensures exists p: seq<byte> :: |p| <= 253 && frame == Evermore.Frame(p)
  {
    hide EvermoreOk, StuffedFrom, MaybeRunt, Walkable, Evermore.Frame;
    EvermoreHeadOk(frame);
    RecognizedIsWalkable(EvermoreRecognized, frame);
    var u := WalkableIsStuffed(frame);
    Evermore.AcceptedIsWritten(frame, u);
    assert |u[1..|u| - 1]| <= 253;
  }

  lemma JudgePassed(kind: PacketType, state: LexState, frame: seq<byte>)
    requires Framed(state) ==> |frame| >= 4
    requires |frame| < BUFFER_SIZE && (state == Ground || MaybeRunt(state, frame))
    ensures var action := Judge(kind, state, frame).0; action.Accept? ==> Passed(Delivery(action.kind, frame))
  {
    hide NmeaOk, SirfOk, UbxOk, EvermoreOk, GarminOk, TsipOk, MaybeRunt;
    if IsChecked(state, |frame|) {
      CheckPassed(kind, state, frame);
    } else {
      JudgeUnchecked(kind, state, frame);
      hide Judge;
    }
  }

  lemma CheckPassed(kind: PacketType, state: LexState, frame: seq<byte>)
    requires (Framed(state) ==> |frame| >= 4) && IsChecked(state, |frame|)
    requires |frame| < BUFFER_SIZE && MaybeRunt(state, frame)
    ensures var action := Judge(kind, state, frame).0; action.Accept? ==> Passed(Delivery(action.kind, frame))
  {
    hide NmeaOk, SirfOk, UbxOk, EvermoreOk, GarminOk, TsipOk, MaybeRunt, Evermore.Frame;
    if state == EvermoreRecognized && EvermoreOk(frame) {
      EvermorePassed(frame);
    }
  }

  lemma VerdictPassed(m: Lexer)
    requires m.seen != [] && EnoughSeen(m.state, |m.seen|) && Isgps.InBounds(m.rtcm)
    requires m.state == Ground || MaybeRunt(m.state, m.seen)
    ensures forall d :: d in Verdict(m).out ==> Passed(d)
  {
    hide Judge, MinSeen, MaybeRunt, Isgps.InBounds, Passed;
    if |m.seen| < BUFFER_SIZE {
      JudgePassed(m.kind, m.state, m.seen);
    }
  }

  lemma OneTurnPassed(l: Lexer, c: byte)
    requires Safe(l) && Shaped(l.state, l.seen)
    ensures forall d :: d in OneTurn(l, c).out ==> Passed(d)
  {
    hide Advanced, Verdict, Safe, EnoughSeen, Isgps.InBounds, MaybeRunt, Shaped, Passed;
    AdvancedShape(l, c);
    VerdictPassed(Advanced(l, c));
  }

  /** Over any run, from any state the lexer can be in, on any bytes: what comes out has passed its check,
      an EverMore packet is the frame of a payload of at most 253 bytes, and the buffer keeps its shape. */
  lemma {:induction false} RunSound(l: Lexer, pending: seq<byte>)
    requires Safe(l) && Shaped(l.state, l.seen)
    ensures var (m, out) := Run(l, pending); Shaped(m.state, m.seen) && forall d :: d in out ==> Passed(d)
    decreases |l.seen| + |pending|, |pending|
  {
    hide OneTurn, Safe, Shaped, Passed, Run;
    RunTurn(l, pending);
    if pending != [] {
      var t := OneTurn(l, pending[0]);
      OneTurnPassed(l, pending[0]);
      OneTurnShape(l, pending[0]);
      RunSound(t.lexer, t.back + pending[1..]);
    }
  }
}
