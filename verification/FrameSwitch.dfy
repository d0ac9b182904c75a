/** Each protocol's frames behind another protocol's packet: delivered exactly if the state that packet left
    knows their first character. And damaged frames, which are never delivered. */
module FrameSwitch {
  import opened Bytes
  import opened Packet
  import opened PacketRuns
  import opened PacketFeed
  import opened PacketForm
  import opened PacketShape
  import opened PacketSound
  import opened PacketSwitch
  import Evermore
  import Isgps
  import Navcom
  import Nmea
  import Sirf
  import Tsip
  import Ubx

  /** Between packets, nothing in the buffer. */
  predicate Rests(l: Lexer) { Safe(l) && l.seen == [] && Between(l.state) }

  lemma RunEnds(l: Lexer)
    requires Safe(l)
    ensures Run(l, []) == (l, [])
  {}

  /** A frame that is delivered from the states that know its first character. */
  lemma Arrives(l: Lexer, f: seq<byte>, kind: PacketType, m: Lexer)
    requires Rests(l) && f != [] && Opener(f[0])
    requires Opens(l.state, f[0]) ==> Safe(m) && Run(l, f + []) == (Run(m, []).0, [Delivery(kind, f)] + Run(m, []).1)
    ensures Delivery(kind, f) in Run(l, f).1 <==> Opens(l.state, f[0])
  {
    hide Safe, Run, Opens, Opener, Between;
    if Opens(l.state, f[0]) {
      RunEnds(m);
      assert f + [] == f && [Delivery(kind, f)] + [] == [Delivery(kind, f)];
    }
    ExactlyOpened(l, f, kind);
  }

  lemma OpensIs(state: LexState)
    requires Between(state)
    ensures Opens(state, 0xa0) <==> state == Ground || state == SirfRecognized
    ensures Opens(state, 0xb5) <==> state == Ground || state == UbxRecognized
    ensures Opens(state, 0x02) <==> state == Ground || state == NavcomRecognized
    ensures Opens(state, '$' as int) <==> state == Ground || state == NmeaRecognized
    ensures Opens(state, DLE) <==> state == Ground || state == EvermoreRecognized || state == TsipRecognized
    ensures Opens(state, '#' as int) <==> state == Ground
    ensures Opener('#' as int) && Opener(0xa0) && Opener(0xb5) && Opener(0x02) && Opener('$' as int) && Opener(DLE)
  {}

  /** A SiRF message. */
  lemma SirfArrives(l: Lexer, payload: seq<byte>)
    requires Rests(l) && |payload| + 2 <= MAX_PACKET_LENGTH
    ensures Delivery(SirfPacket, Sirf.Message(payload)) in Run(l, Sirf.Message(payload)).1 <==>
            l.state == Ground || l.state == SirfRecognized
  {
    hide Safe, Run, SirfOk, Sirf.Frame, Sirf.Message, Sirf.Past, Opens, Opener, Between, Sirf.Sent;
    OpensIs(l.state);
    SirfMessage(payload);
    if l.state == Ground || l.state == SirfRecognized {
      Sirf.DamageShows(Sirf.Item(payload, None));
      Sirf.FrameRun(l, |payload|, Sirf.Body(payload), []);
    }
    Arrives(l, Sirf.Message(payload), SirfPacket, Sirf.Past(l, true));
  }

  lemma SirfMessage(payload: seq<byte>)
    requires |payload| + 2 <= MAX_PACKET_LENGTH
    ensures Sirf.Message(payload) == Sirf.Frame(|payload|, Sirf.Body(payload))
    ensures Sirf.Message(payload) != [] && Sirf.Message(payload)[0] == 0xa0
    ensures Sirf.Sent(Sirf.Item(payload, None)) == Sirf.Body(payload)
  {}

  /** A UBX message with a payload. */
  lemma UbxArrives(l: Lexer, x: Ubx.Item)
    requires Rests(l) && Ubx.WellFormed(x) && x.damage.Whole?
    ensures Delivery(UbxPacket, Ubx.Frame(x)) in Run(l, Ubx.Frame(x)).1 <==> l.state == Ground || l.state == UbxRecognized
  {
    UbxSent(x);
    hide Safe, Run, Ubx.Frame, Ubx.Sent, Ubx.Past, Ubx.WellFormed, Opens, Opener, Between;
    OpensIs(l.state);
    if l.state == Ground || l.state == UbxRecognized {
      Ubx.ItemRun(l, x, []);
    }
    Arrives(l, Ubx.Frame(x), UbxPacket, Ubx.Past(l, true));
  }

  lemma UbxSent(x: Ubx.Item)
    requires Ubx.WellFormed(x) && x.damage.Whole?
    ensures Ubx.Sent(x) == Ubx.Frame(x) && Ubx.Frame(x) != [] && Ubx.Frame(x)[0] == 0xb5
  {}

  /** A Navcom frame with data. */
  lemma NavcomArrives(l: Lexer, x: Navcom.Message)
    requires Rests(l) && Navcom.WellFormed(x)
    ensures Delivery(NavcomPacket, Navcom.Frame(x)) in Run(l, Navcom.Frame(x)).1 <==>
            l.state == Ground || l.state == NavcomRecognized
  {
    NavcomStart(x);
    hide Safe, Run, Navcom.Frame, Navcom.WellFormed, Opens, Opener, Between;
    OpensIs(l.state);
    if l.state == Ground || l.state == NavcomRecognized {
      Navcom.FrameRun(l, x, []);
    }
    Arrives(l, Navcom.Frame(x), NavcomPacket, Lexer(NavcomPacket, NavcomRecognized, 0, l.rtcm, []));
  }

  lemma NavcomStart(x: Navcom.Message)
    requires Navcom.WellFormed(x)
    ensures Navcom.Frame(x) != [] && Navcom.Frame(x)[0] == 0x02
  {}

  /** A sentence that nmea_add_checksum has completed. */
  lemma NmeaArrives(l: Lexer, x: Nmea.Sentence)
    requires Rests(l) && Nmea.WellFormed(x) && x.open == Nmea.DOLLAR && x.damage.None?
    ensures Delivery(NmeaPacket, Nmea.Completed(x)) in Run(l, Nmea.Completed(x)).1 <==>
            l.state == Ground || l.state == NmeaRecognized
  {
    NmeaSent(x);
    hide Safe, Run, Nmea.Completed, Nmea.Sent, Nmea.Past, Nmea.WellFormed, Opens, Opener, Between;
    OpensIs(l.state);
    if l.state == Ground || l.state == NmeaRecognized {
      Nmea.SentenceRun(l, x, []);
    }
    Arrives(l, Nmea.Completed(x), NmeaPacket, Nmea.Past(l, true));
  }

  lemma NmeaSent(x: Nmea.Sentence)
    requires Nmea.WellFormed(x) && x.damage.None? && x.open == Nmea.DOLLAR
    ensures Nmea.Sent(x) == Nmea.Completed(x) && Nmea.Completed(x) != [] && Nmea.Completed(x)[0] == '$' as int
  {
    hide Nmea.Leader, Nmea.Plain, Nmea.Ending;
    assert [x.open] + (x.tag + x.text) == [x.open] + Nmea.Summed(x);
  }

  /** A comment: a hash and printable characters, up to the end of the line. */
  function Comment(text: seq<byte>): seq<byte> { ['#' as int] + text + ['\n' as int] }

  lemma {:induction false} CommentWalks(text: seq<byte>)
    requires AllPrint(text)
    ensures Nmea.Walk(CommentBody, text) == Some(CommentBody)
    decreases |text|
  {
    if text != [] {
      assert IsPrint(text[0]);
      CommentWalks(text[1..]);
    }
  }

  lemma CommentEnds(l: Lexer, seen: seq<byte>)
    ensures FamilyOf(CommentBody) == Text && Mid(CommentBody) && TextNext(CommentBody, '\n' as int) == CommentRecognized
    ensures Judge(l.kind, CommentRecognized, seen) == (Accept(CommentPacket), Ground)
  {}

  lemma CommentBegins(l: Lexer, text: seq<byte>, rest: seq<byte>)
    requires Rests(l) && l.state == Ground && AllPrint(text)
    ensures var n := Reading(l, CommentBody, l.length, ['#' as int] + text);
            Safe(n) && Run(l, ['#' as int] + (text + rest)) == Run(n, rest)
  {
    hide Safe, Run, Leads, Mid, FamilyOf, Nmea.Walk, AllPrint;
    GroundLeads(l);
    CommentEnds(l, []);
    assert [] + ['#' as int] == ['#' as int];
    QuietRun(l, '#' as int, CommentBody, l.length, text + rest);
    CommentWalks(text);
    Nmea.TextRun(Reading(l, CommentBody, l.length, ['#' as int]), text, rest);
  }

  lemma CommentRun(l: Lexer, text: seq<byte>)
    requires Rests(l) && l.state == Ground && AllPrint(text) && |text| + 2 <= MAX_PACKET_LENGTH
    ensures var m := Lexer(CommentPacket, Ground, l.length, l.rtcm, []);
            Safe(m) && Run(l, Comment(text)) == (m, [Delivery(CommentPacket, Comment(text))])
  {
    hide Safe, Run, Leads, Mid, FamilyOf, TextNext, Judge, AllPrint;
    var end := ['\n' as int];
    CommentEnds(l, Comment(text));
    assert Comment(text) == ['#' as int] + (text + end);
    CommentBegins(l, text, end);
    var n := Reading(l, CommentBody, l.length, ['#' as int] + text);
    FamilyLeads(n, '\n' as int);
    assert end + [] == end;
    LastRun(n, '\n' as int, CommentRecognized, l.length, Accept(CommentPacket), Ground, []);
    var m := Lexer(CommentPacket, Ground, l.length, l.rtcm, []);
    RunEnds(m);
    var packets := [Delivery(CommentPacket, Comment(text))];
    assert packets + [] == packets;
  }

  /** A comment, which leaves the lexer on the ground. */
  lemma CommentArrives(l: Lexer, text: seq<byte>)
    requires Rests(l) && AllPrint(text) && |text| + 2 <= MAX_PACKET_LENGTH
    ensures Delivery(CommentPacket, Comment(text)) in Run(l, Comment(text)).1 <==> l.state == Ground
    ensures l.state == Ground ==> Run(l, Comment(text)).0.state == Ground
  {
    hide Safe, Run, Opens, Opener, Between, AllPrint;
    OpensIs(l.state);
    assert Comment(text)[0] == '#' as int;
    if l.state == Ground {
      CommentRun(l, text);
    }
    ExactlyOpened(l, Comment(text), CommentPacket);
  }

  /** Behind a TSIP or Garmin packet a DLE is taken as on the ground. */
  lemma TsipAsGround(l: Lexer, f: seq<byte>)
    requires Rests(l) && f != [] && f[0] == DLE && l.state == TsipRecognized
    ensures Rests(l.(state := Ground)) && Run(l, f) == Run(l.(state := Ground), f)
  {
    TsipNext(l);
    OpensIs(l.state);
    OpensIs(Ground);
    hide Safe, Run, Next, Opens, Opener;
    assert f == [DLE] + f[1..];
    SameOpening(l, Ground, DLE, f[1..]);
  }

  lemma TsipNext(l: Lexer)
    requires l.state == TsipRecognized
    ensures Next(l, DLE) == DleLeader && Next(l.(state := Ground), DLE) == DleLeader
  {}

  /** An EverMore frame: also behind a TSIP or Garmin packet. */
  lemma EvermoreArrives(l: Lexer, payload: seq<byte>)
    requires Rests(l) && |payload| <= 253
    ensures Delivery(EvermorePacket, Evermore.Frame(payload)) in Run(l, Evermore.Frame(payload)).1 <==>
            l.state == Ground || l.state == EvermoreRecognized || l.state == TsipRecognized
  {
    var f := Evermore.Frame(payload);
    assert f[0] == DLE;
    hide Safe, Run, Evermore.Frame, Opens, Opener, Between;
    OpensIs(l.state);
    var k, m := l, l;
    if l.state == TsipRecognized {
      TsipAsGround(l, f);
      k := l.(state := Ground);
    }
    assert f + [] == f;
    if l.state == Ground || l.state == EvermoreRecognized || l.state == TsipRecognized {
      m := Evermore.FrameRun(k, payload, []);
    }
    Arrives(l, f, EvermorePacket, m);
  }

  /** A TSIP or Garmin frame that passes one of the checks; not behind an EverMore packet, where the DLE
      is kept, but is to be followed by an STX. */
  lemma TsipArrives(l: Lexer, id: byte, u: seq<byte>, kind: PacketType)
    requires Rests(l) && id >= 0x13 && u != [] && |Tsip.Frame(id, u)| < BUFFER_SIZE && Tsip.Verdict(l.kind, id, u) == Some(kind)
    ensures Delivery(kind, Tsip.Frame(id, u)) in Run(l, Tsip.Frame(id, u)).1 <==> l.state == Ground || l.state == TsipRecognized
  {
    var f := Tsip.Frame(id, u);
    assert f[0] == DLE && f[1] == id;
    hide Safe, Run, Tsip.Frame, Tsip.Verdict, Tsip.Past, Opens, Opener, Between;
    OpensIs(l.state);
    if l.state == EvermoreRecognized {
      BehindEvermore(l, f, kind);
    } else {
      if l.state == Ground || l.state == TsipRecognized {
        Tsip.FrameRun(l, id, u, []);
      }
      Arrives(l, f, kind, Tsip.Past(l, Some(kind)));
    }
  }

  lemma EvermoreLeads(l: Lexer, c: byte)
    ensures l.state == EvermoreRecognized ==> Leads(l, DLE, EvermoreLeader1, l.length) && Mid(EvermoreLeader1)
    ensures l.state == EvermoreLeader1 && c != STX ==> Leads(l, c, Ground, l.length)
  {
    FamilyLeads(l, c);
    FamilyLeads(l, DLE);
  }

  lemma BehindEvermore(l: Lexer, f: seq<byte>, kind: PacketType)
    requires Rests(l) && l.state == EvermoreRecognized && |f| > 1 && f[0] == DLE && f[1] != STX
    ensures Delivery(kind, f) !in Run(l, f).1
  {
    hide Safe, Run, OneTurn, Leads, Mid;
    var k := Reading(l, EvermoreLeader1, l.length, [DLE]);
    EvermoreLeads(l, f[1]);
    EvermoreLeads(k, f[1]);
    assert l.seen + [DLE] == [DLE];
    QuietRun(l, DLE, EvermoreLeader1, l.length, f[1..]);
    assert [DLE] + f[1..] == f;
    FallsToGround(k, f[1]);
    RunTurn(k, f[1..]);
    var m := Reading(l, Ground, l.length, []);
    assert ([DLE] + [f[1]])[1..] + f[1..][1..] == f[1..];
    assert [] + Run(m, f[1..]).1 == Run(m, f[1..]).1;
    NotWhole(m, f[1..], f, kind);
  }

  lemma FallsToGround(l: Lexer, c: byte)
    requires Safe(l) && Leads(l, c, Ground, l.length)
    ensures OneTurn(l, c) == Turn(Reading(l, Ground, l.length, []), [], (l.seen + [c])[1..], false)
  {
    LeadsAdvanced(l, c, Ground, l.length);
    JudgeUnchecked(l.kind, Ground, l.seen + [c]);
    hide Advanced, Judge, Safe, Leads;
  }

  // ---------- damaged frames ----------

  /** A lexer as it can be between two bytes. */
  ghost predicate Reachable(l: Lexer) {
    Safe(l) && Shaped(l.state, l.seen) && InForm(l.state, l.length, l.seen)
  }

  lemma FreshIsReachable(l: Lexer)
    requires l.state == Ground && l.seen == [] && Isgps.InBounds(l.rtcm)
    ensures Reachable(l)
  {}

  lemma NavcomNotLooks(x: Navcom.Message, k: nat, b: byte)
    requires Navcom.WellFormed(x) && 3 <= k < |Navcom.Frame(x)| - 1 && Navcom.Frame(x)[k] != b
    ensures !Looks(Delivery(NavcomPacket, Navcom.Frame(x)[k := b]))
  {
    hide XorFold, IsNavcom;
    var f, s := Navcom.Frame(x), Navcom.Summed(x);
    var g, n := f[k := b], |f|;
    assert f[3..n - 2] == s && f[n - 2] == XorFold(0, s);
    if k < n - 2 {
      XorUpdate(0, s, k - 3, b);
      assert g[3..n - 2] == s[k - 3 := b];
    } else {
      assert g[3..n - 2] == s;
    }
  }

  /** A Navcom frame with one byte changed, of id, length, data or checksum, is not delivered by any run. */
  lemma NavcomDamaged(l: Lexer, pending: seq<byte>, x: Navcom.Message, k: nat, b: byte)
    requires Reachable(l) && Navcom.WellFormed(x) && 3 <= k < |Navcom.Frame(x)| - 1 && Navcom.Frame(x)[k] != b
    ensures Delivery(NavcomPacket, Navcom.Frame(x)[k := b]) !in Run(l, pending).1
  {
    hide Safe, Run, Shaped, InForm, Looks, Passed;
    RunLooks(l, pending);
    NavcomNotLooks(x, k, b);
  }

  /** Nor is a SiRF message with one byte of payload or checksum changed. */
  lemma SirfDamaged(l: Lexer, pending: seq<byte>, x: Sirf.Item)
    requires Reachable(l) && Sirf.WellFormed(x) && x.damage.Some?
    ensures Delivery(SirfPacket, Sirf.Frame(|x.payload|, Sirf.Sent(x))) !in Run(l, pending).1
  {
    hide Safe, Run, Shaped, InForm, Looks, SirfOk, Sirf.Frame;
    RunLooks(l, pending);
    Sirf.DamageShows(x);
  }

  /** Nor a UBX frame with one such byte changed, or two unequal neighbours in its payload exchanged. */
  lemma UbxDamaged(l: Lexer, pending: seq<byte>, x: Ubx.Item)
    requires Reachable(l) && Ubx.WellFormed(x) && !x.damage.Whole?
    ensures Delivery(UbxPacket, Ubx.Sent(x)) !in Run(l, pending).1
  {
    hide Safe, Run, Shaped, InForm, Looks, UbxOk, Ubx.Sent, Ubx.WellFormed;
    RunLooks(l, pending);
    Ubx.SentOk(x);
  }

  /** Nor a sentence with a character of its text changed, nor a completed one that began with a bang. */
  lemma NmeaDamaged(l: Lexer, pending: seq<byte>, x: Nmea.Sentence)
    requires Reachable(l) && Nmea.WellFormed(x) && (x.damage.Some? || x.open != Nmea.DOLLAR)
    ensures Delivery(NmeaPacket, Nmea.Sent(x)) !in Run(l, pending).1
  {
    hide Safe, Run, Shaped, InForm, Looks, NmeaOk, Nmea.Sent, Nmea.WellFormed;
    RunLooks(l, pending);
    Nmea.SentOk(x);
  }
}
