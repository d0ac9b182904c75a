/** What happens when one protocol's frame follows another's: the lexer, still in the state in which it
    accepted the last packet, knows only its own protocol's first character. */
module PacketSwitch {
  import opened Bytes
  import opened Packet
  import opened PacketRuns
  import opened PacketFeed
  import opened IsgpsWord
  import Isgps
  import Sirf

  /** The states in which an accepted or refused packet leaves the lexer, except RTCM's. */
  predicate Between(state: LexState) {
    state == Ground || state == NmeaRecognized || state == SirfRecognized || state == UbxRecognized
    || state == EvermoreRecognized || state == TsipRecognized || state == NavcomRecognized
  }

  /** The first characters of frames. */
  predicate Opener(c: byte) {
    c == '#' as int || c == '$' as int || c == '!' as int || c == 0xa0 || c == 0xb5 || c == DLE || c == 0x02
  }

  /** The openers a state knows. */
  predicate Opens(state: LexState, c: byte)
    requires Between(state)
  {
    match state
    case Ground => true
    case NmeaRecognized => c == '$' as int || c == '!' as int
    case SirfRecognized => c == 0xa0
    case UbxRecognized => c == 0xb5
    case NavcomRecognized => c == 0x02
    case _ => c == DLE
  }

  /** Where an opener leads. */
  function Next(l: Lexer, c: byte): LexState
    requires Between(l.state)
  {
    match l.state
    case Ground =>
      if c == '#' as int then CommentBody
      else if c == '$' as int then NmeaDollar else if c == '!' as int then NmeaBang
      else if c == 0xa0 then SirfLeader1 else if c == 0xb5 then UbxLeader1
      else if c == DLE then DleLeader else NavcomLeader1
    case NmeaRecognized => TextNext(l.state, c)
    case SirfRecognized => SirfNext(l.state, l.length, c).0
    case UbxRecognized => UbxNext(l.state, l.length, c).0
    case NavcomRecognized => NavcomNext(l.state, l.length, l.seen, c).0
    case _ => DleNext(l.state, l.length, c).0
  }

  lemma NextOpens(l: Lexer, c: byte)
    requires Between(l.state) && Opener(c)
    ensures var next := Next(l, c); if Opens(l.state, c) then Mid(next) else next == Ground
  {}

  lemma BetweenFamilies(state: LexState)
    requires Between(state)
    ensures state == NmeaRecognized ==> FamilyOf(state) == Text
    ensures state == SirfRecognized ==> FamilyOf(state) == Sirf
    ensures state == UbxRecognized ==> FamilyOf(state) == Ubx
    ensures state == EvermoreRecognized || state == TsipRecognized ==> FamilyOf(state) == Dle
  {}

  lemma NavcomLeads(l: Lexer, c: byte)
    ensures l.state == NavcomRecognized ==> Leads(l, c, NavcomNext(l.state, l.length, l.seen, c).0, l.length)
    ensures l.state == Ground ==> Leads(l, 0x02, NavcomLeader1, l.length)
  {}

  lemma KeepsLength(l: Lexer, c: byte)
    ensures l.state == SirfRecognized ==> SirfNext(l.state, l.length, c).1 == l.length
    ensures l.state == UbxRecognized ==> UbxNext(l.state, l.length, c).1 == l.length
    ensures l.state == EvermoreRecognized || l.state == TsipRecognized ==> DleNext(l.state, l.length, c).1 == l.length
  {}

  lemma OpenerLeads(l: Lexer, c: byte) returns (next: LexState)
    requires Between(l.state) && Opener(c)
    ensures next == Next(l, c) && Leads(l, c, next, l.length)
    ensures if Opens(l.state, c) then Mid(next) else next == Ground
  {
    hide Leads, FamilyOf, Mid, Opens, SirfNext, UbxNext, DleNext, TextNext, NavcomNext;
    next := Next(l, c);
    NextOpens(l, c);
    BetweenFamilies(l.state);
    KeepsLength(l, c);
    NavcomLeads(l, c);
    if l.state == Ground {
      GroundLeads(l);
    } else {
      FamilyLeads(l, c);
    }
  }

  lemma Settled(l: Lexer, c: byte, next: LexState)
    requires Safe(l) && l.seen == [] && Leads(l, c, next, l.length) && (Mid(next) || next == Ground)
    ensures OneTurn(l, c) == Turn(Reading(l, next, l.length, if next == Ground then [] else [c]), [], [], false)
  {
    LeadsAdvanced(l, c, next, l.length);
    var m := Reading(l, next, l.length, [c]);
    assert l.seen + [c] == [c] && [c][1..] == [];
    JudgeUnchecked(l.kind, next, [c]);
    hide Advanced, Judge, Safe, Leads, Isgps.InBounds;
  }

  /** The first character of a frame is kept exactly if the state knows it; else it is thrown away, and
      the rest of the frame is read from the ground. */
  lemma FirstCharacter(l: Lexer, c: byte)
    requires Safe(l) && l.seen == [] && Between(l.state) && Opener(c)
    ensures OneTurn(l, c).lexer.seen == [c] <==> Opens(l.state, c)
    ensures !Opens(l.state, c) ==> OneTurn(l, c) == Turn(Reading(l, Ground, l.length, []), [], [], false)
  {
    var next := OpenerLeads(l, c);
    Settled(l, c, next);
    hide Leads, OneTurn, Safe, Opens;
    assert !Mid(Ground);
  }

  // ---------- a frame lost ----------

  lemma {:induction false} CarvedShort(f: seq<byte>, packets: seq<Delivery>, rest: seq<byte>)
    requires Carved(f, packets, rest)
    ensures forall i :: 0 <= i < |packets| ==> |packets[i].bytes| <= |f|
    decreases |packets|
  {
    if packets != [] {
      var k: nat :| At(f, k, packets[0].bytes) && Carved(f[k + |packets[0].bytes|..], packets[1..], rest);
      CarvedShort(f[k + |packets[0].bytes|..], packets[1..], rest);
      forall i | 0 <= i < |packets| ensures |packets[i].bytes| <= |f| {
        if i > 0 {
          assert packets[i] == packets[1..][i - 1];
        }
      }
    }
  }

  /** Nothing that is delivered is longer than what is read. */
  lemma NotWhole(l: Lexer, rest: seq<byte>, f: seq<byte>, kind: PacketType)
    requires Safe(l) && l.seen == [] && |rest| < |f|
    ensures Delivery(kind, f) !in Run(l, rest).1
  {
    hide Safe, Run, Carved;
    var (m, out) := Run(l, rest);
    assert [] + rest == rest;
    RunConserves(l, rest);
    CarvedShort(rest, out, m.seen);
    forall d | d in out ensures |d.bytes| < |f| {
      var i :| 0 <= i < |out| && out[i] == d;
      assert |out[i].bytes| <= |rest|;
    }
  }

  /** Without its first character a frame is never delivered, whatever its other bytes. */
  lemma FrameLost(l: Lexer, f: seq<byte>, kind: PacketType)
    requires Safe(l) && l.seen == [] && Between(l.state) && f != [] && Opener(f[0]) && !Opens(l.state, f[0])
    ensures Delivery(kind, f) !in Run(l, f).1
  {
    hide Safe, OneTurn, Run, Opens, Opener, Between;
    FirstCharacter(l, f[0]);
    RunTurn(l, f);
    var m := Reading(l, Ground, l.length, []);
    assert [] + f[1..] == f[1..] && [] + Run(m, f[1..]).1 == Run(m, f[1..]).1;
    NotWhole(m, f[1..], f, kind);
  }

  /** So a frame that is delivered whenever its first character is kept is delivered exactly then. */
  lemma ExactlyOpened(l: Lexer, f: seq<byte>, kind: PacketType)
    requires Safe(l) && l.seen == [] && Between(l.state) && f != [] && Opener(f[0])
    requires Opens(l.state, f[0]) ==> Run(l, f).1 == [Delivery(kind, f)]
    ensures Delivery(kind, f) in Run(l, f).1 <==> Opens(l.state, f[0])
  {
    hide Safe, Run, Opens, Opener, Between;
    if !Opens(l.state, f[0]) {
      FrameLost(l, f, kind);
    }
  }

  /** The states that know an opener do the same with it. */
  lemma SameOpening(l: Lexer, state: LexState, c: byte, rest: seq<byte>)
    requires Safe(l) && l.seen == [] && Between(l.state) && Between(state) && Opener(c)
    requires Next(l, c) == Next(l.(state := state), c) && Opens(l.state, c) && Opens(state, c)
    ensures Safe(l.(state := state)) && Run(l, [c] + rest) == Run(l.(state := state), [c] + rest)
  {
    var k := l.(state := state);
    BetweenSafe(l, state);
    hide Safe, OneTurn, Run, Opens, Opener, Between, Leads, Next;
    OpenerSettles(l, c);
    OpenerSettles(k, c);
    RunTurn(l, [c] + rest);
    RunTurn(k, [c] + rest);
  }

  lemma BetweenSafe(l: Lexer, state: LexState)
    requires Safe(l) && l.seen == [] && Between(state)
    ensures Safe(l.(state := state))
  {
    EndsMinSeen();
    hide MinSeen, Isgps.InBounds;
  }

  lemma OpenerSettles(l: Lexer, c: byte)
    requires Safe(l) && l.seen == [] && Between(l.state) && Opener(c) && Opens(l.state, c)
    ensures OneTurn(l, c) == Turn(Reading(l, Next(l, c), l.length, [c]), [], [], false)
  {
    hide Safe, OneTurn, Opens, Opener, Between, Leads, Next, Mid;
    var next := OpenerLeads(l, c);
    Settled(l, c, next);
    assert !Mid(Ground) by { GroundIsNotMid(); }
  }

  lemma GroundIsNotMid()
    ensures !Mid(Ground)
  {}

  // ---------- a message lost without a trace ----------

  /** Bytes that open nothing and that the RTCM decoder passes over. */
  predicate Noise(c: byte) {
    !Opener(c) && c != '#' as int && c != 'A' as int && c != 'E' as int && !Tagged(AsWord(c))
  }

  lemma NoiseTurn(l: Lexer, c: byte)
    requires Safe(l) && l.seen == [] && l.state == Ground && Noise(c)
    ensures OneTurn(l, c) == Turn(l, [], [], false)
  {
    assert Advanced(l, c) == Reading(l, Ground, l.length, [c]) by {
      hide Tagged, Isgps.InBounds, Isgps.Absorb, AsWord;
      assert RtcmTurn(l, c) == (l.rtcm, Isgps.Skip);
      assert GroundNext(c, Isgps.Skip) == Ground;
      assert l.seen + [c] == [c];
    }
    JudgeUnchecked(l.kind, Ground, [c]);
    assert [c][1..] == [];
    hide Advanced, Judge, Safe, Isgps.InBounds, Noise;
  }

  lemma {:induction false} NoiseRun(l: Lexer, s: seq<byte>)
    requires Safe(l) && l.seen == [] && l.state == Ground && forall k :: 0 <= k < |s| ==> Noise(s[k])
    ensures Run(l, s) == (l, [])
    decreases |s|
  {
    hide Safe, Noise, OneTurn, Run;
    RunTurn(l, s);
    if s != [] {
      NoiseTurn(l, s[0]);
      assert [] + s[1..] == s[1..];
      NoiseRun(l, s[1..]);
      assert [] + Run(l, s[1..]).1 == [];
    }
  }

  /** Nothing at all is delivered of a SiRF message that follows another protocol's packet, if none of its
      later bytes happens to open something. */
  lemma NothingDelivered(l: Lexer, payload: seq<byte>)
    requires Safe(l) && l.seen == [] && Between(l.state) && l.state != Ground && l.state != SirfRecognized
    requires |payload| < 0x1_0000
    requires var m := Sirf.Message(payload); forall k :: 1 <= k < |m| ==> Noise(m[k])
    ensures Run(l, Sirf.Message(payload)) == (Reading(l, Ground, l.length, []), [])
  {
    var m := Sirf.Message(payload);
    assert m[0] == 0xa0;
    FirstCharacter(l, 0xa0);
    hide Safe, Noise, OneTurn, Run, Sirf.Message;
    RunTurn(l, m);
    assert [] + m[1..] == m[1..];
    NoiseRun(Reading(l, Ground, l.length, []), m[1..]);
  }

  /** There is such a message: the empty one. */
  lemma EmptyMessageLost(l: Lexer)
    requires Safe(l) && l.seen == [] && l.state == NmeaRecognized
    ensures Run(l, Sirf.Message([])) == (Reading(l, Ground, l.length, []), [])
  {
    var m := Sirf.Message([]);
    assert Sum([]) == 0;
    assert m == [0xa0, 0xa2, 0, 0, 0, 0, 0xb0, 0xb3];
    assert Noise(0xa2) && Noise(0) && Noise(0xb0) && Noise(0xb3);
    hide Safe, Noise;
    NothingDelivered(l, []);
  }
}
