/** Letters of a greeting in an RTCM-104 stream before lock: how the lexer takes them for another receiver
    and, when the greeting stops, puts all but the first of them to the decoder once more. */
module RtcmGreeting {
  import opened Bytes
  import opened IsgpsWord
  import opened Isgps
  import opened IsgpsRoundTrip
  import opened Packet
  import opened RtcmStream
  import PacketRuns

  // ---------- one letter ----------

  /** The first four letters of the greeting that begins with `g`. */
  function Spelling(g: byte): (s: seq<byte>)
    ensures |s| == 4
  {
    if g == 'A' as int then ['A' as int, 'S' as int, 'T' as int, 'R' as int]
    else ['E' as int, 'A' as int, 'R' as int, 'T' as int]
  }

  /** Where the first `n` letters take the lexer. */
  function SpeltState(g: byte, n: nat): LexState {
    if g == 'A' as int then
      if n == 1 then Astral1 else if n == 2 then Astral2 else if n == 3 then Astral3 else Astral5
    else
      if n == 1 then Eartha1 else if n == 2 then Eartha2 else if n == 3 then Eartha3 else Eartha4
  }

  lemma LetterNext(g: byte, n: nat, length: nat, seen: seq<byte>, c: byte, stat: Status)
    requires Greets(g) && 1 <= n <= 3
    ensures SpeltState(g, n) != NavcomPayload
    ensures c == Spelling(g)[n] && stat != Message ==>
      FeedsRtcm(SpeltState(g, n), c)
      && NextState(SpeltState(g, n), length, seen, c, stat) == (SpeltState(g, n + 1), length)
    ensures c != Spelling(g)[n] ==>
      !FeedsRtcm(SpeltState(g, n), c) && NextState(SpeltState(g, n), length, seen, c, Skip) == (Ground, length)
  {
    if g == 'A' as int {
      AstralNext(n, length, seen, c, stat);
    } else {
      EarthaNext(n, length, seen, c, stat);
    }
  }

  lemma AstralNext(n: nat, length: nat, seen: seq<byte>, c: byte, stat: Status)
    requires 1 <= n <= 3
    ensures var state, next, letter := SpeltState('A' as int, n), SpeltState('A' as int, n + 1), Spelling('A' as int)[n];
      && (c == letter && stat != Message ==> FeedsRtcm(state, c) && NextState(state, length, seen, c, stat) == (next, length))
      && (c != letter ==> !FeedsRtcm(state, c) && NextState(state, length, seen, c, Skip) == (Ground, length))
  {}

  lemma EarthaNext(n: nat, length: nat, seen: seq<byte>, c: byte, stat: Status)
    requires 1 <= n <= 3
    ensures var state, next, letter := SpeltState('E' as int, n), SpeltState('E' as int, n + 1), Spelling('E' as int)[n];
      && (c == letter && stat != Message ==> FeedsRtcm(state, c) && NextState(state, length, seen, c, stat) == (next, length))
      && (c != letter ==> !FeedsRtcm(state, c) && NextState(state, length, seen, c, Skip) == (Ground, length))
  {}

  lemma SpeltReached(g: byte, n: nat)
    requires Greets(g) && 1 <= n <= 4
    ensures Reached(SpeltState(g, n)) && Settled(SpeltState(g, n)) == (ReadOn, SpeltState(g, n))
    ensures n >= 2 ==> !Level(SpeltState(g, n))
    ensures SpeltState(g, 1) == if g == 'A' as int then Astral1 else Eartha1
    ensures GoesOn(g) == Spelling(g)[1] && Spelling(g)[0] == g && !Opens(g)
  {}

  /** The next letter of the greeting: the decoder takes it too. */
  lemma SpeltTurn(l: Lexer, g: byte, n: nat)
    requires Packet.Safe(l) && Greets(g) && 1 <= n <= 3 && l.state == SpeltState(g, n) && InBounds(l.rtcm)
    requires Step(l.rtcm, AsWord(Spelling(g)[n])).1 != Message
    ensures
      var c := Spelling(g)[n];
      OneTurn(l, c) == Turn(After(l, l.kind, SpeltState(g, n + 1), Step(l.rtcm, AsWord(c)).0, l.seen + [c]), [], [], false)
  {
    hide Step, NextState, FeedsRtcm, Verdict, InBounds, Spelling, SpeltState, AsWord, Reached, Settled, Greets;
    var c := Spelling(g)[n];
    LetterNext(g, n, l.length, l.seen, c, Step(l.rtcm, AsWord(c)).1);
    SpeltReached(g, n + 1);
    VerdictIs(Advanced(l, c));
  }

  /** Another character: the greeting stops, and all but its first letter are read again on the ground. */
  lemma StopTurn(l: Lexer, g: byte, n: nat, c: byte)
    requires Packet.Safe(l) && Greets(g) && 1 <= n <= 3 && l.state == SpeltState(g, n) && c != Spelling(g)[n]
    ensures OneTurn(l, c) == Turn(After(l, l.kind, Ground, l.rtcm, []), [], (l.seen + [c])[1..], false)
  {
    hide Step, NextState, FeedsRtcm, Verdict, InBounds, Spelling, SpeltState, Greets;
    LetterNext(g, n, l.length, l.seen, c, Skip);
    VerdictIs(Advanced(l, c));
  }

  lemma FirstTurn(l: Lexer, g: byte)
    requires Stands(l, false) && Greets(g) && InBounds(l.rtcm)
    requires Step(l.rtcm, AsWord(g)).1 != Message
    ensures OneTurn(l, g) == Turn(After(l, l.kind, SpeltState(g, 1), Step(l.rtcm, AsWord(g)).0, [g]), [], [], false)
  {
    SpeltReached(g, 1);
    hide Step, OneTurn, InBounds, Packet.Safe, Opens, AsWord, SpeltState, Spelling;
    GroundTurn(l, g);
  }

  // ---------- several letters ----------

  /** None of the bytes completes a message. */
  predicate Silent(rtcm: Decoder, bytes: seq<byte>)
    requires InBounds(rtcm)
    decreases |bytes|
  {
    bytes == [] ||
    (var (t, status) := Step(rtcm, AsWord(bytes[0])); status != Message && Silent(t, bytes[1..]))
  }

  lemma {:induction false} SilentPrefix(rtcm: Decoder, a: seq<byte>, b: seq<byte>)
    requires InBounds(rtcm) && Silent(rtcm, a + b)
    ensures Silent(rtcm, a) && Silent(Through(rtcm, a), b) && Through(rtcm, a + b) == Through(Through(rtcm, a), b)
    decreases |a|
  {
    hide Step, Through, AsWord;
    if a == [] {
      assert a + b == b;
      ThroughNothing(rtcm);
    } else {
      assert (a + b)[1..] == a[1..] + b;
      ThroughNext(rtcm, a + b);
      ThroughNext(rtcm, a);
      SilentPrefix(Step(rtcm, AsWord(a[0])).0, a[1..], b);
    }
  }

  lemma ThroughNothing(rtcm: Decoder)
    requires InBounds(rtcm)
    ensures Through(rtcm, []) == rtcm
  {}

  /** The first letters of a greeting, on the ground. */
  function Spelt(l: Lexer, g: byte, n: nat): Lexer
    requires 1 <= n <= 4 && InBounds(l.rtcm)
  {
    After(l, l.kind, SpeltState(g, n), Through(l.rtcm, Spelling(g)[..n]), Spelling(g)[..n])
  }

  lemma ThroughOne(rtcm: Decoder, c: byte)
    requires InBounds(rtcm)
    ensures Through(rtcm, [c]) == Step(rtcm, AsWord(c)).0
    ensures Silent(rtcm, [c]) <==> Step(rtcm, AsWord(c)).1 != Message
  {
    hide Step, Through;
    assert [c][1..] == [];
    ThroughNext(rtcm, [c]);
    ThroughNothing(Step(rtcm, AsWord(c)).0);
  }

  lemma {:induction false} SpeltRun(l: Lexer, g: byte, n: nat, rest: seq<byte>)
    requires Stands(l, false) && Greets(g) && 1 <= n <= 4 && InBounds(l.rtcm) && Silent(l.rtcm, Spelling(g)[..n])
    ensures var m := Spelt(l, g, n); Packet.Safe(m) && Run(l, Spelling(g)[..n] + rest) == Run(m, rest)
    decreases n
  {
    hide Step, OneTurn, InBounds, Run, Packet.Safe, AsWord, SpeltState, Greets, Silent, Through, Spelling;
    var s := Spelling(g);
    var c := s[n - 1];
    assert s[..n] == s[..n - 1] + [c] && s[..n] + rest == s[..n - 1] + ([c] + rest);
    SilentPrefix(l.rtcm, s[..n - 1], [c]);
    ThroughOne(Through(l.rtcm, s[..n - 1]), c);
    assert [] + rest == rest;
    if n == 1 {
      SpeltReached(g, 1);
      assert s[..0] == [] && [] + [c] == [c] && [] + ([c] + rest) == [c] + rest;
      ThroughNothing(l.rtcm);
      FirstTurn(l, g);
      NextRun(l, c, Spelt(l, g, 1), [], rest);
    } else {
      SpeltRun(l, g, n - 1, [c] + rest);
      var m := Spelt(l, g, n - 1);
      SpeltTurn(m, g, n - 1);
      NextRun(m, c, Spelt(l, g, n), [], rest);
    }
  }

  /** Why letters of a greeting must not stand in the stream before lock. When the greeting stops after two
      or three of them, the decoder has had them all; and all but the first are put to it once more. */
  lemma GreetingStops(l: Lexer, g: byte, n: nat, c: byte, rest: seq<byte>)
    requires Stands(l, false) && Greets(g) && 1 <= n <= 3 && c != Spelling(g)[n]
    requires InBounds(l.rtcm) && Silent(l.rtcm, Spelling(g)[..n])
    ensures
      var m := After(l, l.kind, Ground, Through(l.rtcm, Spelling(g)[..n]), []);
      Packet.Safe(m) && Run(l, Spelling(g)[..n] + ([c] + rest)) == Run(m, Spelling(g)[1..n] + ([c] + rest))
  {
    hide Step, OneTurn, InBounds, Run, Packet.Safe, AsWord, SpeltState, Greets, Silent, Through, Spelling;
    var s := Spelling(g);
    SpeltRun(l, g, n, [c] + rest);
    var held := Spelt(l, g, n);
    StopTurn(held, g, n, c);
    assert (s[..n] + [c])[1..] == s[1..n] + [c];
    NextRun(held, c, OneTurn(held, c).lexer, s[1..n] + [c], rest);
    assert (s[1..n] + [c]) + rest == s[1..n] + ([c] + rest);
  }

  // ---------- what a run leaves ----------

  /** The decoder at the end of a run, and whether the lexer is not in the middle of a greeting. */
  function Final(l: Lexer, bytes: seq<byte>): (Decoder, bool)
    requires Packet.Safe(l)
  {
    var m := Run(l, bytes).0;
    (m.rtcm, Level(m.state))
  }

  lemma FinalNothing(l: Lexer)
    requires Packet.Safe(l)
    ensures Final(l, []) == (l.rtcm, Level(l.state))
  {}

  lemma FinalSame(l: Lexer, bytes: seq<byte>, m: Lexer, rest: seq<byte>)
    requires Packet.Safe(l) && Packet.Safe(m) && Run(l, bytes) == Run(m, rest)
    ensures Final(l, bytes) == Final(m, rest)
  {
    hide Packet.Safe, Run;
  }

  /** A stream that ends in the middle of a greeting. */
  lemma SpeltLast(l: Lexer, g: byte, n: nat)
    requires Stands(l, false) && Greets(g) && 2 <= n <= 4 && InBounds(l.rtcm) && Silent(l.rtcm, Spelling(g)[..n])
    ensures !Final(l, Spelling(g)[..n]).1
  {
    hide Step, InBounds, Run, Packet.Safe, SpeltState, Greets, Silent, Through, Spelling, Level, Final;
    SpeltRun(l, g, n, []);
    assert Spelling(g)[..n] + [] == Spelling(g)[..n];
    FinalSame(l, Spelling(g)[..n], Spelt(l, g, n), []);
    FinalNothing(Spelt(l, g, n));
    SpeltReached(g, n);
  }

  /** One byte that belongs to no greeting of two letters: the decoder takes it once, and the lexer stands
      on the ground or follows. */
  lemma OneMore(l: Lexer, inside: bool, c: byte, rest: seq<byte>) returns (m: Lexer, now: bool)
    requires Stands(l, inside) && InBounds(l.rtcm)
    requires var stat := Step(l.rtcm, AsWord(c)).1; stat != Message && (inside ==> stat != NoSync)
    requires !inside ==> !Opens(c) && (Greets(c) && rest != [] ==> rest[0] != GoesOn(c))
    ensures var (rtcm, stat) := Step(l.rtcm, AsWord(c));
      && Stands(m, now) && m.rtcm == rtcm && Final(l, [c] + rest) == Final(m, rest)
      && now == (inside || (stat == Sync && !Greets(c)))
  {
    hide Step, OneTurn, InBounds, Run, Packet.Safe, AsWord, Opens, GoesOn, Final, Spelling;
    var (rtcm, stat) := Step(l.rtcm, AsWord(c));
    assert [] + rest == rest;
    now := inside || (stat == Sync && !Greets(c));
    StandsAfter(l, l.kind, rtcm, l.seen + [c]);
    if now {
      m := After(l, l.kind, RtcmSync, rtcm, l.seen + [c]);
      if inside {
        InsideTurn(l, c);
      } else {
        assert [] + [c] == [c];
        GroundTurn(l, c);
      }
      NextRun(l, c, m, [], rest);
    } else {
      m := After(l, l.kind, Ground, rtcm, []);
      if Greets(c) {
        LetterAlone(l, c, rest);
        return;
      }
      GroundTurn(l, c);
      NextRun(l, c, m, [], rest);
    }
    FinalSame(l, [c] + rest, m, rest);
  }

  lemma LetterAlone(l: Lexer, g: byte, rest: seq<byte>)
    requires Stands(l, false) && InBounds(l.rtcm) && Greets(g) && Step(l.rtcm, AsWord(g)).1 != Message
    requires rest != [] ==> rest[0] != GoesOn(g)
    ensures
      var m := After(l, l.kind, Ground, Step(l.rtcm, AsWord(g)).0, []);
      Packet.Safe(m) && Final(l, [g] + rest) == Final(m, rest)
  {
    hide Step, InBounds, Run, Packet.Safe, AsWord, Silent, Through, Spelling, SpeltState, GoesOn, Greets;
    var rtcm := Step(l.rtcm, AsWord(g)).0;
    StandsAfter(l, l.kind, rtcm, []);
    var m := After(l, l.kind, Ground, rtcm, []);
    SpeltReached(g, 1);
    ThroughOne(l.rtcm, g);
    assert Spelling(g)[..1] == [g] && Spelling(g)[1..1] == [];
    if rest == [] {
      SpeltRun(l, g, 1, []);
      FinalSame(l, [g] + [], Spelt(l, g, 1), []);
      FinalNothing(Spelt(l, g, 1));
      FinalNothing(m);
    } else {
      GreetingStops(l, g, 1, rest[0], rest[1..]);
      assert [rest[0]] + rest[1..] == rest && [] + rest == rest;
      FinalSame(l, [g] + rest, m, rest);
    }
  }
}
