/** Single turns of the lexer, for following it over the bytes of a known frame. */
module PacketFeed {
  import opened Bytes
  import opened Packet
  import opened PacketRuns
  import Isgps

  /** The lexer part of the way through a frame. */
  function Reading(l: Lexer, state: LexState, length: nat, seen: seq<byte>): Lexer {
    Lexer(l.kind, state, length, l.rtcm, seen)
  }

  /** The states in which packet_parse only reads on. */
  predicate Mid(state: LexState) {
    Unchecked(state) == (ReadOn, state) && !IsChecked(state, 5)
  }

  /** Where a character leads that the RTCM decoder does not get. */
  predicate Leads(l: Lexer, c: byte, state: LexState, length: nat) {
    !FeedsRtcm(l.state, c) && (l.state == NavcomPayload ==> |l.seen| >= 4) && NextState(l.state, l.length, l.seen, c, Isgps.Skip) == (state, length)
  }

  lemma FamilyLeads(l: Lexer, c: byte)
    ensures FamilyOf(l.state) == Sirf ==> Leads(l, c, SirfNext(l.state, l.length, c).0, SirfNext(l.state, l.length, c).1)
    ensures FamilyOf(l.state) == Ubx ==> Leads(l, c, UbxNext(l.state, l.length, c).0, UbxNext(l.state, l.length, c).1)
    ensures FamilyOf(l.state) == Dle ==> Leads(l, c, DleNext(l.state, l.length, c).0, DleNext(l.state, l.length, c).1)
    ensures FamilyOf(l.state) == Text ==> Leads(l, c, TextNext(l.state, c), l.length)
  {
    FamiliesOff(l.state, c);
    hide SirfNext, UbxNext, DleNext, TextNext, GroundNext, GreetingNext, NavcomNext, RtcmNext, FamilyOf, FeedsRtcm;
  }

  lemma FamiliesOff(state: LexState, c: byte)
    ensures FamilyOf(state) == Sirf || FamilyOf(state) == Ubx || FamilyOf(state) == Dle || FamilyOf(state) == Text
            ==> !FeedsRtcm(state, c) && state != NavcomPayload
  {}

  /** The characters that open a frame, on the ground. */
  lemma GroundLeads(l: Lexer)
    requires l.state == Ground
    ensures Leads(l, 0xa0, SirfLeader1, l.length) && Leads(l, 0xb5, UbxLeader1, l.length)
    ensures Leads(l, DLE, DleLeader, l.length) && Leads(l, '$' as int, NmeaDollar, l.length)
    ensures Leads(l, '!' as int, NmeaBang, l.length) && Leads(l, '#' as int, CommentBody, l.length)
  {}

  lemma LeadsAdvanced(l: Lexer, c: byte, state: LexState, length: nat)
    requires Safe(l) && Leads(l, c, state, length)
    ensures Advanced(l, c) == Reading(l, state, length, l.seen + [c])
  {
    hide NextState, FeedsRtcm, Isgps.InBounds;
  }

  /** A character that does not end a packet. */
  lemma QuietRun(l: Lexer, c: byte, state: LexState, length: nat, rest: seq<byte>)
    requires Safe(l) && Leads(l, c, state, length) && Mid(state)
    ensures var m := Reading(l, state, length, l.seen + [c]); Safe(m) && Run(l, [c] + rest) == Run(m, rest)
  {
    LeadsAdvanced(l, c, state, length);
    var m := Reading(l, state, length, l.seen + [c]);
    assert !IsChecked(state, |m.seen|);
    JudgeUnchecked(l.kind, state, m.seen);
    assert Verdict(m) == Turn(m, [], [], false) by {
      hide Judge, Unchecked, IsChecked, Isgps.InBounds;
    }
    hide Advanced, Verdict, Safe, Leads, Mid, Isgps.InBounds;
    RunTurn(l, [c] + rest);
    assert ([c] + rest)[1..] == rest && [] + rest == rest;
    assert [] + Run(m, rest).1 == Run(m, rest).1;
  }

  /** A character that ends one: what `action` says is done, and the run goes on. */
  lemma LastRun(l: Lexer, c: byte, state: LexState, length: nat, action: Action, after: LexState, rest: seq<byte>)
    requires Safe(l) && Leads(l, c, state, length)
    requires Framed(state) ==> |l.seen| >= 3
    requires Judge(l.kind, state, l.seen + [c]) == (action, after)
    requires action == Discard || (action.Accept? && |l.seen| + 1 < BUFFER_SIZE)
    ensures
      var m := Lexer(if action.Accept? then action.kind else l.kind, after, length, l.rtcm, []);
      Safe(m) &&
      Run(l, [c] + rest) ==
      (Run(m, rest).0, (if action.Accept? then [Delivery(action.kind, l.seen + [c])] else []) + Run(m, rest).1)
  {
    LeadsAdvanced(l, c, state, length);
    var m := Reading(l, state, length, l.seen + [c]);
    assert Verdict(m) == Settle(m.(state := after), action) by {
      hide Judge, Isgps.InBounds;
    }
    hide Advanced, Verdict, Safe, Leads, Judge, Isgps.InBounds;
    RunTurn(l, [c] + rest);
    assert ([c] + rest)[1..] == rest && [] + rest == rest;
  }

  /** The lexer `k` characters into `f`, when these lead through the states and lengths of `path`. */
  function Along(l: Lexer, f: seq<byte>, path: seq<(LexState, nat)>, k: nat): Lexer
    requires k <= |f| == |path|
  {
    if k == 0 then l else Reading(l, path[k - 1].0, path[k - 1].1, l.seen + f[..k])
  }

  /** Each character of `f` leads one state further. */
  predicate Paved(l: Lexer, f: seq<byte>, path: seq<(LexState, nat)>) {
    |f| == |path| && forall k :: 0 <= k < |f| ==> Leads(Along(l, f, path, k), f[k], path[k].0, path[k].1) && Mid(path[k].0)
  }

  lemma {:induction false} PathRun(l: Lexer, f: seq<byte>, path: seq<(LexState, nat)>, k: nat, rest: seq<byte>)
    requires Safe(l) && Paved(l, f, path) && k <= |f|
    ensures var m := Along(l, f, path, k); Safe(m) && Run(l, f + rest) == Run(m, f[k..] + rest)
  {
    hide Safe, Leads, Mid, Run;
    if k == 0 {
      assert f[0..] == f;
    } else {
      PathRun(l, f, path, k - 1, rest);
      var before, c := Along(l, f, path, k - 1), f[k - 1];
      assert Leads(before, c, path[k - 1].0, path[k - 1].1);
      QuietRun(before, c, path[k - 1].0, path[k - 1].1, f[k..] + rest);
      assert [c] + (f[k..] + rest) == f[k - 1..] + rest;
      assert before.seen == l.seen + f[..k - 1];
      assert before.seen + [c] == l.seen + f[..k];
    }
  }

  /** A stretch of characters with no end of packet in it. */
  lemma WholePath(l: Lexer, f: seq<byte>, path: seq<(LexState, nat)>, rest: seq<byte>)
    requires Safe(l) && Paved(l, f, path) && f != []
    ensures
      var m := Reading(l, path[|f| - 1].0, path[|f| - 1].1, l.seen + f);
      Safe(m) && Run(l, f + rest) == Run(m, rest)
  {
    hide Safe, Paved, Run;
    PathRun(l, f, path, |f|, rest);
    assert f[|f|..] + rest == rest && f[..|f|] == f;
  }

  /** The states that count down to the end of a payload. */
  predicate CountsTo(stay: LexState, done: LexState) {
    || (stay == SirfPayload && done == SirfDelivered)
    || (stay == UbxPayload && done == UbxChecksumA)
    || (stay == NavcomLength2 && done == NavcomPayload)
  }

  lemma CountedLeads(l: Lexer, c: byte, done: LexState)
    requires CountsTo(l.state, done) && l.length > 0
    ensures Leads(l, c, if l.length == 1 then done else l.state, l.length - 1)
    ensures Mid(l.state) && Mid(done)
  {}

  /** A payload of the announced length. */
  lemma {:induction false} CountedRun(l: Lexer, done: LexState, body: seq<byte>, rest: seq<byte>)
    requires Safe(l) && CountsTo(l.state, done) && body != [] && l.length == |body|
    ensures var m := Reading(l, done, 0, l.seen + body); Safe(m) && Run(l, body + rest) == Run(m, rest)
    decreases |body|
  {
    hide Safe, Leads, Mid, Run;
    CountedLeads(l, body[0], done);
    var state := if l.length == 1 then done else l.state;
    var m := Reading(l, state, l.length - 1, l.seen + [body[0]]);
    QuietRun(l, body[0], state, l.length - 1, body[1..] + rest);
    assert [body[0]] + (body[1..] + rest) == body + rest;
    if |body| == 1 {
      assert body == [body[0]] && body[1..] + rest == rest;
    } else {
      CountedRun(m, done, body[1..], rest);
      assert l.seen + [body[0]] + body[1..] == l.seen + body;
    }
  }
}
