/** The packet lexer on a stream of RTCM-104 messages: where it cuts the stream, and what stands in the
    decoder's word buffer, from which rtcm_unpack reads, each time it hands over a packet. */
module RtcmStream {
  import opened Bytes
  import opened IsgpsWord
  import opened Isgps
  import opened IsgpsRoundTrip
  import opened Packet
  import PacketRuns

  // ---------- what the driver sees ----------

  /** An RTCM packet handed over, and the decoder's word buffer at that moment. */
  datatype Pickup = Pickup(bytes: seq<byte>, buffer: seq<Word>)

  /** The RTCM packets of a run. */
  function PickedUp(l: Lexer, pending: seq<byte>): (r: seq<Pickup>)
    requires Packet.Safe(l)
    ensures forall i :: 0 <= i < |r| ==> |r[i].buffer| == RTCM_WORDS_MAX
    decreases |l.seen| + |pending|, |pending|
  {
    hide OneTurn;
    if pending == [] then [] else
      var t := OneTurn(l, pending[0]);
      (if t.out != [] && t.out[0].kind == RtcmPacket then [Pickup(t.out[0].bytes, t.lexer.rtcm.buf)] else [])
      + PickedUp(t.lexer, t.back + pending[1..])
  }

  // ---------- where the stream is cut ----------

  /** A piece of the stream, and the message it ends with. */
  datatype Piece = Piece(bytes: seq<byte>, words: seq<Word>)

  /** The two letters with which greetings begin: on the ground they are left to the decoder too. */
  predicate Greets(c: byte) { c == 'A' as int || c == 'E' as int }

  /** The character that makes the lexer go on with the greeting. */
  function GoesOn(c: byte): byte { if c == 'A' as int then 'S' as int else 'A' as int }

  /** The characters that take the lexer from the ground to another protocol. */
  predicate Opens(c: byte) { !FeedsRtcm(Ground, c) }

  /** On the ground, a character on which the lexer begins to follow the decoder. */
  predicate Joins(c: byte, status: Status) {
    status == Message || (status == Sync && !Greets(c))
  }

  /** Cut after every byte that completes a message. `inside` tells that the lexer follows the decoder;
      until it does, it drops what it reads. */
  function Pieces(inside: bool, seen: seq<byte>, bytes: seq<byte>, receipts: seq<Receipt>): seq<Piece>
    requires |bytes| == |receipts|
    decreases |bytes|
  {
    if bytes == [] then [] else
      var frame, status := seen + [bytes[0]], receipts[0].status;
      if status == Message then [Piece(frame, receipts[0].words)] + Pieces(true, [], bytes[1..], receipts[1..])
      else if inside || Joins(bytes[0], status) then Pieces(true, frame, bytes[1..], receipts[1..])
      else Pieces(false, [], bytes[1..], receipts[1..])
  }

  /** Until the lexer follows the decoder, no byte opens a frame of another protocol, and no letter is
      followed by the next one of a greeting. */
  predicate Calm(bytes: seq<byte>, receipts: seq<Receipt>)
    requires |bytes| == |receipts|
    decreases |bytes|
  {
    bytes == [] ||
    (&& !Opens(bytes[0])
     && (Joins(bytes[0], receipts[0].status)
         || ((Greets(bytes[0]) && |bytes| > 1 ==> bytes[1] != GoesOn(bytes[0])) && Calm(bytes[1..], receipts[1..]))))
  }

  /** The decoder reports a loss only as long as it has not locked. */
  predicate Holds(locked: bool, receipts: seq<Receipt>)
    decreases |receipts|
  {
    receipts == [] ||
    (var status := receipts[0].status;
     (locked ==> status != NoSync) && Holds(locked || status == Sync || status == Message, receipts[1..]))
  }

  predicate HasRoom(p: Piece) { |p.bytes| < BUFFER_SIZE }

  predicate Fit(pieces: seq<Piece>) { forall i :: 0 <= i < |pieces| ==> HasRoom(pieces[i]) }

  /** The entries of `xs` that belong to pieces for which the output buffer has room. */
  function Kept<T>(pieces: seq<Piece>, xs: seq<T>): seq<T>
    requires |xs| == |pieces|
    decreases |pieces|
  {
    if pieces == [] then [] else (if HasRoom(pieces[0]) then [xs[0]] else []) + Kept(pieces[1..], xs[1..])
  }

  /** The pieces that fit: longer ones are thrown away. */
  function Fitting(pieces: seq<Piece>): seq<Piece> { Kept(pieces, pieces) }

  lemma {:induction false} AllKept<T>(pieces: seq<Piece>, xs: seq<T>)
    requires |xs| == |pieces| && Fit(pieces)
    ensures Kept(pieces, xs) == xs
    decreases |pieces|
  {
    if pieces != [] {
      assert HasRoom(pieces[0]);
      assert Fit(pieces[1..]) by {
        forall i | 0 <= i < |pieces[1..]| ensures HasRoom(pieces[1..][i]) {
          assert pieces[1..][i] == pieces[i + 1];
        }
      }
      AllKept(pieces[1..], xs[1..]);
    }
  }

  /** The bytes as the decoder takes them. */
  function Words(bytes: seq<byte>): (r: seq<Word>)
    ensures |r| == |bytes|
    decreases |bytes|
  {
    if bytes == [] then [] else [AsWord(bytes[0])] + Words(bytes[1..])
  }

  /** Each pickup with the words of its message. */
  function Trimmed(got: seq<Pickup>): (r: seq<Piece>)
    requires forall i :: 0 <= i < |got| ==> |got[i].buffer| == RTCM_WORDS_MAX
    ensures |r| == |got|
    ensures forall i :: 0 <= i < |got| ==> r[i] == Piece(got[i].bytes, AtHead(got[i].buffer))
    decreases |got|
  {
    hide AtHead;
    if got == [] then [] else [Piece(got[0].bytes, AtHead(got[0].buffer))] + Trimmed(got[1..])
  }

  /** The message at the head of a buffer, as long as its second word says. */
  function AtHead(buffer: seq<Word>): seq<Word>
    requires |buffer| == RTCM_WORDS_MAX
  {
    buffer[..FrameLength(buffer[1]) + 2]
  }

  function Packets(pieces: seq<Piece>): seq<Delivery>
    decreases |pieces|
  {
    if pieces == [] then [] else [Delivery(RtcmPacket, pieces[0].bytes)] + Packets(pieces[1..])
  }

  // ---------- single turns ----------

  /** The lexer once the decoder has taken a byte. */
  function After(l: Lexer, kind: PacketType, state: LexState, rtcm: Decoder, seen: seq<byte>): Lexer {
    Lexer(kind, state, l.length, rtcm, seen)
  }

  lemma InsideNext(length: nat, seen: seq<byte>, c: byte, stat: Status)
    requires stat != NoSync
    ensures FeedsRtcm(RtcmSync, c)
    ensures NextState(RtcmSync, length, seen, c, stat) == (if stat == Message then RtcmRecognized else RtcmSync, length)
  {}

  lemma GroundNextIs(length: nat, seen: seq<byte>, c: byte, stat: Status)
    requires !Opens(c)
    ensures FeedsRtcm(Ground, c)
    ensures NextState(Ground, length, seen, c, stat) ==
      (GroundState(c, stat), length)
  {}

  lemma LetterNext(state: LexState, length: nat, seen: seq<byte>, c: byte)
    requires (state == Astral1 && c != 'S' as int) || (state == Eartha1 && c != 'A' as int)
    ensures !FeedsRtcm(state, c) && NextState(state, length, seen, c, Skip) == (Ground, length)
  {}

  /** The states that these streams reach. */
  predicate Reached(state: LexState) {
    state == RtcmSync || state == Ground || state == RtcmRecognized
    || state == Astral1 || state == Astral2 || state == Astral3 || state == Astral5
    || state == Eartha1 || state == Eartha2 || state == Eartha3 || state == Eartha4
  }

  function Settled(state: LexState): (Action, LexState) {
    if state == Ground then (Restart, Ground)
    else if state == RtcmRecognized then (Accept(RtcmPacket), RtcmSync)
    else (ReadOn, state)
  }

  lemma JudgeIs(kind: PacketType, state: LexState, frame: seq<byte>)
    requires Reached(state) && (Packet.Framed(state) ==> |frame| >= 4)
    ensures Judge(kind, state, frame) == Settled(state)
  {
    hide Judge;
    JudgeUnchecked(kind, state, frame);
  }

  lemma VerdictIs(m: Lexer)
    requires m.seen != [] && EnoughSeen(m.state, |m.seen|) && InBounds(m.rtcm) && Reached(m.state)
    ensures Verdict(m) == var (action, after) := Settled(m.state); Settle(m.(state := after), action)
  {
    hide Judge, InBounds, MinSeen, Reached, Settled, Settle;
    JudgeIs(m.kind, m.state, m.seen);
  }

  /** A message is complete: `frame` is a packet if the output buffer has room, and gone in any case. */
  function MessageTurn(l: Lexer, rtcm: Decoder, frame: seq<byte>): Turn {
    if |frame| < BUFFER_SIZE then Turn(After(l, RtcmPacket, RtcmSync, rtcm, []), [Delivery(RtcmPacket, frame)], [], true)
    else Turn(After(l, l.kind, RtcmSync, rtcm, []), [], [], true)
  }

  lemma InsideTurn(l: Lexer, c: byte)
    requires Packet.Safe(l) && l.state == RtcmSync
    requires InBounds(l.rtcm) && Step(l.rtcm, AsWord(c)).1 != NoSync
    ensures
      var (rtcm, stat) := Step(l.rtcm, AsWord(c));
      var frame := l.seen + [c];
      OneTurn(l, c) ==
        if stat == Message then MessageTurn(l, rtcm, frame)
        else Turn(After(l, l.kind, RtcmSync, rtcm, frame), [], [], false)
  {
    hide Step, NextState, FeedsRtcm, Verdict, InBounds;
    var stat := Step(l.rtcm, AsWord(c)).1;
    InsideNext(l.length, l.seen, c, stat);
    VerdictIs(Advanced(l, c));
  }

  function GroundState(c: byte, stat: Status): LexState {
    if stat == Message then RtcmRecognized
    else if c == 'A' as int then Astral1
    else if c == 'E' as int then Eartha1
    else if stat == Sync then RtcmSync else Ground
  }

  lemma GroundAdvances(l: Lexer, c: byte)
    requires Packet.Safe(l) && l.state == Ground && !Opens(c) && InBounds(l.rtcm)
    ensures
      var (rtcm, stat) := Step(l.rtcm, AsWord(c));
      Advanced(l, c) == After(l, l.kind, GroundState(c, stat), rtcm, l.seen + [c])
  {
    hide Step, NextState, FeedsRtcm, InBounds, GroundState, AsWord;
    assert FeedsRtcm(Ground, c);
    GroundNextIs(l.length, l.seen, c, Step(l.rtcm, AsWord(c)).1);
  }

  lemma SettledIs()
    ensures Settled(Ground) == (Restart, Ground) && Settled(RtcmRecognized) == (Accept(RtcmPacket), RtcmSync)
    ensures Settled(Astral1) == (ReadOn, Astral1) && Settled(Eartha1) == (ReadOn, Eartha1)
    ensures Settled(RtcmSync) == (ReadOn, RtcmSync)
  {}

  lemma GroundTurn(l: Lexer, c: byte)
    requires Packet.Safe(l) && l.state == Ground && l.seen == [] && !Opens(c)
    requires InBounds(l.rtcm)
    ensures
      var (rtcm, stat) := Step(l.rtcm, AsWord(c));
      OneTurn(l, c) ==
        if stat == Message then MessageTurn(l, rtcm, [c])
        else if c == 'A' as int then Turn(After(l, l.kind, Astral1, rtcm, [c]), [], [], false)
        else if c == 'E' as int then Turn(After(l, l.kind, Eartha1, rtcm, [c]), [], [], false)
        else if stat == Sync then Turn(After(l, l.kind, RtcmSync, rtcm, [c]), [], [], false)
        else Turn(After(l, l.kind, Ground, rtcm, []), [], [], false)
  {
    hide Step, Advanced, Verdict, InBounds, Opens, Packet.Safe, Settled, EnoughSeen, AsWord;
    GroundAdvances(l, c);
    assert l.seen + [c] == [c] && [c][1..] == [];
    VerdictIs(Advanced(l, c));
    SettledIs();
  }

  /** A greeting that stops after its first letter: the character is read again, on the ground. */
  lemma LetterTurn(l: Lexer, g: byte, c: byte)
    requires Packet.Safe(l) && Greets(g) && c != GoesOn(g) && l.seen == [g]
    requires l.state == if g == 'A' as int then Astral1 else Eartha1
    ensures OneTurn(l, c) == Turn(After(l, l.kind, Ground, l.rtcm, []), [], [c], false)
  {
    hide Step, NextState, FeedsRtcm, Verdict, InBounds;
    LetterNext(l.state, l.length, l.seen, c);
    VerdictIs(Advanced(l, c));
    assert (l.seen + [c])[1..] == [c];
  }

  // ---------- runs ----------

  lemma PickTurn(l: Lexer, pending: seq<byte>)
    requires Packet.Safe(l) && pending != []
    ensures
      var t := OneTurn(l, pending[0]);
      var rest := t.back + pending[1..];
      && Run(l, pending) == (Run(t.lexer, rest).0, t.out + Run(t.lexer, rest).1)
      && PickedUp(l, pending) ==
         (if t.out != [] && t.out[0].kind == RtcmPacket then [Pickup(t.out[0].bytes, t.lexer.rtcm.buf)] else [])
         + PickedUp(t.lexer, rest)
  {
    hide OneTurn, Packet.Safe;
  }

  /** A byte of the transmission never opens a frame of another protocol. */
  lemma TaggedStays(c: byte)
    requires Tagged(AsWord(c))
    ensures !Opens(c)
  {}

  /** A turn that delivers nothing. */
  lemma NextRun(l: Lexer, c: byte, m: Lexer, back: seq<byte>, rest: seq<byte>)
    requires Packet.Safe(l) && OneTurn(l, c) == Turn(m, [], back, false)
    ensures Packet.Safe(m) && Run(l, [c] + rest) == Run(m, back + rest)
  {
    hide OneTurn, Run, Packet.Safe;
    PacketRuns.RunTurn(l, [c] + rest);
    assert ([c] + rest)[1..] == rest;
    assert [] + Run(m, back + rest).1 == Run(m, back + rest).1;
  }

  /** The receipts still to come. */
  function Coming(rtcm: Decoder, bytes: seq<byte>): (r: seq<Receipt>)
    requires InBounds(rtcm)
    ensures |r| == |bytes|
  {
    Receive(rtcm, Words(bytes)).1
  }

  lemma ComingNext(rtcm: Decoder, bytes: seq<byte>)
    requires InBounds(rtcm) && bytes != []
    ensures
      var (t, status) := Step(rtcm, AsWord(bytes[0]));
      Coming(rtcm, bytes) == [Report(t, status)] + Coming(t, bytes[1..])
  {
    hide Step, Report;
    assert Words(bytes)[1..] == Words(bytes[1..]);
  }

  /** On the ground, or following the decoder. */
  predicate Stands(l: Lexer, inside: bool) {
    Packet.Safe(l) && if inside then l.state == RtcmSync else l.state == Ground && l.seen == []
  }

  /** The message at the head of the decoder's buffer. */
  function Stored(t: Decoder): seq<Word>
    requires InBounds(t)
  {
    AtHead(t.buf)
  }

  /** The decoder once it has taken the bytes, each of them once. */
  function Through(rtcm: Decoder, bytes: seq<byte>): (r: Decoder)
    requires InBounds(rtcm)
    ensures InBounds(r)
  {
    Receive(rtcm, Words(bytes)).0
  }

  lemma ThroughNext(rtcm: Decoder, bytes: seq<byte>)
    requires InBounds(rtcm) && bytes != []
    ensures Through(rtcm, bytes) == Through(Step(rtcm, AsWord(bytes[0])).0, bytes[1..])
  {
    hide Step, Report;
    assert Words(bytes)[1..] == Words(bytes[1..]);
  }

  /** No more than the first letter of a greeting has been read. */
  predicate Level(state: LexState) {
    state == Ground || state == RtcmSync || state == Astral1 || state == Eartha1
  }

  /** The run's packets are `pieces`, each handed over while the decoder still holds its message; and the
      decoder ends as `rtcm`. */
  predicate Delivered(l: Lexer, bytes: seq<byte>, pieces: seq<Piece>, rtcm: Decoder)
    requires Packet.Safe(l)
  {
    var (m, out) := Run(l, bytes);
    out == Packets(pieces) && Trimmed(PickedUp(l, bytes)) == pieces && m.rtcm == rtcm && Level(m.state)
  }

  lemma PacketNow(frame: seq<byte>, t: Decoder, out: seq<Delivery>, got: seq<Pickup>, later: seq<Piece>)
    requires InBounds(t) && (forall i :: 0 <= i < |got| ==> |got[i].buffer| == RTCM_WORDS_MAX)
    requires out == Packets(later) && Trimmed(got) == later
    ensures
      var pieces := [Piece(frame, Stored(t))] + later;
      [Delivery(RtcmPacket, frame)] + out == Packets(pieces) && Trimmed([Pickup(frame, t.buf)] + got) == pieces
  {
    hide FrameLength;
    var pieces := [Piece(frame, Stored(t))] + later;
    assert pieces[1..] == later;
    assert ([Pickup(frame, t.buf)] + got)[1..] == got;
  }

  lemma FittingNext(p: Piece, later: seq<Piece>)
    ensures Fitting([p] + later) == (if HasRoom(p) then [p] else []) + Fitting(later)
  {
    assert ([p] + later)[1..] == later;
  }

  /** A byte that completes a message. */
  lemma AfterMessage(l: Lexer, inside: bool, bytes: seq<byte>, later: seq<Piece>, end: Decoder)
    requires Stands(l, inside) && bytes != [] && InBounds(l.rtcm) && (!inside ==> !Opens(bytes[0]))
    requires Step(l.rtcm, AsWord(bytes[0])).1 == Message
    requires
      var rtcm := Step(l.rtcm, AsWord(bytes[0])).0;
      var m := MessageTurn(l, rtcm, l.seen + [bytes[0]]).lexer;
      Packet.Safe(m) && Delivered(m, bytes[1..], Fitting(later), end)
    ensures
      var rtcm := Step(l.rtcm, AsWord(bytes[0])).0;
      Delivered(l, bytes, Fitting([Piece(l.seen + [bytes[0]], Stored(rtcm))] + later), end)
  {
    hide OneTurn, Packet.Safe, Step, Stored, Delivered, InBounds, Opens, Fitting, MessageTurn;
    var frame := l.seen + [bytes[0]];
    var rtcm := Step(l.rtcm, AsWord(bytes[0])).0;
    if inside {
      InsideTurn(l, bytes[0]);
    } else {
      GroundTurn(l, bytes[0]);
    }
    assert [] + [bytes[0]] == [bytes[0]];
    FittingNext(Piece(frame, Stored(rtcm)), later);
    MessageRun(l, rtcm, bytes, Fitting(later), end);
  }

  lemma MessageRun(l: Lexer, rtcm: Decoder, bytes: seq<byte>, later: seq<Piece>, end: Decoder)
    requires Packet.Safe(l) && bytes != [] && InBounds(rtcm)
    requires
      var t := MessageTurn(l, rtcm, l.seen + [bytes[0]]);
      OneTurn(l, bytes[0]) == t && Packet.Safe(t.lexer) && Delivered(t.lexer, bytes[1..], later, end)
    ensures
      var p := Piece(l.seen + [bytes[0]], Stored(rtcm));
      Delivered(l, bytes, (if HasRoom(p) then [p] else []) + later, end)
  {
    hide OneTurn, Packet.Safe, Stored, Run, PickedUp, InBounds, Trimmed, Level;
    var frame := l.seen + [bytes[0]];
    var m := MessageTurn(l, rtcm, frame).lexer;
    assert [] + bytes[1..] == bytes[1..];
    if |frame| < BUFFER_SIZE {
      PickTurn(l, bytes);
      PacketNow(frame, rtcm, Run(m, bytes[1..]).1, PickedUp(m, bytes[1..]), later);
    } else {
      AfterQuiet(l, m, bytes, bytes[1..], later, end);
      assert [] + later == later;
    }
  }

  lemma AfterQuiet(l: Lexer, m: Lexer, bytes: seq<byte>, rest: seq<byte>, later: seq<Piece>, end: Decoder)
    requires Packet.Safe(l) && bytes != [] && Packet.Safe(m)
    requires
      var t := OneTurn(l, bytes[0]);
      t.lexer == m && t.out == [] && t.back + bytes[1..] == rest
    requires Delivered(m, rest, later, end)
    ensures Delivered(l, bytes, later, end)
  {
    hide OneTurn, Packet.Safe, Run, PickedUp, Trimmed, Level;
    PickTurn(l, bytes);
    assert [] + Run(m, rest).1 == Run(m, rest).1 && [] + PickedUp(m, rest) == PickedUp(m, rest);
  }

  lemma NothingDelivered(l: Lexer)
    requires Packet.Safe(l) && Level(l.state)
    ensures Delivered(l, [], [], l.rtcm)
  {}

  /** A letter of no greeting: the run goes on from the ground as if the letter had been dropped at once. */
  lemma AfterLetter(l: Lexer, bytes: seq<byte>, later: seq<Piece>, end: Decoder)
    requires Stands(l, false) && bytes != [] && InBounds(l.rtcm) && Greets(bytes[0]) && !Opens(bytes[0])
    requires |bytes| > 1 ==> bytes[1] != GoesOn(bytes[0])
    requires
      var (rtcm, stat) := Step(l.rtcm, AsWord(bytes[0]));
      var m := After(l, l.kind, Ground, rtcm, []);
      stat != Message && Packet.Safe(m) && Delivered(m, bytes[1..], later, end)
    ensures Delivered(l, bytes, later, end)
  {
    hide OneTurn, Packet.Safe, Step, Delivered, InBounds, Opens, Run, PickedUp, Trimmed, GoesOn;
    var g := bytes[0];
    var rtcm := Step(l.rtcm, AsWord(g)).0;
    var m := After(l, l.kind, Ground, rtcm, []);
    GroundTurn(l, g);
    var held := OneTurn(l, g).lexer;
    assert [] + bytes[1..] == bytes[1..];
    if |bytes| > 1 {
      LetterTurn(held, g, bytes[1]);
      assert bytes[1..][0] == bytes[1] && [bytes[1]] + bytes[1..][1..] == bytes[1..];
      AfterQuiet(held, m, bytes[1..], bytes[1..], later, end);
    } else {
      assert bytes[1..] == [];
      NothingDelivered(held);
      NothingDelivered(m);
      Unique(m, [], later, end, [], rtcm);
    }
    AfterQuiet(l, held, bytes, bytes[1..], later, end);
  }

  lemma Unique(l: Lexer, bytes: seq<byte>, a: seq<Piece>, end: Decoder, b: seq<Piece>, end': Decoder)
    requires Packet.Safe(l) && Delivered(l, bytes, a, end) && Delivered(l, bytes, b, end')
    ensures a == b && end == end'
  {
    hide Packet.Safe, Run, PickedUp;
  }

  lemma StandsAfter(l: Lexer, kind: PacketType, rtcm: Decoder, seen: seq<byte>)
    requires InBounds(rtcm)
    ensures Stands(After(l, kind, RtcmSync, rtcm, seen), true) && Stands(After(l, kind, Ground, rtcm, []), false)
  {}

  /** The receipts' first, taken apart. */
  lemma PiecesNext(inside: bool, seen: seq<byte>, rtcm: Decoder, bytes: seq<byte>)
    requires InBounds(rtcm) && bytes != []
    ensures
      var (t, stat) := Step(rtcm, AsWord(bytes[0]));
      var frame, rest, receipts := seen + [bytes[0]], bytes[1..], Coming(t, bytes[1..]);
      Pieces(inside, seen, bytes, Coming(rtcm, bytes)) ==
        if stat == Message then [Piece(frame, Stored(t))] + Pieces(true, [], rest, receipts)
        else if inside || Joins(bytes[0], stat) then Pieces(true, frame, rest, receipts)
        else Pieces(false, [], rest, receipts)
  {
    hide Step, Coming, FrameLength, Joins;
    ComingNext(rtcm, bytes);
    var t := Step(rtcm, AsWord(bytes[0])).0;
    assert Coming(rtcm, bytes)[1..] == Coming(t, bytes[1..]);
  }

  lemma ConditionsNext(inside: bool, locked: bool, rtcm: Decoder, bytes: seq<byte>)
    requires InBounds(rtcm) && bytes != []
    requires Holds(locked, Coming(rtcm, bytes)) && (!inside ==> Calm(bytes, Coming(rtcm, bytes)))
    ensures
      var (t, stat) := Step(rtcm, AsWord(bytes[0]));
      && (locked ==> stat != NoSync)
      && Holds(locked || stat == Sync || stat == Message, Coming(t, bytes[1..]))
      && (!inside ==> !Opens(bytes[0]))
      && (!inside && !Joins(bytes[0], stat) ==>
            (Greets(bytes[0]) && |bytes| > 1 ==> bytes[1] != GoesOn(bytes[0])) && Calm(bytes[1..], Coming(t, bytes[1..])))
  {
    hide Step, Coming, FrameLength, Joins, Opens, Greets, GoesOn;
    ComingNext(rtcm, bytes);
    var t := Step(rtcm, AsWord(bytes[0])).0;
    assert Coming(rtcm, bytes)[1..] == Coming(t, bytes[1..]);
  }

  /** A byte that completes no message, read by a lexer that follows the decoder or starts to. */
  lemma AfterInside(l: Lexer, inside: bool, bytes: seq<byte>, later: seq<Piece>, end: Decoder)
    requires Stands(l, inside) && bytes != [] && InBounds(l.rtcm)
    requires
      var (rtcm, stat) := Step(l.rtcm, AsWord(bytes[0]));
      var m := After(l, l.kind, RtcmSync, rtcm, l.seen + [bytes[0]]);
      && stat != Message && (if inside then stat != NoSync else Joins(bytes[0], stat) && !Opens(bytes[0]))
      && Packet.Safe(m) && Delivered(m, bytes[1..], later, end)
    ensures Delivered(l, bytes, later, end)
  {
    hide OneTurn, Packet.Safe, Step, InBounds, Delivered, Opens;
    assert [] + bytes[1..] == bytes[1..] && [] + [bytes[0]] == [bytes[0]];
    if inside {
      InsideTurn(l, bytes[0]);
    } else {
      GroundTurn(l, bytes[0]);
    }
    AfterQuiet(l, After(l, l.kind, RtcmSync, Step(l.rtcm, AsWord(bytes[0])).0, l.seen + [bytes[0]]), bytes, bytes[1..], later, end);
  }

  lemma AfterDropped(l: Lexer, bytes: seq<byte>, later: seq<Piece>, end: Decoder)
    requires Stands(l, false) && bytes != [] && InBounds(l.rtcm) && !Opens(bytes[0])
    requires Greets(bytes[0]) && |bytes| > 1 ==> bytes[1] != GoesOn(bytes[0])
    requires
      var (rtcm, stat) := Step(l.rtcm, AsWord(bytes[0]));
      var m := After(l, l.kind, Ground, rtcm, []);
      stat != Message && !Joins(bytes[0], stat) && Packet.Safe(m) && Delivered(m, bytes[1..], later, end)
    ensures Delivered(l, bytes, later, end)
  {
    hide OneTurn, Packet.Safe, Step, InBounds, Delivered, Opens;
    if Greets(bytes[0]) {
      AfterLetter(l, bytes, later, end);
    } else {
      assert [] + bytes[1..] == bytes[1..];
      GroundTurn(l, bytes[0]);
      AfterQuiet(l, After(l, l.kind, Ground, Step(l.rtcm, AsWord(bytes[0])).0, []), bytes, bytes[1..], later, end);
    }
  }

  /** The stream is delivered cut as the decoder's receipts say, and the decoder takes each byte once. */
  lemma {:induction false} StreamRun(l: Lexer, inside: bool, locked: bool, bytes: seq<byte>)
    requires Stands(l, inside) && InBounds(l.rtcm) && (inside ==> locked)
    requires Holds(locked, Coming(l.rtcm, bytes)) && (!inside ==> Calm(bytes, Coming(l.rtcm, bytes)))
    ensures Delivered(l, bytes, Fitting(Pieces(inside, l.seen, bytes, Coming(l.rtcm, bytes))), Through(l.rtcm, bytes))
    decreases |bytes|
  {
    hide Step, InBounds, Delivered, Opens, Greets, GoesOn, Coming, Through, Fitting, Stored, Pieces, Holds, Calm, Joins;
    if bytes == [] {
      NoPieces(l, inside);
    } else {
      var c, rest := bytes[0], bytes[1..];
      var (rtcm, stat) := Step(l.rtcm, AsWord(c));
      var receipts, frame, end := Coming(rtcm, rest), l.seen + [c], Through(l.rtcm, bytes);
      PiecesNext(inside, l.seen, l.rtcm, bytes);
      ThroughNext(l.rtcm, bytes);
      ConditionsNext(inside, locked, l.rtcm, bytes);
      if stat == Message {
        StandsAfter(l, RtcmPacket, rtcm, []);
        StandsAfter(l, l.kind, rtcm, []);
        StreamRun(MessageTurn(l, rtcm, frame).lexer, true, true, rest);
        AfterMessage(l, inside, bytes, Pieces(true, [], rest, receipts), end);
      } else if inside || Joins(c, stat) {
        StandsAfter(l, l.kind, rtcm, frame);
        if !inside {
          JoinsLocked(c, stat);
        }
        StreamRun(After(l, l.kind, RtcmSync, rtcm, frame), true, true, rest);
        AfterInside(l, inside, bytes, Fitting(Pieces(true, frame, rest, receipts)), end);
      } else {
        StandsAfter(l, l.kind, rtcm, []);
        StreamRun(After(l, l.kind, Ground, rtcm, []), false, locked || stat == Sync, rest);
        AfterDropped(l, bytes, Fitting(Pieces(false, [], rest, receipts)), end);
      }
    }
  }

  lemma JoinsLocked(c: byte, stat: Status)
    requires Joins(c, stat)
    ensures stat == Sync || stat == Message
  {}

  lemma NoPieces(l: Lexer, inside: bool)
    requires Stands(l, inside) && InBounds(l.rtcm)
    ensures Delivered(l, [], Fitting(Pieces(inside, l.seen, [], Coming(l.rtcm, []))), Through(l.rtcm, []))
  {
    NothingDelivered(l);
  }
}
