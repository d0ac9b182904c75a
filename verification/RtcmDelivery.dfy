/** From the transmitter to the packets: what the lexer delivers of a transmission of RTCM-104 messages. */
module RtcmDelivery {
  import opened Bytes
  import opened IsgpsWord
  import opened Isgps
  import opened IsgpsRoundTrip
  import opened Packet
  import opened RtcmStream
  import IsgpsTransport

  // ---------- receipts ----------

  lemma {:induction false} HoldsHeeded(locked: bool, receipts: seq<Receipt>)
    requires Holds(locked, Heeded(receipts))
    ensures Holds(locked, receipts)
    decreases |receipts|
  {
    if receipts != [] {
      var status := receipts[0].status;
      if status != Skip {
        assert Heeded(receipts)[1..] == Heeded(receipts[1..]);
      }
      HoldsHeeded(locked || status == Sync || status == Message, receipts[1..]);
    }
  }

  lemma {:induction false} MessagesHeeded(receipts: seq<Receipt>)
    ensures Messages(Heeded(receipts)) == Messages(receipts)
    decreases |receipts|
  {
    if receipts != [] {
      MessagesHeeded(receipts[1..]);
      if receipts[0].status != Skip {
        assert Heeded(receipts)[1..] == Heeded(receipts[1..]);
      }
    }
  }

  /** No mark is lost between the symbols that carry it. */
  lemma {:induction false} HoldsDue(locked: bool, marks: seq<Receipt>, o: int)
    requires -5 <= o <= 24 && Holds(locked, marks) && forall i :: 0 <= i < |marks| ==> marks[i].status != Skip
    ensures Holds(locked, Due(locked, marks, o))
    decreases |marks|, o + 6
  {
    if marks != [] {
      if o > 0 {
        HoldsDue(locked, marks, o - 6);
        assert Due(locked, marks, o)[1..] == Due(locked, marks, o - 6);
      } else {
        var next := marks[0].status != NoSync;
        HoldsDue(next, marks[1..], o + 24);
        assert Due(locked, marks, o)[1..] == Due(next, marks[1..], o + 24);
      }
    }
  }

  /** The receipts of whole messages. */
  predicate Firm(marks: seq<Receipt>) {
    forall i :: 0 <= i < |marks| ==> marks[i].status == Sync || marks[i].status == Message
  }

  lemma {:induction false} FirmMessages(prev: Word, msgs: seq<seq<Word>>)
    requires forall i :: 0 <= i < |msgs| ==> msgs[i] != []
    ensures Firm(MessageMarks(prev, msgs))
    decreases |msgs|
  {
    hide IsgpsTransport.Clears, LastAir;
    if msgs != [] {
      FirmInSync(|msgs[0]| - 1);
      FirmMessages(LastAir(prev, msgs[0]), msgs[1..]);
    }
  }

  lemma {:induction false} FirmInSync(n: nat)
    ensures Firm(InSync(n))
  {
    if n > 0 {
      FirmInSync(n - 1);
    }
  }

  lemma {:induction false} HoldsFirm(locked: bool, marks: seq<Receipt>)
    requires Firm(marks)
    ensures Holds(locked, marks)
    decreases |marks|
  {
    if marks != [] {
      assert Firm(marks[1..]);
      HoldsFirm(true, marks[1..]);
    }
  }

  lemma {:induction false} HoldsSilence(n: nat, marks: seq<Receipt>)
    requires Firm(marks)
    ensures Holds(false, Silence(n) + marks)
    ensures forall i :: 0 <= i < |Silence(n) + marks| ==> (Silence(n) + marks)[i].status != Skip
  {
    if n == 0 {
      assert Silence(n) + marks == marks;
      HoldsFirm(false, marks);
    } else {
      var all := Silence(n) + marks;
      HoldsSilence(n - 1, marks);
      assert all[1..] == Silence(n - 1) + marks;
      assert all[0] == NOTHING_YET;
      forall i | 0 <= i < |all| ensures all[i].status != Skip {
        if i > 0 {
          assert all[i] == all[1..][i - 1];
        }
      }
    }
  }

  function WordsOf(pieces: seq<Piece>): (r: seq<seq<Word>>)
    ensures |r| == |pieces| && forall i :: 0 <= i < |pieces| ==> r[i] == pieces[i].words
    decreases |pieces|
  {
    if pieces == [] then [] else [pieces[0].words] + WordsOf(pieces[1..])
  }

  /** The pieces end with the messages that the decoder returns. */
  lemma {:induction false} PiecesMessages(inside: bool, seen: seq<byte>, bytes: seq<byte>, receipts: seq<Receipt>)
    requires |bytes| == |receipts|
    ensures WordsOf(Pieces(inside, seen, bytes, receipts)) == Messages(receipts)
    decreases |bytes|
  {
    hide Joins;
    if bytes != [] {
      var frame, status := seen + [bytes[0]], receipts[0].status;
      var now := status == Message || inside || Joins(bytes[0], status);
      var kept := if status == Message || !now then [] else frame;
      PiecesMessages(now, kept, bytes[1..], receipts[1..]);
      if status == Message {
        assert Pieces(inside, seen, bytes, receipts)[1..] == Pieces(true, [], bytes[1..], receipts[1..]);
      }
    }
  }

  /** The symbols of `msgs`, encoded in one pass behind `idle` words of idle line, from bit `o` of the first
      word on. */
  function OnLine(msgs: seq<seq<Word>>, idle: nat, o: int): seq<Word>
    requires -5 <= o <= 24
  {
    IsgpsTransport.Symbols(Idle(idle) + IsgpsTransport.Airs(ZERO, Flatten(msgs)), o)
  }

  /** `words` are the bytes of such a transmission, with untagged bytes anywhere. */
  predicate Transmits(msgs: seq<seq<Word>>, idle: nat, o: int, words: seq<Word>) {
    && msgs != [] && (forall i :: 0 <= i < |msgs| ==> WellFormed(msgs[i]))
    && -5 <= o <= 24 && (idle == 0 ==> o == 24)
    && OnlyTagged(words) == IsgpsTransport.Tags(OnLine(msgs, idle, o))
  }

  /** The receipts for a transmission behind any amount of idle line, with untagged bytes anywhere. */
  lemma TransmissionHolds(init: Decoder, msgs: seq<seq<Word>>, idle: nat, o: int, words: seq<Word>)
    requires IsInit(init)
    requires Transmits(msgs, idle, o, words)
    ensures Holds(false, Receive(init, words).1)
  {
    hide WellFormed, Receive, Due, Silence, Idle, MessageMarks, Firm, Holds, IsInit, OnlyTagged, IsgpsTransport.Tags,
         IsgpsTransport.Symbols, IsgpsTransport.Airs, Flatten, Heeded;
    InitInBounds(init);
    TransportRoundTrip(init, msgs, idle, o, words);
    var marks := MessageMarks(ZERO, msgs);
    FirmMessages(ZERO, msgs);
    HoldsSilence(idle, marks);
    HoldsDue(false, Silence(idle) + marks, o);
    HoldsHeeded(false, Receive(init, words).1);
  }

  // ---------- what must not stand before lock ----------

  /** The number of symbols up to the one that ends the first word of the first message. */
  function LockAt(idle: nat, o: int): nat
    requires -5 <= o
  {
    5 * idle + (o + 5) / 6 + 1
  }

  /** Until `wait` tagged bytes have come, and from there to the first tagged byte that is not the first
      letter of a greeting, no byte opens a frame of another protocol and no two letters of a greeting
      follow each other. */
  predicate Peaceful(wait: nat, bytes: seq<byte>)
    decreases |bytes|
  {
    bytes == [] ||
    (var left := if Tagged(AsWord(bytes[0])) && wait > 0 then wait - 1 else wait;
     && !Opens(bytes[0])
     && ((Tagged(AsWord(bytes[0])) && left == 0 && !Greets(bytes[0]))
         || ((Greets(bytes[0]) && |bytes| > 1 ==> bytes[1] != GoesOn(bytes[0])) && Peaceful(left, bytes[1..]))))
  }

  /** Lock comes with the `wait`-th receipt, and then stays. */
  predicate Awaits(wait: nat, receipts: seq<Receipt>)
    decreases |receipts|
  {
    receipts == [] ||
    (var status := receipts[0].status;
     if wait > 1 then status == NoSync && Awaits(wait - 1, receipts[1..])
     else (status == Sync || (wait == 0 && status == Message)) && Awaits(0, receipts[1..]))
  }

  lemma {:induction false} AwaitsFirm(marks: seq<Receipt>)
    requires Firm(marks)
    ensures Awaits(0, marks)
    decreases |marks|
  {
    if marks != [] {
      assert Firm(marks[1..]);
      AwaitsFirm(marks[1..]);
    }
  }

  lemma {:induction false} AwaitsMarks(locked: bool, marks: seq<Receipt>, o: int)
    requires -5 <= o <= 24 && Firm(marks) && (!locked && marks != [] ==> marks[0] == IN_SYNC)
    ensures Awaits(if locked then 0 else LockAt(0, o), Due(locked, marks, o))
    decreases |marks|, o + 6
  {
    if marks != [] {
      var due := Due(locked, marks, o);
      if o > 0 {
        AwaitsMarks(locked, marks, o - 6);
        assert due[1..] == Due(locked, marks, o - 6);
      } else {
        assert Firm(marks[1..]);
        AwaitsMarks(true, marks[1..], o + 24);
        assert due[1..] == Due(true, marks[1..], o + 24);
      }
    }
  }

  lemma {:induction false} AwaitsDue(n: nat, marks: seq<Receipt>, o: int)
    requires -5 <= o <= 24 && Firm(marks) && (marks != [] ==> marks[0] == IN_SYNC)
    ensures Awaits(LockAt(n, o), Due(false, Silence(n) + marks, o))
    decreases n, o + 6
  {
    hide Firm;
    var all := Silence(n) + marks;
    if n == 0 {
      assert all == marks;
      AwaitsMarks(false, marks, o);
    } else {
      var due := Due(false, all, o);
      if o > 0 {
        AwaitsDue(n, marks, o - 6);
        assert due[1..] == Due(false, all, o - 6);
      } else {
        AwaitsDue(n - 1, marks, o + 24);
        assert all[1..] == Silence(n - 1) + marks;
        assert due[1..] == Due(false, all[1..], o + 24);
      }
    }
  }

  lemma {:induction false} MarksBegin(prev: Word, msgs: seq<seq<Word>>)
    requires msgs != []
    requires forall i :: 0 <= i < |msgs| ==> WellFormed(msgs[i])
    requires forall i :: 0 <= i < |msgs| ==> msgs[i] != []
    ensures MessageMarks(prev, msgs) != [] && MessageMarks(prev, msgs)[0] == IN_SYNC
  {
    hide IsgpsTransport.Clears, LastAir, Preamble, FrameLength;
    assert |msgs[0]| >= 2;
    assert InSync(|msgs[0]| - 1)[0] == IN_SYNC;
  }

  /** The receipts for a transmission, but for those of untagged bytes. */
  lemma TransmissionAwaits(init: Decoder, msgs: seq<seq<Word>>, idle: nat, o: int, words: seq<Word>)
    requires IsInit(init) && Transmits(msgs, idle, o, words)
    ensures Awaits(LockAt(idle, o), Heeded(Receive(init, words).1))
  {
    hide WellFormed, Receive, Due, Silence, MessageMarks, Firm, IsInit, OnlyTagged, Heeded, Awaits, OnLine;
    InitInBounds(init);
    OnLineIs(msgs, idle, o);
    TransportRoundTrip(init, msgs, idle, o, words);
    WellFormedNotEmpty(msgs);
    FirmMessages(ZERO, msgs);
    MarksBegin(ZERO, msgs);
    AwaitsDue(idle, MessageMarks(ZERO, msgs), o);
  }

  lemma SkipIsUntagged(s: Decoder, c: byte)
    requires InBounds(s)
    ensures Step(s, AsWord(c)).1 == Skip <==> !Tagged(AsWord(c))
  {
    hide Absorb, Tagged, ReverseBits, AsWord;
    if Tagged(AsWord(c)) {
      AbsorbNeverSkips(s, ReverseBits(AsWord(c)));
    }
  }

  /** So the sender can tell that the stream is calm. */
  lemma {:induction false} PeacefulIsCalm(wait: nat, rtcm: Decoder, bytes: seq<byte>)
    requires InBounds(rtcm) && Peaceful(wait, bytes) && Awaits(wait, Heeded(Coming(rtcm, bytes)))
    ensures Calm(bytes, Coming(rtcm, bytes))
    decreases |bytes|
  {
    hide Step, Report, Opens, Greets, GoesOn, Tagged, AsWord, Coming, InBounds;
    if bytes != [] {
      var (t, status) := Step(rtcm, AsWord(bytes[0]));
      var receipts := Coming(rtcm, bytes);
      ComingNext(rtcm, bytes);
      SkipIsUntagged(rtcm, bytes[0]);
      ReportStatus(t, status);
      assert receipts[1..] == Coming(t, bytes[1..]);
      if status != Skip {
        assert Heeded(receipts)[1..] == Heeded(receipts[1..]);
      }
      if !Joins(bytes[0], status) {
        PeacefulIsCalm(if status != Skip && wait > 0 then wait - 1 else wait, t, bytes[1..]);
      }
    }
  }

  lemma ReportStatus(t: Decoder, status: Status)
    requires InBounds(t)
    ensures Report(t, status).status == status
  {}

  // ---------- the packets ----------

  /** From the transmitter to the packets. A lexer on the ground, its decoder fresh, reads any run of
      messages as the encoder sends them, from any bit of any amount of idle line on, with untagged bytes
      anywhere, none of which disturbs it before lock. Each message makes one piece of the stream, which
      ends with the byte that completes the message; the pieces for which the buffer has room, and no
      others, are handed over as RTCM packets, in order, each at the moment when the decoder's buffer
      holds all data bits of its message. */
  lemma StreamDelivered(l: Lexer, msgs: seq<seq<Word>>, idle: nat, o: int, bytes: seq<byte>)
    requires Stands(l, false) && IsInit(l.rtcm)
    requires Transmits(msgs, idle, o, Words(bytes)) && Peaceful(LockAt(idle, o), bytes)
    ensures
      var pieces := Pieces(false, [], bytes, Coming(l.rtcm, bytes));
      && |pieces| == |msgs| && (forall i :: 0 <= i < |msgs| ==> SameData(pieces[i].words, msgs[i]))
      && Trimmed(PickedUp(l, bytes)) == Fitting(pieces)
      && Run(l, bytes).1 == Packets(Fitting(pieces))
  {
    hide WellFormed, SameData, Receive, Packet.Safe, Words, Calm, Pieces, Holds, OnlyTagged, Idle, Flatten, IsInit, Level,
         IsgpsTransport.Tags, IsgpsTransport.Symbols, IsgpsTransport.Airs, Run, PickedUp, Trimmed, Packets, Messages, Fitting,
         Peaceful, Awaits, LockAt, Heeded;
    InitInBounds(l.rtcm);
    var receipts := Coming(l.rtcm, bytes);
    TransmissionHolds(l.rtcm, msgs, idle, o, Words(bytes));
    TransmissionAwaits(l.rtcm, msgs, idle, o, Words(bytes));
    PeacefulIsCalm(LockAt(idle, o), l.rtcm, bytes);
    StreamRun(l, false, false, bytes);
    PiecesMessages(false, [], bytes, receipts);
    MessagesRecovered(l.rtcm, msgs, idle, o, Words(bytes));
    MessagesHeeded(receipts);
    var pieces, sent := Pieces(false, [], bytes, receipts), Messages(receipts);
    forall i | 0 <= i < |msgs| ensures SameData(pieces[i].words, msgs[i]) {
      assert WordsOf(pieces)[i] == pieces[i].words;
    }
  }

  lemma InitInBounds(s: Decoder)
    requires IsInit(s)
    ensures InBounds(s)
  {}

  // ---------- how long the packets are ----------

  /** No stretch without a message, the first of them `run` bytes long already, outgrows the output buffer
      once the decoder has locked. */
  predicate Spaced(run: nat, receipts: seq<Receipt>)
    decreases |receipts|
  {
    receipts == [] ||
    (var status := receipts[0].status;
     if status == NoSync then Spaced(0, receipts[1..])
     else if status == Message then run + 1 < BUFFER_SIZE && Spaced(0, receipts[1..])
     else Spaced(run + 1, receipts[1..]))
  }

  lemma {:induction false} SpacedFits(
    run: nat, inside: bool, seen: seq<byte>, bytes: seq<byte>, receipts: seq<Receipt>, locked: bool)
    requires |bytes| == |receipts| && |seen| <= run && Spaced(run, receipts)
    requires Holds(locked, receipts) && (inside ==> locked) && (!inside ==> seen == [])
    ensures Fit(Pieces(inside, seen, bytes, receipts))
    decreases |bytes|
  {
    hide Greets;
    if bytes != [] {
      var frame, status := seen + [bytes[0]], receipts[0].status;
      var now := status == Message || inside || Joins(bytes[0], status);
      var kept := if status == Message || !now then [] else frame;
      var next := if status == Message || status == NoSync then 0 else run + 1;
      SpacedFits(next, now, kept, bytes[1..], receipts[1..], locked || status == Sync || status == Message);
    }
  }

  /** Every message, the first with `w` words in already, has at most as many words as the decoder holds. */
  predicate Sized(w: nat, marks: seq<Receipt>)
    decreases |marks|
  {
    marks == [] ||
    (if marks[0].status == Sync then w + 1 < RTCM_WORDS_MAX && Sized(w + 1, marks[1..])
     else w < RTCM_WORDS_MAX && Sized(0, marks[1..]))
  }

  /** Six bits to a byte, thirty to a word. */
  lemma {:induction false} SpacedDue(run: nat, w: nat, locked: bool, marks: seq<Receipt>, o: int)
    requires -5 <= o <= 24 && Sized(w, marks) && 6 * run + o <= 30 * w + 24
    requires forall i :: 0 <= i < |marks| ==> marks[i].status != Skip
    ensures Spaced(run, Due(locked, marks, o))
    decreases |marks|, o + 6
  {
    if marks != [] {
      var due := Due(locked, marks, o);
      if o > 0 {
        SpacedDue(if locked then run + 1 else 0, w, locked, marks, o - 6);
        assert due[1..] == Due(locked, marks, o - 6);
      } else {
        var next := marks[0].status != NoSync;
        var sync := marks[0].status == Sync;
        SpacedDue(if sync then run + 1 else 0, if sync then w + 1 else 0, next, marks[1..], o + 24);
        assert due[1..] == Due(next, marks[1..], o + 24);
      }
    }
  }

  lemma {:induction false} SizedInSync(w: nat, n: nat, r: Receipt, marks: seq<Receipt>)
    requires r.status == Message && w + n < RTCM_WORDS_MAX && Sized(0, marks)
    ensures Sized(w, InSync(n) + [r] + marks)
    decreases n
  {
    var all := InSync(n) + [r] + marks;
    if n == 0 {
      assert all[0] == r && all[1..] == marks;
    } else {
      SizedInSync(w + 1, n - 1, r, marks);
      assert all[0] == IN_SYNC && all[1..] == InSync(n - 1) + [r] + marks;
    }
  }

  lemma {:induction false} SizedMessages(prev: Word, msgs: seq<seq<Word>>)
    requires forall i :: 0 <= i < |msgs| ==> msgs[i] != []
    requires forall i :: 0 <= i < |msgs| ==> WellFormed(msgs[i])
    ensures Sized(0, MessageMarks(prev, msgs))
    decreases |msgs|
  {
    hide IsgpsTransport.Clears, LastAir, Preamble, FrameLength;
    if msgs != [] {
      var m := msgs[0];
      SizedMessages(LastAir(prev, m), msgs[1..]);
      SizedInSync(0, |m| - 1, Receipt(Message, IsgpsTransport.Clears(prev, m)), MessageMarks(LastAir(prev, m), msgs[1..]));
    }
  }

  lemma {:induction false} SizedSilence(n: nat, marks: seq<Receipt>)
    requires Sized(0, marks)
    ensures Sized(0, Silence(n) + marks)
  {
    if n == 0 {
      assert Silence(n) + marks == marks;
    } else {
      SizedSilence(n - 1, marks);
      assert (Silence(n) + marks)[1..] == Silence(n - 1) + marks;
    }
  }

  lemma {:induction false} AllHeeded(receipts: seq<Receipt>)
    requires |Heeded(receipts)| == |receipts|
    ensures Heeded(receipts) == receipts
    decreases |receipts|
  {
    if receipts != [] {
      HeededShorter(receipts[1..]);
      AllHeeded(receipts[1..]);
    }
  }

  lemma {:induction false} HeededShorter(receipts: seq<Receipt>)
    ensures |Heeded(receipts)| <= |receipts|
    decreases |receipts|
  {
    if receipts != [] {
      HeededShorter(receipts[1..]);
    }
  }

  lemma CleanReceipts(init: Decoder, msgs: seq<seq<Word>>, idle: nat, o: int, words: seq<Word>)
    requires IsInit(init) && Transmits(msgs, idle, o, words) && |words| == |OnLine(msgs, idle, o)|
    ensures InBounds(init) && -5 <= o <= 24
    ensures forall i :: 0 <= i < |msgs| ==> WellFormed(msgs[i]) && msgs[i] != []
    ensures Receive(init, words).1 == Due(false, Silence(idle) + MessageMarks(ZERO, msgs), o)
  {
    hide Receive, Due, MessageMarks, Silence, OnLine, Heeded, OnlyTagged, WellFormed, IsInit;
    InitInBounds(init);
    assert |OnlyTagged(words)| == |words|;
    UntaggedBytesIgnored(init, words);
    AllHeeded(Receive(init, words).1);
    OnLineIs(msgs, idle, o);
    TransportRoundTrip(init, msgs, idle, o, words);
  }

  lemma OnLineIs(msgs: seq<seq<Word>>, idle: nat, o: int)
    requires -5 <= o <= 24
    ensures OnLine(msgs, idle, o) == IsgpsTransport.Symbols(Idle(idle) + IsgpsTransport.Airs(ZERO, Flatten(msgs)), o)
  {}

  lemma SpacedTransmission(idle: nat, msgs: seq<seq<Word>>, o: int)
    requires -5 <= o <= 24 && forall i :: 0 <= i < |msgs| ==> WellFormed(msgs[i])
    ensures forall i :: 0 <= i < |msgs| ==> msgs[i] != []
    ensures Spaced(0, Due(false, Silence(idle) + MessageMarks(ZERO, msgs), o))
  {
    hide Due, MessageMarks, Silence, WellFormed, Spaced, Sized, Holds, Firm;
    WellFormedNotEmpty(msgs);
    var marks := MessageMarks(ZERO, msgs);
    FirmMessages(ZERO, msgs);
    HoldsSilence(idle, marks);
    SizedMessages(ZERO, msgs);
    SizedSilence(idle, marks);
    SpacedDue(0, 0, false, Silence(idle) + marks, o);
  }

  lemma ComingIs(rtcm: Decoder, bytes: seq<byte>)
    requires InBounds(rtcm)
    ensures Coming(rtcm, bytes) == Receive(rtcm, Words(bytes)).1
  {}

  /** Nothing but the transmission itself: every packet fits. */
  lemma CleanStreamFits(rtcm: Decoder, msgs: seq<seq<Word>>, idle: nat, o: int, bytes: seq<byte>)
    requires IsInit(rtcm) && Transmits(msgs, idle, o, Words(bytes)) && |bytes| == |OnLine(msgs, idle, o)|
    ensures InBounds(rtcm) && Fit(Pieces(false, [], bytes, Coming(rtcm, bytes)))
  {
    hide *;
    CleanReceipts(rtcm, msgs, idle, o, Words(bytes));
    SpacedTransmission(idle, msgs, o);
    TransmissionHolds(rtcm, msgs, idle, o, Words(bytes));
    var receipts := Coming(rtcm, bytes);
    ComingIs(rtcm, bytes);
    SpacedFits(0, false, [], bytes, receipts, false);
  }

  /** Nothing but the transmission itself, undisturbed before lock: one packet for each message. */
  lemma CleanStreamDelivered(l: Lexer, msgs: seq<seq<Word>>, idle: nat, o: int, bytes: seq<byte>)
    requires Stands(l, false) && IsInit(l.rtcm)
    requires Transmits(msgs, idle, o, Words(bytes)) && |bytes| == |OnLine(msgs, idle, o)|
    requires Peaceful(LockAt(idle, o), bytes)
    ensures
      var got := Trimmed(PickedUp(l, bytes));
      && Run(l, bytes).1 == Packets(got)
      && |got| == |msgs| && forall i :: 0 <= i < |msgs| ==> SameData(got[i].words, msgs[i])
  {
    hide *;
    StreamDelivered(l, msgs, idle, o, bytes);
    CleanStreamFits(l.rtcm, msgs, idle, o, bytes);
    var pieces := Pieces(false, [], bytes, Coming(l.rtcm, bytes));
    FittingAll(pieces);
  }

  lemma FittingAll(pieces: seq<Piece>)
    requires Fit(pieces)
    ensures Fitting(pieces) == pieces
  {
    AllKept(pieces, pieces);
  }
}
