/** Corrections from a beacon's message to a receiver's: what rtcm_unpack reads from the decoder's buffer
    when the lexer hands over an RTCM packet is what it would have read at the transmitter. */
module RtcmBeacon {
  import opened Bytes
  import opened BitFields
  import opened RtcmFields
  import opened Rtcm
  import opened RtcmCodec
  import opened IsgpsWord
  import opened RtcmHooks
  import opened RtcmStream
  import opened RtcmDelivery
  import Isgps
  import IsgpsRoundTrip
  import Packet

  // ---------- what unpacking depends on ----------

  /** Two words with the same data bits, whatever their parity. */
  predicate SameBits(a: Bits, b: Bits) { a[6..30] == b[6..30] }

  predicate Agree(a: seq<Bits>, b: seq<Bits>, n: nat) {
    n <= |a| && n <= |b| && forall j :: 0 <= j < n ==> SameBits(a[j], b[j])
  }

  predicate InData(l: Loc) { 0 < l.width && 6 <= l.off && l.off + l.width <= 30 }

  lemma GetAgrees(a: seq<Bits>, b: seq<Bits>, n: nat, l: Loc)
    requires Agree(a, b, n) && l.word < n && InData(l)
    ensures InWord(l) && Get(a, l) == Get(b, l)
  {
    hide Number;
    var v, w := a[l.word], b[l.word];
    assert SameBits(v, w);
    forall i | l.off <= i < l.off + l.width ensures v[i] == w[i] {
      assert v[6..30][i - 6] == v[i] && w[6..30][i - 6] == w[i];
    }
    assert v[l.off..l.off + l.width] == w[l.off..l.off + l.width];
  }

  lemma HeaderAgrees(a: seq<Bits>, b: seq<Bits>, n: nat)
    requires Agree(a, b, n) && n >= 2
    ensures ReadHeader(a) == ReadHeader(b)
  {
    hide Get, Agree;
    assert |a| >= 2 && |b| >= 2 by { AgreeLong(a, b, n); }
    GetAgrees(a, b, n, MSGTYPE);
    GetAgrees(a, b, n, FRMLEN);
    GetAgrees(a, b, n, ZCNT);
    GetAgrees(a, b, n, REFSTAID);
    GetAgrees(a, b, n, SQNUM);
    GetAgrees(a, b, n, STATHLTH);
  }

  lemma AgreeLong(a: seq<Bits>, b: seq<Bits>, n: nat)
    requires Agree(a, b, n)
    ensures |a| >= n && |b| >= n
  {}

  /** The last word that holds a field of a satellite. */
  function LastWord(g: nat, p: nat): nat
    requires p < 3
  {
    GroupWord(g) + if p == 0 then 1 else if p == 1 then 3 else 4
  }

  lemma SatAgrees(a: seq<Bits>, b: seq<Bits>, n: nat, g: nat, p: nat)
    requires p < 3 && Agree(a, b, n) && LastWord(g, p) < n
    requires GroupWord(g) + 5 <= |a| && GroupWord(g) + 5 <= |b|
    ensures ReadSat(a, g, p) == ReadSat(b, g, p)
  {
    hide Get, Agree, Signed;
    GetAgrees(a, b, n, Ident(g, p));
    GetAgrees(a, b, n, Udre(g, p));
    GetAgrees(a, b, n, IssueData(g, p));
    GetAgrees(a, b, n, Scale(g, p));
    GetAgrees(a, b, n, RangeRate(g, p));
    GetAgrees(a, b, n, Correction(g, p)[0]);
    if p == 2 {
      GetAgrees(a, b, n, Correction(g, p)[1]);
    }
  }

  lemma SatWithin(len: nat, k: nat)
    requires k < SatCount(len)
    ensures LastWord(k / 3, k % 3) < len + 2
  {}

  lemma SatsAgree(a: seq<Bits>, b: seq<Bits>, len: nat)
    requires |a| == |b| == RTCM_WORDS_MAX && len < 32 && Agree(a, b, len + 2)
    ensures Sats(a, SatCount(len)) == Sats(b, SatCount(len))
  {
    hide ReadSat, Agree;
    forall k | 0 <= k < SatCount(len) ensures SatOf(a, k) == SatOf(b, k) {
      SatWithin(len, k);
      SatAgrees(a, b, len + 2, k / 3, k % 3);
    }
  }

  lemma EcefAgrees(a: seq<Bits>, b: seq<Bits>, n: nat)
    requires Agree(a, b, n) && n >= 6
    ensures ReadEcef(a) == ReadEcef(b)
  {
    AgreeLong(a, b, n);
    hide Get, Agree, Wrap32;
    GetAgrees(a, b, n, X_H);
    GetAgrees(a, b, n, X_L);
    GetAgrees(a, b, n, Y_H);
    GetAgrees(a, b, n, Y_L);
    GetAgrees(a, b, n, Z_H);
    GetAgrees(a, b, n, Z_L);
  }

  lemma ConsatAgrees(a: seq<Bits>, b: seq<Bits>, n: nat, k: nat)
    requires Agree(a, b, n) && k + 2 < n
    ensures k + 3 <= |a| && k + 3 <= |b| && ReadConsat(a, k) == ReadConsat(b, k)
  {
    AgreeLong(a, b, n);
    hide Get, Agree;
    var f := HealthFields(k);
    forall i | 0 <= i < 8 ensures Get(a, f[i]) == Get(b, f[i]) {
      GetAgrees(a, b, n, f[i]);
    }
  }

  lemma ConsatsAgree(a: seq<Bits>, b: seq<Bits>, len: nat)
    requires |a| == |b| == RTCM_WORDS_MAX && len < 32 && Agree(a, b, len + 2)
    ensures Consats(a, len) == Consats(b, len)
  {
    hide ReadConsat, Agree;
    forall k | 0 <= k < len ensures ReadConsat(a, k) == ReadConsat(b, k) {
      ConsatAgrees(a, b, len + 2, k);
    }
  }

  lemma {:induction false} TextAgrees(a: seq<Bits>, b: seq<Bits>, k: nat, len: nat)
    requires |a| == |b| == RTCM_WORDS_MAX && len < 32 && Agree(a, b, len + 2) && k <= 3 * len
    ensures TextFrom(a, k, 3 * len) == TextFrom(b, k, 3 * len)
    decreases 3 * len - k
  {
    hide Get, Agree;
    if k < 3 * len {
      GetAgrees(a, b, len + 2, TextByte(k));
      TextAgrees(a, b, k + 1, len);
    }
  }

  /** The message types whose fields rtcm_unpack reads one by one. */
  predicate Fielded(kind: nat) { kind == 1 || kind == 9 || kind == 3 || kind == 5 || kind == 16 }

  /** rtcm_unpack reads nothing but data bits, and no word that the length does not announce. */
  lemma UnpackReadsMessage(a: seq<Bits>, b: seq<Bits>)
    requires |a| == |b| == RTCM_WORDS_MAX && Fielded(ReadHeader(a).kind)
    requires Agree(a, b, ReadHeader(a).length + 2)
    ensures Unpacked(a) == Unpacked(b)
  {
    hide Get, Agree, SatCount, Sats, Consats, ReadEcef, TextFrom;
    var len := ReadHeader(a).length;
    HeaderAgrees(a, b, len + 2);
    LengthBound(a);
    SatsAgree(a, b, len);
    ConsatsAgree(a, b, len);
    TextAgrees(a, b, 0, len);
    if len >= 4 {
      EcefAgrees(a, b, len + 2);
    }
  }

  // ---------- from the decoder's words to bits ----------

  lemma BitKept(v: Word, w: Word, m: bv32)
    requires Data(v) == Data(w) && m & 0x3fffffc0 == m
    ensures v.bits & m == w.bits & m
  {
    assert v.bits & m == (v.bits & 0x3fffffc0) & m && w.bits & m == (w.bits & 0x3fffffc0) & m;
  }

  lemma Octets03Kept(v: Word, w: Word)
    requires Data(v) == Data(w)
    ensures Octet0(v)[6] == Octet0(w)[6] && Octet0(v)[7] == Octet0(w)[7]
    ensures forall i :: 0 <= i < 6 ==> Octet3(v)[i] == Octet3(w)[i]
  {
    hide Data;
    BitKept(v, w, 0x40);
    BitKept(v, w, 0x80);
    BitKept(v, w, 0x1000000);
    BitKept(v, w, 0x2000000);
    BitKept(v, w, 0x4000000);
    BitKept(v, w, 0x8000000);
    BitKept(v, w, 0x10000000);
    BitKept(v, w, 0x20000000);
  }

  lemma Octet1Kept(v: Word, w: Word)
    requires Data(v) == Data(w)
    ensures Octet1(v) == Octet1(w)
  {
    hide Data;
    BitKept(v, w, 0x100);
    BitKept(v, w, 0x200);
    BitKept(v, w, 0x400);
    BitKept(v, w, 0x800);
    BitKept(v, w, 0x1000);
    BitKept(v, w, 0x2000);
    BitKept(v, w, 0x4000);
    BitKept(v, w, 0x8000);
  }

  lemma Octet2Kept(v: Word, w: Word)
    requires Data(v) == Data(w)
    ensures Octet2(v) == Octet2(w)
  {
    hide Data;
    BitKept(v, w, 0x10000);
    BitKept(v, w, 0x20000);
    BitKept(v, w, 0x40000);
    BitKept(v, w, 0x80000);
    BitKept(v, w, 0x100000);
    BitKept(v, w, 0x200000);
    BitKept(v, w, 0x400000);
    BitKept(v, w, 0x800000);
  }

  lemma DataBits(v: Word, w: Word)
    requires Data(v) == Data(w)
    ensures SameBits(BitsOf(v), BitsOf(w))
  {
    Octets03Kept(v, w);
    Octet1Kept(v, w);
    Octet2Kept(v, w);
    hide Octet0, Octet1, Octet2, Octet3, Data;
    var b, c := BitsOf(v), BitsOf(w);
    assert b[6..8] == Octet0(v)[6..8] && c[6..8] == Octet0(w)[6..8];
    OctetsAre(v);
    OctetsAre(w);
    forall i | 6 <= i < 30 ensures b[i] == c[i] {
      if i < 8 {
        assert i == 6 || i == 7;
      } else if i < 16 {
        assert b[8..16][i - 8] == c[8..16][i - 8];
      } else if i < 24 {
        assert b[16..24][i - 16] == c[16..24][i - 16];
      } else {
        assert b[24..32][i - 24] == c[24..32][i - 24];
      }
    }
  }

  /** The decoder's buffer as rtcm_unpack sees it. */
  function AsBits(buffer: seq<Word>): (r: seq<Bits>)
    ensures |r| == |buffer|
  {
    seq(|buffer|, i requires 0 <= i < |buffer| => BitsOf(buffer[i]))
  }

  // ---------- the whole way ----------

  /** `m` are the words of the message in the transmitter's buffer `ws`, as many as its length calls for. */
  predicate MessageOf(m: seq<Word>, ws: seq<Bits>) {
    |ws| == RTCM_WORDS_MAX && |m| == ReadHeader(ws).length + 2 && forall j :: 0 <= j < |m| ==> SameBits(BitsOf(m[j]), ws[j])
  }

  lemma UnpacksAlike(buffer: seq<Word>, m: seq<Word>, ws: seq<Bits>)
    requires |buffer| == RTCM_WORDS_MAX && IsgpsRoundTrip.SameData(AtHead(buffer), m)
    requires MessageSent(m, ws)
    ensures |ws| == RTCM_WORDS_MAX && Unpacked(AsBits(buffer)) == Unpacked(ws)
  {
    hide BitsOf, Data, Unpacked, SameBits, ReadHeader, Isgps.FrameLength;
    var got := AsBits(buffer);
    forall j | 0 <= j < |m| ensures SameBits(ws[j], got[j]) {
      assert AtHead(buffer)[j] == buffer[j];
      DataBits(buffer[j], m[j]);
      SameBitsJoin(ws[j], BitsOf(m[j]), got[j]);
    }
    UnpackReadsMessage(ws, got);
  }

  lemma SameBitsJoin(a: Bits, b: Bits, c: Bits)
    requires SameBits(b, a) && SameBits(c, b)
    ensures SameBits(a, c)
  {}

  /** The messages in the transmitter's buffers, of types 1, 3, 5, 9 and 16. */
  predicate Sent(msgs: seq<seq<Word>>, buffers: seq<seq<Bits>>) {
    |msgs| == |buffers| && forall i :: 0 <= i < |buffers| ==> MessageSent(msgs[i], buffers[i])
  }

  predicate MessageSent(m: seq<Word>, ws: seq<Bits>) {
    MessageOf(m, ws) && Fielded(ReadHeader(ws).kind)
  }

  /** From the decoder's buffer, at each packet, rtcm_unpack reads what it would read at the transmitter. */
  predicate ReadAlike(got: seq<Pickup>, buffers: seq<seq<Bits>>) {
    |got| == |buffers| &&
    forall i :: 0 <= i < |buffers| ==>
      && |got[i].buffer| == RTCM_WORDS_MAX && |buffers[i]| == RTCM_WORDS_MAX
      && Unpacked(AsBits(got[i].buffer)) == Unpacked(buffers[i])
  }

  /** The pieces of the stream carry the messages. */
  predicate Carry(pieces: seq<Piece>, msgs: seq<seq<Word>>) {
    |pieces| == |msgs| && forall i :: 0 <= i < |msgs| ==> IsgpsRoundTrip.SameData(pieces[i].words, msgs[i])
  }

  lemma CarryRest(pieces: seq<Piece>, msgs: seq<seq<Word>>, buffers: seq<seq<Bits>>)
    requires Carry(pieces, msgs) && Sent(msgs, buffers) && pieces != []
    ensures Carry(pieces[1..], msgs[1..]) && Sent(msgs[1..], buffers[1..])
    ensures IsgpsRoundTrip.SameData(pieces[0].words, msgs[0]) && MessageSent(msgs[0], buffers[0])
  {
    hide IsgpsRoundTrip.SameData, MessageSent;
    forall i | 0 <= i < |msgs[1..]|
      ensures IsgpsRoundTrip.SameData(pieces[1..][i].words, msgs[1..][i]) && MessageSent(msgs[1..][i], buffers[1..][i])
    {
      assert IsgpsRoundTrip.SameData(pieces[i + 1].words, msgs[i + 1]) && MessageSent(msgs[i + 1], buffers[i + 1]);
    }
  }

  lemma {:induction false} KeptReadAlike(got: seq<Pickup>, pieces: seq<Piece>, msgs: seq<seq<Word>>, buffers: seq<seq<Bits>>)
    requires forall i :: 0 <= i < |got| ==> |got[i].buffer| == RTCM_WORDS_MAX
    requires Sent(msgs, buffers) && Carry(pieces, msgs) && Trimmed(got) == Fitting(pieces)
    ensures |pieces| == |buffers| && ReadAlike(got, Kept(pieces, buffers))
    decreases |pieces|
  {
    hide IsgpsRoundTrip.SameData, Unpacked, MessageSent, AsBits, AtHead, HasRoom, Trimmed, ReadAlike;
    SameLength(pieces, msgs, buffers);
    if pieces == [] {
      NothingRead(got);
    } else {
      CarryRest(pieces, msgs, buffers);
      hide Carry, Sent;
      var later := Kept(pieces[1..], buffers[1..]);
      if HasRoom(pieces[0]) {
        FirstKept(pieces);
        assert got != [];
        NextTrimmed(got);
        var buffer := got[0].buffer;
        SameStart(Piece(got[0].bytes, AtHead(buffer)), Trimmed(got[1..]), pieces[0], Fitting(pieces[1..]));
        UnpacksAlike(buffer, msgs[0], buffers[0]);
        KeptReadAlike(got[1..], pieces[1..], msgs[1..], buffers[1..]);
        FirstReadAlike(got, buffers[0], later);
      } else {
        assert [] + later == later;
        assert Fitting(pieces) == Fitting(pieces[1..]);
        KeptReadAlike(got, pieces[1..], msgs[1..], buffers[1..]);
      }
    }
  }

  lemma NothingRead(got: seq<Pickup>)
    requires forall i :: 0 <= i < |got| ==> |got[i].buffer| == RTCM_WORDS_MAX
    requires Trimmed(got) == []
    ensures ReadAlike(got, [])
  {}

  lemma FirstKept(pieces: seq<Piece>)
    requires pieces != [] && HasRoom(pieces[0])
    ensures Fitting(pieces) == [pieces[0]] + Fitting(pieces[1..])
  {}

  lemma NextTrimmed(got: seq<Pickup>)
    requires got != [] && forall i :: 0 <= i < |got| ==> |got[i].buffer| == RTCM_WORDS_MAX
    ensures Trimmed(got) == [Piece(got[0].bytes, AtHead(got[0].buffer))] + Trimmed(got[1..])
  {
    hide AtHead;
  }

  lemma SameStart(p: Piece, rest: seq<Piece>, q: Piece, later: seq<Piece>)
    requires [p] + rest == [q] + later
    ensures p == q && rest == later
  {
    assert ([p] + rest)[0] == ([q] + later)[0] && ([p] + rest)[1..] == ([q] + later)[1..];
  }

  lemma FirstReadAlike(got: seq<Pickup>, buffer: seq<Bits>, later: seq<seq<Bits>>)
    requires got != [] && ReadAlike(got[1..], later)
    requires |got[0].buffer| == RTCM_WORDS_MAX && |buffer| == RTCM_WORDS_MAX && Unpacked(AsBits(got[0].buffer)) == Unpacked(buffer)
    ensures ReadAlike(got, [buffer] + later)
  {
    hide Unpacked, AsBits;
    var all := [buffer] + later;
    forall i | 0 <= i < |all|
      ensures |got[i].buffer| == RTCM_WORDS_MAX && |all[i]| == RTCM_WORDS_MAX && Unpacked(AsBits(got[i].buffer)) == Unpacked(all[i])
    {
      if i > 0 {
        assert got[i] == got[1..][i - 1] && all[i] == later[i - 1];
      }
    }
  }

  /** The whole way. Messages in the transmitter's buffers, encoded in one pass and sent behind any amount
      of idle line, with untagged bytes anywhere, none of which disturbs the lexer before lock: it hands
      over one packet for each message for which its buffer has room, and what rtcm_unpack then finds in
      the decoder's buffer is what it finds in the transmitter's. */
  lemma BeaconReceived(l: Packet.Lexer, buffers: seq<seq<Bits>>, msgs: seq<seq<Word>>, idle: nat, o: int, bytes: seq<byte>)
    requires Stands(l, false) && Isgps.IsInit(l.rtcm)
    requires Sent(msgs, buffers) && Transmits(msgs, idle, o, Words(bytes)) && Peaceful(LockAt(idle, o), bytes)
    ensures
      var pieces := Pieces(false, [], bytes, Coming(l.rtcm, bytes));
      Carry(pieces, msgs) && ReadAlike(PickedUp(l, bytes), Kept(pieces, buffers))
  {
    hide Transmits, IsgpsRoundTrip.SameData, Unpacked, MessageSent, AsBits, PickedUp, Trimmed, Kept, Fitting,
         Packet.Run, Packet.Safe, Peaceful, LockAt, Pieces, Coming, Words, Packets, Isgps.IsInit, Isgps.InBounds;
    InitInBounds(l.rtcm);
    StreamDelivered(l, msgs, idle, o, bytes);
    KeptReadAlike(PickedUp(l, bytes), Pieces(false, [], bytes, Coming(l.rtcm, bytes)), msgs, buffers);
  }

  /** With nothing but the transmission on the line: one packet for each message, read as it was sent. */
  lemma CleanBeaconReceived(l: Packet.Lexer, buffers: seq<seq<Bits>>, msgs: seq<seq<Word>>, idle: nat, o: int, bytes: seq<byte>)
    requires Stands(l, false) && Isgps.IsInit(l.rtcm)
    requires Sent(msgs, buffers) && Transmits(msgs, idle, o, Words(bytes)) && |bytes| == |OnLine(msgs, idle, o)|
    requires Peaceful(LockAt(idle, o), bytes)
    ensures ReadAlike(PickedUp(l, bytes), buffers)
  {
    hide *;
    BeaconReceived(l, buffers, msgs, idle, o, bytes);
    CleanStreamFits(l.rtcm, msgs, idle, o, bytes);
    var pieces := Pieces(false, [], bytes, Coming(l.rtcm, bytes));
    SameLength(pieces, msgs, buffers);
    AllKept(pieces, buffers);
  }

  lemma SameLength(pieces: seq<Piece>, msgs: seq<seq<Word>>, buffers: seq<seq<Bits>>)
    requires Carry(pieces, msgs) && Sent(msgs, buffers)
    ensures |pieces| == |buffers|
  {}
}
