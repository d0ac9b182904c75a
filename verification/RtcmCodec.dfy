/** The methods rtcm_unpack and rtcm_repack, and what repacking a message keeps of it. */
module RtcmCodec {
  import opened Bytes
  import opened BitFields
  import opened RtcmFields
  import opened Rtcm

  // ---------- text ----------

  /** The bytes a text message has room for. */
  const TEXT_MAX: nat := 93

  function TextAt(ws: seq<Bits>, k: nat): byte
    requires |ws| == RTCM_WORDS_MAX && k < TEXT_MAX
  {
    GetBound(ws, TextByte(k));
    Widths();
    Get(ws, TextByte(k))
  }

  /** The bytes from `k` on, up to the first zero or the limit. */
  function TextFrom(ws: seq<Bits>, k: nat, limit: nat): seq<byte>
    requires |ws| == RTCM_WORDS_MAX && k <= limit <= TEXT_MAX
    decreases limit - k
  {
    if k == limit || TextAt(ws, k) == 0 then [] else [TextAt(ws, k)] + TextFrom(ws, k + 1, limit)
  }

  function PutText(ws: seq<Bits>, t: seq<byte>): (r: seq<Bits>)
    requires |ws| == RTCM_WORDS_MAX && |t| <= TEXT_MAX
    ensures |r| == |ws|
    decreases |t|
  {
    if t == [] then ws else Put(PutText(ws, t[..|t| - 1]), TextByte(|t| - 1), t[|t| - 1])
  }

  lemma {:induction false} PutTextRead(ws: seq<Bits>, t: seq<byte>, k: nat)
    requires |ws| == RTCM_WORDS_MAX && |t| <= TEXT_MAX && k < TEXT_MAX
    ensures TextAt(PutText(ws, t), k) == if k < |t| then t[k] else TextAt(ws, k)
    decreases |t|
  {
    hide Get, Put, Pow2, TextByte;
    if t != [] {
      var n := |t| - 1;
      var before := PutText(ws, t[..n]);
      if k == n {
        TextPut(before, n, t[n]);
      } else {
        TextPutOther(before, n, t[n], k);
        PutTextRead(ws, t[..n], k);
      }
    }
  }

  lemma TextPut(ws: seq<Bits>, n: nat, c: byte)
    requires |ws| == RTCM_WORDS_MAX && n < TEXT_MAX
    ensures TextAt(Put(ws, TextByte(n), c), n) == c
  {
    hide Get, Put, Pow2, TextByte;
    TextWidth(n);
    Widths();
    GetPut(ws, TextByte(n), c);
  }

  lemma TextWidth(n: nat)
    requires n < TEXT_MAX
    ensures var l := TextByte(n); l.word < RTCM_WORDS_MAX && InWord(l) && l.width == 8
  {}

  lemma TextPutOther(ws: seq<Bits>, n: nat, c: byte, k: nat)
    requires |ws| == RTCM_WORDS_MAX && n < TEXT_MAX && k < TEXT_MAX && n != k
    ensures TextAt(Put(ws, TextByte(n), c), k) == TextAt(ws, k)
  {
    hide Get, Put, Pow2;
    TextGood(n, k);
    GetPutOther(ws, TextByte(n), c, TextByte(k));
  }

  lemma {:induction false} PutTextKeepsHead(ws: seq<Bits>, t: seq<byte>)
    requires |ws| == RTCM_WORDS_MAX && |t| <= TEXT_MAX
    ensures SameHead(ws, PutText(ws, t))
    decreases |t|
  {
    if t != [] {
      PutTextKeepsHead(ws, t[..|t| - 1]);
    }
  }

  /** Bytes that are not zero are read one after the other. */
  lemma {:induction false} TextFromIs(ws: seq<Bits>, k: nat, limit: nat, t: seq<byte>)
    requires |ws| == RTCM_WORDS_MAX && k + |t| <= limit <= TEXT_MAX
    requires forall j :: 0 <= j < |t| ==> t[j] != 0 && TextAt(ws, k + j) == t[j]
    ensures TextFrom(ws, k, limit) == t + TextFrom(ws, k + |t|, limit)
    decreases |t|
  {
    hide TextAt;
    if t == [] {
      assert t + TextFrom(ws, k, limit) == TextFrom(ws, k, limit);
    } else {
      assert TextAt(ws, k + 0) == t[0];
      forall j | 0 <= j < |t| - 1 ensures t[1..][j] != 0 && TextAt(ws, k + 1 + j) == t[1..][j] {
        assert TextAt(ws, k + (j + 1)) == t[j + 1];
      }
      TextFromIs(ws, k + 1, limit, t[1..]);
      assert t == [t[0]] + t[1..];
    }
  }

  /** The words of a text message once `t` has been repacked. */
  function TextPacked(ws: seq<Bits>, t: seq<byte>): (r: seq<Bits>)
    requires |ws| == RTCM_WORDS_MAX && |t| <= TEXT_MAX
    ensures |r| == |ws|
  {
    Put(PutText(ws, t), FRMLEN, |t| / 3 + 1)
  }

  function TextOf(ws: seq<Bits>): seq<byte>
    requires |ws| == RTCM_WORDS_MAX
  {
    LengthBound(ws);
    TextFrom(ws, 0, 3 * Get(ws, FRMLEN))
  }

  lemma LengthBound(ws: seq<Bits>)
    requires |ws| >= 2
    ensures Get(ws, FRMLEN) < 32
  {
    GetBound(ws, FRMLEN);
    Widths();
  }

  lemma LengthPut(ws: seq<Bits>, t: seq<byte>)
    requires |ws| == RTCM_WORDS_MAX && |t| <= TEXT_MAX
    ensures Get(TextPacked(ws, t), FRMLEN) == (|t| / 3 + 1) % 32
    ensures forall k :: 0 <= k < TEXT_MAX ==> TextAt(TextPacked(ws, t), k) == if k < |t| then t[k] else TextAt(ws, k)
  {
    var before := PutText(ws, t);
    Widths();
    GetPut(before, FRMLEN, |t| / 3 + 1);
    hide Get, Put, Pow2;
    forall k | 0 <= k < TEXT_MAX ensures TextAt(TextPacked(ws, t), k) == if k < |t| then t[k] else TextAt(ws, k) {
      PutTextRead(ws, t, k);
      GetPutOther(before, FRMLEN, |t| / 3 + 1, TextByte(k));
    }
  }

  /** A text comes back exactly if it has at most 92 bytes, none of them zero, and the byte behind it in
      the buffer is zero: the length that 93 bytes call for does not fit its field. */
  lemma TextSurvives(ws: seq<Bits>, t: seq<byte>)
    requires |ws| == RTCM_WORDS_MAX && |t| <= TEXT_MAX && forall j :: 0 <= j < |t| ==> t[j] != 0
    ensures TextOf(TextPacked(ws, t)) == t <==> |t| < TEXT_MAX && TextAt(ws, |t|) == 0
  {
    hide TextPacked, TextAt, Get, Pow2, TextFrom;
    LengthPut(ws, t);
    var r := TextPacked(ws, t);
    LengthBound(r);
    if |t| < TEXT_MAX {
      LengthHolds(|t|);
      TextStops(r, 3 * (|t| / 3 + 1), t);
    } else {
      assert Get(r, FRMLEN) == 0;
      assert TextFrom(r, 0, 0) == [] by { TextNothing(r); }
    }
  }

  lemma TextNothing(ws: seq<Bits>)
    requires |ws| == RTCM_WORDS_MAX
    ensures TextFrom(ws, 0, 0) == []
  {}

  lemma LengthHolds(n: nat)
    requires n < TEXT_MAX
    ensures (n / 3 + 1) % 32 == n / 3 + 1 && n < 3 * (n / 3 + 1) <= TEXT_MAX
  {}

  lemma TextStops(ws: seq<Bits>, limit: nat, t: seq<byte>)
    requires |ws| == RTCM_WORDS_MAX && |t| < limit <= TEXT_MAX
    requires forall j :: 0 <= j < |t| ==> t[j] != 0 && TextAt(ws, j) == t[j]
    ensures TextFrom(ws, 0, limit) == t <==> TextAt(ws, |t|) == 0
  {
    hide TextAt;
    TextFromIs(ws, 0, limit, t);
    var rest := TextFrom(ws, |t|, limit);
    assert rest == [] <==> TextAt(ws, |t|) == 0;
    assert |t + rest| == |t| + |rest| && t + [] == t;
  }

  // ---------- messages ----------

  datatype Body =
    | Corrections(sats: seq<Sat>)
    | Station(ecef: Option<(int, int, int)>)
    | Constellation(consats: seq<Consat>)
    | Text(text: seq<byte>)
    | Raw(words: seq<Bits>)

  datatype Content = Content(header: Header, body: Body)

  /** The message types of this model. */
  predicate Modelled(kind: nat) { kind != 4 && kind != 7 }

  function UnpackedBody(ws: seq<Bits>, h: Header): Body
    requires |ws| == RTCM_WORDS_MAX && h == ReadHeader(ws)
  {
    LengthBound(ws);
    if h.kind == 1 || h.kind == 9 then Corrections(Sats(ws, SatCount(h.length)))
    else if h.kind == 3 then Station(if h.length >= 4 then Some(ReadEcef(ws)) else None)
    else if h.kind == 5 then Constellation(Consats(ws, h.length))
    else if h.kind == 16 then Text(TextOf(ws))
    else Raw(ws[2..])
  }

  /** What rtcm_unpack makes of a buffer. */
  function Unpacked(ws: seq<Bits>): Content
    requires |ws| == RTCM_WORDS_MAX
  {
    Content(ReadHeader(ws), UnpackedBody(ws, ReadHeader(ws)))
  }

  /** A message that rtcm_repack can take. */
  predicate Sound(c: Content) {
    c.header.length < 32 &&
    if c.header.kind == 1 || c.header.kind == 9 then c.body.Corrections? && |c.body.sats| == SatCount(c.header.length)
    else if c.header.kind == 3 then c.body.Station?
    else if c.header.kind == 5 then c.body.Constellation? && |c.body.consats| == c.header.length
    else if c.header.kind == 16 then c.body.Text? && |c.body.text| <= TEXT_MAX
    else c.body.Raw? && |c.body.words| == RTCM_WORDS_MAX - 2
  }

  function RepackedBody(c: Content, ws: seq<Bits>): (r: seq<Bits>)
    requires Sound(c) && |ws| == RTCM_WORDS_MAX
    ensures |r| == |ws|
  {
    match c.body
    case Corrections(sats) => PutSats(ws, sats)
    case Station(ecef) => if ecef.Some? then PutEcef(ws, ecef.value.0, ecef.value.1, ecef.value.2) else ws
    case Constellation(consats) => PutConsats(ws, consats)
    case Text(text) => TextPacked(ws, text)
    case Raw(words) => ws[..2] + words
  }

  /** What rtcm_repack leaves in a buffer, but for the parity bits. */
  function Repacked(c: Content, ws: seq<Bits>): (r: seq<Bits>)
    requires Sound(c) && |ws| == RTCM_WORDS_MAX
    ensures |r| == |ws|
  {
    RepackedBody(c, PutHeader(ws, c.header))
  }

  lemma UnpackedSound(ws: seq<Bits>)
    requires |ws| == RTCM_WORDS_MAX
    ensures Sound(Unpacked(ws))
  {
    LengthBound(ws);
    TextLength(ws, 0, 3 * Get(ws, FRMLEN));
    hide Get, TextFrom, ReadSat, ReadConsat;
  }

  lemma {:induction false} TextLength(ws: seq<Bits>, k: nat, limit: nat)
    requires |ws| == RTCM_WORDS_MAX && k <= limit <= TEXT_MAX
    ensures |TextFrom(ws, k, limit)| <= limit - k
    ensures forall j :: 0 <= j < |TextFrom(ws, k, limit)| ==> TextFrom(ws, k, limit)[j] != 0
    decreases limit - k
  {
    hide TextAt;
    if k < limit && TextAt(ws, k) != 0 {
      TextLength(ws, k + 1, limit);
    }
  }

  // ---------- round trips ----------

  predicate AllSurvive(ws: seq<Bits>, n: nat)
    requires |ws| == RTCM_WORDS_MAX && n <= MAXCORRECTIONS
  {
    forall k :: 0 <= k < n ==> Survives(ws, k / 3, k % 3)
  }

  lemma SatsSurvive(ws: seq<Bits>, middle: seq<Bits>, n: nat)
    requires |ws| == RTCM_WORDS_MAX && |middle| == RTCM_WORDS_MAX && n <= MAXCORRECTIONS
    ensures Sats(PutSats(middle, Sats(ws, n)), n) == Sats(ws, n) <==> AllSurvive(ws, n)
  {
    hide ReadSat, PutSats, Survives, Fits, Stored;
    var sats := Sats(ws, n);
    var r := PutSats(middle, sats);
    forall k | 0 <= k < n ensures SatOf(r, k) == SatOf(ws, k) <==> Survives(ws, k / 3, k % 3) {
      SurvivesIs(ws, k / 3, k % 3);
      PutSatsRead(middle, sats, k);
    }
    SameSats(r, ws, n);
  }

  /** Types 1 and 9: a message unpacked, repacked into any buffer and unpacked again is the same exactly
      if every one of its satellites survives. */
  lemma CorrectionsSurvive(ws: seq<Bits>, target: seq<Bits>)
    requires |ws| == RTCM_WORDS_MAX && |target| == RTCM_WORDS_MAX
    requires ReadHeader(ws).kind == 1 || ReadHeader(ws).kind == 9
    ensures Sound(Unpacked(ws))
    ensures Unpacked(Repacked(Unpacked(ws), target)) == Unpacked(ws) <==>
            AllSurvive(ws, SatCount(ReadHeader(ws).length))
    ensures ReadHeader(Repacked(Unpacked(ws), target)) == ReadHeader(ws)
  {
    hide Sats, PutSats, PutHeader, ReadHeader, AllSurvive, SameHead, HeaderFits, SatCount;
    UnpackedSound(ws);
    var h := ReadHeader(ws);
    var n := SatCount(h.length);
    var sats := Sats(ws, n);
    HeaderReadPut(target, h);
    var middle := PutHeader(target, h);
    PutSatsKeepsHead(middle, sats);
    SameHeadReads(middle, PutSats(middle, sats));
    SatsSurvive(ws, middle, n);
  }

  lemma SameSats(r: seq<Bits>, ws: seq<Bits>, n: nat)
    requires |r| == |ws| == RTCM_WORDS_MAX && n <= MAXCORRECTIONS
    ensures Sats(r, n) == Sats(ws, n) <==> forall k :: 0 <= k < n ==> SatOf(r, k) == SatOf(ws, k)
  {
    hide SatOf;
    if Sats(r, n) == Sats(ws, n) {
      forall k | 0 <= k < n ensures SatOf(r, k) == SatOf(ws, k) {
        assert Sats(r, n)[k] == Sats(ws, n)[k];
      }
    }
  }

  /** Type 3: the coordinates come back always. */
  lemma StationSurvives(ws: seq<Bits>, target: seq<Bits>)
    requires |ws| == RTCM_WORDS_MAX && |target| == RTCM_WORDS_MAX && ReadHeader(ws).kind == 3
    ensures Sound(Unpacked(ws)) && Unpacked(Repacked(Unpacked(ws), target)) == Unpacked(ws)
  {
    UnpackedSound(ws);
    LengthBound(ws);
    var h := ReadHeader(ws);
    HeaderReadPut(target, h);
    var middle := PutHeader(target, h);
    if h.length >= 4 {
      EcefKeepsHead(ws, middle);
      EcefAgain(ws, middle);
    }
    hide ReadEcef, PutEcef, PutHeader, ReadHeader, Sats, Consats, TextOf;
  }

  lemma EcefKeepsHead(ws: seq<Bits>, middle: seq<Bits>)
    requires |ws| == RTCM_WORDS_MAX && |middle| == RTCM_WORDS_MAX
    ensures var e := ReadEcef(ws); ReadHeader(PutEcef(middle, e.0, e.1, e.2)) == ReadHeader(middle)
  {
    var e := ReadEcef(ws);
    hide ReadEcef, Get;
    PutAllKeepsHead(middle, ECEF, EcefValues(e.0, e.1, e.2));
    SameHeadReads(middle, PutEcef(middle, e.0, e.1, e.2));
  }

  lemma EcefAgain(ws: seq<Bits>, middle: seq<Bits>)
    requires |ws| == RTCM_WORDS_MAX && |middle| == RTCM_WORDS_MAX
    ensures var e := ReadEcef(ws); ReadEcef(PutEcef(middle, e.0, e.1, e.2)) == e
  {
    var e := ReadEcef(ws);
    WrapTwice(Get(ws, X_H) * 0x100 + Get(ws, X_L));
    WrapTwice(Get(ws, Y_H) * 0x1_0000 + Get(ws, Y_L));
    WrapTwice(Get(ws, Z_H) * 0x100_0000 + Get(ws, Z_L));
    hide Get, PutEcef, Wrap32;
    EcefReadPut(middle, e.0, e.1, e.2);
  }

  lemma ConsatsSurvive(ws: seq<Bits>, middle: seq<Bits>, n: nat)
    requires |ws| == RTCM_WORDS_MAX && |middle| == RTCM_WORDS_MAX && n <= MAXHEALTH
    ensures Consats(PutConsats(middle, Consats(ws, n)), n) == Consats(ws, n)
  {
    hide ReadConsat, PutConsats, ConsatFits;
    var cs := Consats(ws, n);
    var r := PutConsats(middle, cs);
    forall k | 0 <= k < n ensures ReadConsat(r, k) == ReadConsat(ws, k) {
      ConsatRange(ws, k);
      PutConsatsRead(middle, cs, k);
    }
  }

  /** Type 5: the health of every satellite comes back always. */
  lemma ConstellationSurvives(ws: seq<Bits>, target: seq<Bits>)
    requires |ws| == RTCM_WORDS_MAX && |target| == RTCM_WORDS_MAX && ReadHeader(ws).kind == 5
    ensures Sound(Unpacked(ws)) && Unpacked(Repacked(Unpacked(ws), target)) == Unpacked(ws)
  {
    hide Consats, PutConsats, PutHeader, ReadHeader, SameHead;
    UnpackedSound(ws);
    var h := ReadHeader(ws);
    var cs := Consats(ws, h.length);
    HeaderReadPut(target, h);
    var middle := PutHeader(target, h);
    PutConsatsKeepsHead(middle, cs);
    SameHeadReads(middle, PutConsats(middle, cs));
    ConsatsSurvive(ws, middle, h.length);
  }

  /** Packing a text sets the length, and nothing else of the header. */
  lemma TextHeader(ws: seq<Bits>, t: seq<byte>)
    requires |ws| == RTCM_WORDS_MAX && |t| <= TEXT_MAX
    ensures ReadHeader(TextPacked(ws, t)) == ReadHeader(ws).(length := (|t| / 3 + 1) % 32)
  {
    hide Get, Put, Pow2, PutText, TextAt;
    PutTextKeepsHead(ws, t);
    LengthPut(ws, t);
    var middle := PutText(ws, t);
    SameHeadReads(ws, middle);
    HeaderFilled(|ws|);
    GetPutOther(middle, FRMLEN, |t| / 3 + 1, MSGTYPE);
    GetPutOther(middle, FRMLEN, |t| / 3 + 1, ZCNT);
    GetPutOther(middle, FRMLEN, |t| / 3 + 1, REFSTAID);
    GetPutOther(middle, FRMLEN, |t| / 3 + 1, SQNUM);
    GetPutOther(middle, FRMLEN, |t| / 3 + 1, STATHLTH);
  }

  /** Type 16: repacking writes a length of its own. The text comes back exactly if it has at most 92 bytes
      and a zero behind it in the buffer it is repacked into, the header but for its length always. */
  lemma TextComesBack(ws: seq<Bits>, target: seq<Bits>)
    requires |ws| == RTCM_WORDS_MAX && |target| == RTCM_WORDS_MAX && ReadHeader(ws).kind == 16
    ensures Sound(Unpacked(ws)) && Unpacked(ws).body == Text(TextOf(ws)) && |TextOf(ws)| <= TEXT_MAX
    ensures
      var again := Unpacked(Repacked(Unpacked(ws), target));
      && again.header == ReadHeader(ws).(length := (|TextOf(ws)| / 3 + 1) % 32)
      && (again.body == Text(TextOf(ws)) <==> |TextOf(ws)| < TEXT_MAX && TextAt(target, |TextOf(ws)|) == 0)
  {
    hide TextOf, TextPacked, TextAt, PutHeader, Get, ReadHeader, HeaderFits;
    UnpackedSound(ws);
    TextBound(ws);
    var h, t := ReadHeader(ws), TextOf(ws);
    HeaderReadPut(target, h);
    var middle := PutHeader(target, h);
    HeaderKeepsText(target, h);
    TextSurvives(middle, t);
    TextHeader(middle, t);
  }

  lemma TextBound(ws: seq<Bits>)
    requires |ws| == RTCM_WORDS_MAX
    ensures var t := TextOf(ws); |t| <= TEXT_MAX && forall j :: 0 <= j < |t| ==> t[j] != 0
  {
    LengthBound(ws);
    hide Get, TextFrom;
    TextLength(ws, 0, 3 * Get(ws, FRMLEN));
  }

  /** Type 16, the whole message: it comes back exactly if its text does and its length is the one that
      repacking writes, a word more than a text of whole words needs. */
  lemma MessageComesBack(ws: seq<Bits>, target: seq<Bits>)
    requires |ws| == RTCM_WORDS_MAX && |target| == RTCM_WORDS_MAX && ReadHeader(ws).kind == 16
    ensures Sound(Unpacked(ws)) && |TextOf(ws)| <= TEXT_MAX
    ensures
      var t := TextOf(ws);
      Unpacked(Repacked(Unpacked(ws), target)) == Unpacked(ws) <==>
      |t| < TEXT_MAX && TextAt(target, |t|) == 0 && ReadHeader(ws).length == |t| / 3 + 1
  {
    hide TextOf, TextAt, Get, ReadHeader, HeaderFits, Repacked;
    TextComesBack(ws, target);
    if |TextOf(ws)| < TEXT_MAX {
      LengthHolds(|TextOf(ws)|);
    }
    var again := Unpacked(Repacked(Unpacked(ws), target));
    UnpackedHeader(ws);
    LengthSame(again.header, ReadHeader(ws), (|TextOf(ws)| / 3 + 1) % 32);
  }

  lemma UnpackedHeader(ws: seq<Bits>)
    requires |ws| == RTCM_WORDS_MAX
    ensures Unpacked(ws).header == ReadHeader(ws)
  {
    hide ReadHeader, UnpackedBody;
  }

  lemma LengthSame(again: Header, h: Header, n: nat)
    requires again == h.(length := n)
    ensures again == h <==> h.length == n
  {}

  /** A message of one word with the text ABC. */
  function Abc(): (ws: seq<Bits>)
    ensures |ws| == RTCM_WORDS_MAX
  {
    var zeros: seq<Bits> := seq(RTCM_WORDS_MAX, i requires 0 <= i < RTCM_WORDS_MAX => seq(32, j requires 0 <= j < 32 => false));
    PutText(PutHeader(zeros, Header(16, 1, 0, 0, 0, 0)), ['A' as int, 'B' as int, 'C' as int])
  }

  lemma AbcIs()
    ensures ReadHeader(Abc()) == Header(16, 1, 0, 0, 0, 0) && TextOf(Abc()) == ['A' as int, 'B' as int, 'C' as int]
  {
    hide Get, Put, Pow2, PutText, PutHeader, TextAt;
    var zeros: seq<Bits> := seq(RTCM_WORDS_MAX, i requires 0 <= i < RTCM_WORDS_MAX => seq(32, j requires 0 <= j < 32 => false));
    var h, t := Header(16, 1, 0, 0, 0, 0), ['A' as int, 'B' as int, 'C' as int];
    HeaderReadPut(zeros, h);
    PutTextKeepsHead(PutHeader(zeros, h), t);
    SameHeadReads(PutHeader(zeros, h), Abc());
    LengthBound(Abc());
    forall j | 0 <= j < 3 ensures TextAt(Abc(), j) == t[j] {
      PutTextRead(PutHeader(zeros, h), t, j);
    }
    TextFromIs(Abc(), 0, 3, t);
    FullText(Abc());
    assert t + [] == t;
  }

  lemma FullText(ws: seq<Bits>)
    requires |ws| == RTCM_WORDS_MAX
    ensures TextFrom(ws, 3, 3) == []
  {}

  /** It comes back with a length of two, whatever it is repacked into. */
  lemma AbcGrows(target: seq<Bits>)
    requires |target| == RTCM_WORDS_MAX
    ensures Sound(Unpacked(Abc())) && Unpacked(Repacked(Unpacked(Abc()), target)).header == Header(16, 2, 0, 0, 0, 0)
    ensures Unpacked(Abc()).header == Header(16, 1, 0, 0, 0, 0)
  {
    hide TextOf, TextAt, Get, ReadHeader, HeaderFits, Repacked, Abc, UnpackedBody;
    AbcIs();
    TextComesBack(Abc(), target);
  }

  lemma HeaderKeepsText(ws: seq<Bits>, h: Header)
    requires |ws| == RTCM_WORDS_MAX
    ensures forall k :: 0 <= k < TEXT_MAX ==> TextAt(PutHeader(ws, h), k) == TextAt(ws, k)
  {
    HeaderFilled(|ws|);
    hide Get, PutAll, Good, HeaderValues;
    forall k | 0 <= k < TEXT_MAX ensures TextAt(PutHeader(ws, h), k) == TextAt(ws, k) {
      assert Apart(HEADER, TextByte(k));
      PutAllOther(ws, HEADER, HeaderValues(h), TextByte(k));
    }
  }
}
