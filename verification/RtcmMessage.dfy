/** struct rtcm_t, filled by rtcm_unpack and read by rtcm_repack. The members of its union are separate
    fields here. */
module RtcmMessage {
  import opened Bytes
  import opened BitFields
  import opened RtcmFields
  import opened Rtcm
  import opened RtcmCodec
  import opened RtcmLayout

  /** A C string in a character array. */
  function UpToNul(s: seq<byte>): (t: seq<byte>)
    ensures |t| <= |s| && 0 !in t
  {
    if s == [] || s[0] == 0 then [] else [s[0]] + UpToNul(s[1..])
  }

  lemma {:induction false} UpToNulIs(s: seq<byte>, n: nat)
    requires n <= |s| && (forall k :: 0 <= k < n ==> s[k] != 0) && (n < |s| ==> s[n] == 0)
    ensures UpToNul(s) == s[..n]
  {
    if n > 0 {
      UpToNulIs(s[1..], n - 1);
      assert s[..n] == [s[0]] + s[1..][..n - 1];
    }
  }

  class RtcmT {
    var kind: nat
    var length: nat
    var zcount: nat
    var refstaid: nat
    var seqnum: nat
    var stathlth: nat
    const sat: array<Sat>
    var nentries: nat
    var ecefValid: bool
    var ecef: (int, int, int)
    const health: array<Consat>
    var nhealth: nat
    const message: array<byte>
    const words: array<Bits>

    ghost predicate Valid() {
      && sat.Length == MAXCORRECTIONS && health.Length == MAXHEALTH && message.Length == 4 * (RTCM_WORDS_MAX - 2)
      && words.Length == RTCM_WORDS_MAX - 2
    }

    constructor ()
      ensures Valid() && fresh(sat) && fresh(health) && fresh(message) && fresh(words)
    {
      kind, length, zcount, refstaid, seqnum, stathlth := 0, 0, 0, 0, 0, 0;
      sat := new Sat[MAXCORRECTIONS](_ => Sat(0, 0, 0, 0, 0));
      nentries := 0;
      ecefValid, ecef := false, (0, 0, 0);
      health := new Consat[MAXHEALTH](_ => Consat(0, false, 0, 0, 0, false, false, 0));
      nhealth := 0;
      message := new byte[4 * (RTCM_WORDS_MAX - 2)](_ => 0);
      words := new Bits[RTCM_WORDS_MAX - 2](_ => seq(32, _ => false));
    }

    ghost function Head(): Header
      reads this
    {
      Header(kind, length, zcount, refstaid, seqnum, stathlth)
    }

    /** What the fields say, as rtcm_repack reads them: entries are counted by the length. */
    ghost function Message(): Content
      requires Valid()
      reads this, sat, health, message, words
    {
      Content(Head(),
        if kind == 1 || kind == 9 then
          Corrections(if length < 32 then sat[..SatCount(length)] else [])
        else if kind == 3 then Station(if ecefValid then Some(ecef) else None)
        else if kind == 5 then Constellation(if length <= MAXHEALTH then health[..length] else [])
        else if kind == 16 then Text(UpToNul(message[..TEXT_MAX]))
        else Raw(words[..]))
    }

    // ---------- rtcm_unpack ----------

    /** rtcm_unpack, except for types 4 and 7. */
    method RtcmUnpack(buf: array<Bits>)
      requires Valid() && buf.Length == RTCM_WORDS_MAX && buf != words
      requires Modelled(Get(buf[..], MSGTYPE))
      modifies this, sat, health, message, words
      ensures Message() == Unpacked(buf[..])
      ensures kind == At(buf[..], 8, 6) && refstaid == At(buf[..], 14, 10) && zcount == At(buf[..], 24, 13)
      ensures seqnum == At(buf[..], 37, 3) && length == At(buf[..], 40, 5) && stathlth == At(buf[..], 45, 3)
      ensures kind == 1 || kind == 9 ==> nentries == SatCount(length) <= MAXCORRECTIONS
      ensures kind == 5 ==> nhealth == length
      ensures kind == 3 && !ecefValid ==> ecef == old(ecef)
    {
      hide Sats, SatCount, Consats, TextOf, ReadEcef, Get, At;
      ghost var ws := buf[..];
      HeaderAt(ws);
      var head := ReadHeader(buf[..]);
      kind, length, zcount := head.kind, head.length, head.zcount;
      refstaid, seqnum, stathlth := head.refstaid, head.seqnum, head.stathlth;
      if kind == 1 || kind == 9 {
        UnpackRanges(buf);
        assert Message() == Unpacked(ws);
      } else if kind == 3 {
        ecefValid := length >= 4;
        if ecefValid {
          ecef := ReadEcef(buf[..]);
        }
      } else if kind == 5 {
        UnpackHealth(buf);
        assert Message() == Unpacked(ws);
      } else if kind == 16 {
        UnpackText(buf);
        assert Message() == Unpacked(ws);
      } else {
        forall i | 0 <= i < RTCM_WORDS_MAX - 2 {
          words[i] := buf[i + 2];
        }
        assert words[..] == ws[2..];
        assert Message() == Unpacked(ws);
      }
      assert buf[..] == ws;
    }

    /** The loop over groups of five words, each with up to three satellites. */
    method UnpackRanges(buf: array<Bits>)
      requires Valid() && buf.Length == RTCM_WORDS_MAX && length < 32
      modifies this`nentries, sat
      ensures nentries == SatCount(length) && sat[..nentries] == Sats(buf[..], nentries)
    {
      hide Sats, SatCount;
      ghost var ws := buf[..];
      var len: int, n, g := length, 0, 0;
      NoSatsRead(ws, sat[..0]);
      while len >= 0
        invariant len == length - 5 * g && buf[..] == ws
        invariant n == if len >= 0 then 3 * g else SatCount(length)
        invariant len >= 0 ==> SatCount(length) == n + SatCount(len)
        invariant n <= MAXCORRECTIONS && sat[..n] == Sats(ws, n)
      {
        GroupFits(length, g);
        if len >= 2 {
          n := UnpackSat(buf, n, g, 0);
        }
        if len >= 4 {
          n := UnpackSat(buf, n, g, 1);
        }
        if len >= 5 {
          n := UnpackSat(buf, n, g, 2);
        }
        len := len - 5;
        g := g + 1;
      }
      nentries := n;
    }

    method UnpackSat(buf: array<Bits>, n: nat, g: nat, p: nat) returns (m: nat)
      requires Valid() && buf.Length == RTCM_WORDS_MAX && p < 3 && n == 3 * g + p < MAXCORRECTIONS
      requires sat[..n] == Sats(buf[..], n)
      modifies sat
      ensures m == n + 1 && sat[..m] == Sats(buf[..], m)
    {
      hide ReadSat, Sats;
      assert n / 3 == g && n % 3 == p;
      NextSat(buf[..], n);
      ghost var before := sat[..n];
      sat[n] := ReadSat(buf[..], g, p);
      m := n + 1;
      assert sat[..m] == before + [sat[n]];
    }

    method UnpackHealth(buf: array<Bits>)
      requires Valid() && buf.Length == RTCM_WORDS_MAX && length < 32
      modifies this`nhealth, health
      ensures nhealth == length && health[..length] == Consats(buf[..], length)
    {
      hide ReadConsat;
      ghost var ws := buf[..];
      for n := 0 to length
        invariant health[..n] == Consats(ws, n)
      {
        health[n] := ReadConsat(buf[..], n);
        assert health[..n + 1] == health[..n] + [health[n]];
      }
      nhealth := length;
    }

    /** Bytes up to the first zero, or to the end of the words announced. */
    method UnpackText(buf: array<Bits>)
      requires Valid() && buf.Length == RTCM_WORDS_MAX && length == Get(buf[..], FRMLEN) < 32
      modifies message
      ensures UpToNul(message[..TEXT_MAX]) == TextOf(buf[..])
    {
      hide TextAt, TextFrom, UpToNul;
      ghost var ws := buf[..];
      var w, n, more := 0, 0, true;
      TextSoFar(ws, message[..0], 0, 3 * length);
      while w < length && more
        invariant 0 <= w <= length && n <= 3 * length && (more ==> n == 3 * w) && buf[..] == ws
        invariant Taken(ws, message[..n], 3 * length, more)
        decreases length - w, more
      {
        more, n := UnpackByte(buf, n, 3 * length);
        if more {
          more, n := UnpackByte(buf, n, 3 * length);
        }
        if more {
          more, n := UnpackByte(buf, n, 3 * length);
        }
        w := w + 1;
      }
      TextEnds(ws, message[..n], 3 * length, more);
      message[n] := 0;
      assert message[..TEXT_MAX + 1][..n] == message[..n];
      TextStored(message[..TEXT_MAX + 1], n);
      assert message[..TEXT_MAX + 1][..TEXT_MAX] == message[..TEXT_MAX];
    }

    method UnpackByte(buf: array<Bits>, n: nat, ghost limit: nat) returns (more: bool, m: nat)
      requires Valid() && buf.Length == RTCM_WORDS_MAX && n < limit <= TEXT_MAX
      requires Taken(buf[..], message[..n], limit, true)
      modifies message
      ensures m == (if more then n + 1 else n) && Taken(buf[..], message[..m], limit, more)
    {
      hide TextAt, TextFrom;
      ghost var done := message[..n];
      TextNext(buf[..], done, limit);
      var c := TextAt(buf[..], n);
      if c == 0 {
        return false, n;
      }
      message[n] := c;
      more, m := true, n + 1;
      assert message[..m] == done + [c];
    }

    // ---------- rtcm_repack ----------

    /** rtcm_repack, except for types 4 and 7 and the parity bits, which no field read here holds. */
    method RtcmRepack(buf: array<Bits>)
      requires Valid() && buf.Length == RTCM_WORDS_MAX && buf != words && Modelled(kind) && length < 32
      modifies this`nentries, buf
      ensures Sound(old(Message())) && buf[..] == Repacked(old(Message()), old(buf[..]))
    {
      hide PutSats, PutConsats, TextPacked, SatCount, UpToNul, PutAll;
      HeaderFilled(RTCM_WORDS_MAX);
      ghost var c := Message();
      PutFields(buf, HEADER, [kind, length, zcount, refstaid, seqnum, stathlth]);
      ghost var middle := buf[..];
      assert middle == PutHeader(old(buf[..]), c.header);
      if kind == 1 || kind == 9 {
        RepackRanges(buf);
      } else if kind == 3 {
        if ecefValid {
          EcefFilled(RTCM_WORDS_MAX);
          PutFields(buf, ECEF, EcefValues(ecef.0, ecef.1, ecef.2));
        }
      } else if kind == 5 {
        RepackHealth(buf);
      } else if kind == 16 {
        RepackText(buf);
      } else {
        forall i | 0 <= i < RTCM_WORDS_MAX - 2 {
          buf[i + 2] := words[i];
        }
        assert buf[..] == middle[..2] + words[..];
      }
    }

    method RepackRanges(buf: array<Bits>)
      requires Valid() && buf.Length == RTCM_WORDS_MAX && length < 32
      modifies this`nentries, buf
      ensures buf[..] == PutSats(old(buf[..]), sat[..SatCount(length)])
    {
      hide PutSats, SatCount;
      ghost var ws := buf[..];
      var len: int, n, g := length, 0, 0;
      NoSats(ws, sat[..0]);
      while len >= 0
        invariant len == length - 5 * g
        invariant n == if len >= 0 then 3 * g else SatCount(length)
        invariant len >= 0 ==> SatCount(length) == n + SatCount(len)
        invariant n <= MAXCORRECTIONS && buf[..] == PutSats(ws, sat[..n])
      {
        GroupFits(length, g);
        if len >= 2 {
          n := RepackSat(buf, n, g, 0, ws);
        }
        if len >= 4 {
          n := RepackSat(buf, n, g, 1, ws);
        }
        if len >= 5 {
          n := RepackSat(buf, n, g, 2, ws);
        }
        len := len - 5;
        g := g + 1;
      }
      nentries := n;
    }

    /** One satellite, the `p`-th of its group. */
    method RepackSat(buf: array<Bits>, n: nat, g: nat, p: nat, ghost ws: seq<Bits>) returns (m: nat)
      requires Valid() && buf.Length == RTCM_WORDS_MAX == |ws| && p < 3 && n == 3 * g + p < MAXCORRECTIONS
      requires buf[..] == PutSats(ws, sat[..n])
      modifies buf
      ensures m == n + 1 && buf[..] == PutSats(ws, sat[..m])
    {
      hide PutAll, SatFields, SatValues, Good;
      SatsInside(g, p, RTCM_WORDS_MAX);
      GoodInside(SatFields(g, p), RTCM_WORDS_MAX);
      PutFields(buf, SatFields(g, p), SatValues(p, sat[n]));
      m := n + 1;
      assert n / 3 == g && n % 3 == p;
      assert sat[..m][..n] == sat[..n] && sat[..m][n] == sat[n];
    }

    method RepackHealth(buf: array<Bits>)
      requires Valid() && buf.Length == RTCM_WORDS_MAX && length < 32
      modifies buf
      ensures buf[..] == PutConsats(old(buf[..]), health[..length])
    {
      hide PutAll, HealthFields, HealthValues, Good;
      ghost var ws := buf[..];
      assert health[..0] == [];
      for n := 0 to length
        invariant buf[..] == PutConsats(ws, health[..n])
      {
        HealthFilled(n, RTCM_WORDS_MAX);
        GoodInside(HealthFields(n), RTCM_WORDS_MAX);
        PutFields(buf, HealthFields(n), HealthValues(health[n]));
        assert health[..n + 1][..n] == health[..n] && health[..n + 1][n] == health[n];
      }
    }

    /** Three bytes to a word until the text ends; then the length, which is one more than the word it
        ended in. */
    method RepackText(buf: array<Bits>)
      requires Valid() && buf.Length == RTCM_WORDS_MAX
      modifies buf
      ensures buf[..] == TextPacked(old(buf[..]), UpToNul(message[..TEXT_MAX]))
    {
      hide Put, UpToNul, PutText;
      ghost var ws := buf[..];
      var w, n, more := 0, 0, true;
      NoText(ws, message[..0]);
      while w < RTCM_WORDS_MAX - 2 && more
        invariant 0 <= w <= RTCM_WORDS_MAX - 2
        invariant if more then n == 3 * w else 3 * w <= n < 3 * w + 3 && n < TEXT_MAX && message[n] == 0
        invariant Filled(ws, buf[..], message[..n])
        decreases RTCM_WORDS_MAX - 2 - w, more
      {
        more, n := RepackByte(buf, n, ws);
        if more {
          more, n := RepackByte(buf, n, ws);
        }
        if more {
          more, n := RepackByte(buf, n, ws);
        }
        if more {
          w := w + 1;
        }
      }
      ghost var t := message[..TEXT_MAX];
      assert t[..n] == message[..n];
      assert forall k :: 0 <= k < n ==> t[k] == message[..n][k];
      UpToNulIs(t, n);
      PutOne(buf[..], FRMLEN, w + 1);
      PutFields(buf, [FRMLEN], [w + 1]);
    }

    method RepackByte(buf: array<Bits>, n: nat, ghost ws: seq<Bits>) returns (more: bool, m: nat)
      requires Valid() && buf.Length == RTCM_WORDS_MAX == |ws| && n < TEXT_MAX && Filled(ws, buf[..], message[..n])
      modifies buf
      ensures more == (message[n] != 0) && m == (if more then n + 1 else n) && Filled(ws, buf[..], message[..m])
    {
      hide Put, PutAll, TextByte;
      if message[n] == 0 {
        return false, n;
      }
      TextWidth(n);
      PutOne(buf[..], TextByte(n), message[n]);
      PutFields(buf, [TextByte(n)], [message[n]]);
      more, m := true, n + 1;
      assert message[..m][..n] == message[..n] && message[..m][n] == message[n];
    }
  }

  /** The text read so far, when the reading goes on, or the whole of it. */
  predicate Taken(ws: seq<Bits>, done: seq<byte>, limit: nat, more: bool) {
    |ws| == RTCM_WORDS_MAX && |done| <= limit <= TEXT_MAX && 0 !in done
    && TextFrom(ws, 0, limit) == done + if more then TextFrom(ws, |done|, limit) else []
  }

  /** The text stored so far. */
  predicate Filled(ws: seq<Bits>, r: seq<Bits>, done: seq<byte>) {
    |ws| == RTCM_WORDS_MAX && |done| <= TEXT_MAX && 0 !in done && r == PutText(ws, done)
  }

  lemma NoText(ws: seq<Bits>, t: seq<byte>)
    requires |ws| == RTCM_WORDS_MAX && t == []
    ensures Filled(ws, ws, t)
  {}

  lemma NoSatsRead(ws: seq<Bits>, sats: seq<Sat>)
    requires |ws| == RTCM_WORDS_MAX && sats == []
    ensures sats == Sats(ws, 0)
  {}

  lemma NoSats(ws: seq<Bits>, sats: seq<Sat>)
    requires |ws| == RTCM_WORDS_MAX && sats == []
    ensures PutSats(ws, sats) == ws
  {}

  lemma GroupFits(length: nat, g: nat)
    requires length < 32 && 5 * g <= length
    ensures var len := length - 5 * g;
            (len >= 2 ==> GroupWord(g) + 5 <= RTCM_WORDS_MAX && 3 * g + 2 < MAXCORRECTIONS)
            && SatCount(len) == (if len >= 5 then 3 + SatCount(len - 5) else if len >= 4 then 2 else if len >= 2 then 1 else 0)
  {}

  lemma NextSat(ws: seq<Bits>, n: nat)
    requires |ws| == RTCM_WORDS_MAX && n < MAXCORRECTIONS
    ensures GroupWord(n / 3) + 5 <= RTCM_WORDS_MAX && Sats(ws, n + 1) == Sats(ws, n) + [ReadSat(ws, n / 3, n % 3)]
  {
    hide ReadSat;
  }

  lemma TextSoFar(ws: seq<Bits>, done: seq<byte>, n: nat, limit: nat)
    requires |ws| == RTCM_WORDS_MAX && done == [] && n == 0 <= limit <= TEXT_MAX
    ensures Taken(ws, done, limit, true)
  {
    assert done + TextFrom(ws, 0, limit) == TextFrom(ws, 0, limit);
  }

  lemma TextNext(ws: seq<Bits>, done: seq<byte>, limit: nat)
    requires Taken(ws, done, limit, true) && |done| < limit
    ensures var c := TextAt(ws, |done|); if c == 0 then Taken(ws, done, limit, false) else Taken(ws, done + [c], limit, true)
  {
    hide TextAt;
    var n := |done|;
    var c := TextAt(ws, n);
    if c != 0 {
      assert done + ([c] + TextFrom(ws, n + 1, limit)) == done + [c] + TextFrom(ws, n + 1, limit);
    }
  }

  lemma TextEnds(ws: seq<Bits>, done: seq<byte>, limit: nat, more: bool)
    requires Taken(ws, done, limit, more) && (more ==> |done| == limit)
    ensures done == TextFrom(ws, 0, limit)
  {
    assert done + [] == done;
  }

  /** A text of the largest size has its NUL behind the bytes compared. */
  lemma TextStored(m: seq<byte>, n: nat)
    requires |m| == TEXT_MAX + 1 && n <= TEXT_MAX && m[n] == 0 && 0 !in m[..n]
    ensures UpToNul(m[..TEXT_MAX]) == m[..n]
  {
    assert forall k :: 0 <= k < n ==> m[k] == m[..n][k];
    UpToNulIs(m[..TEXT_MAX], n);
    assert m[..TEXT_MAX][..n] == m[..n];
  }

  lemma GoodInside(f: seq<Loc>, n: nat)
    requires Good(f, n)
    ensures forall i :: 0 <= i < |f| ==> f[i].word < n && InWord(f[i])
  {}

  lemma PutOne(ws: seq<Bits>, l: Loc, v: int)
    requires l.word < |ws| && InWord(l)
    ensures PutAll(ws, [l], [v]) == Put(ws, l, v)
  {
    assert [l][..0] == [] && [v][..0] == [];
  }
}
