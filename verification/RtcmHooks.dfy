/** The fields the decoder's hooks look at are those of the message layout: preamble_match and
    length_check of rtcm.c read the same bits as rtcm_unpack. */
module RtcmHooks {
  import opened Bytes
  import opened BitFields
  import opened IsgpsWord
  import opened RtcmFields
  import Isgps

  function Octet0(w: Word): (s: seq<bool>)
    ensures |s| == 8
  {
    [w.bits & 0x1 != 0, w.bits & 0x2 != 0, w.bits & 0x4 != 0, w.bits & 0x8 != 0,
     w.bits & 0x10 != 0, w.bits & 0x20 != 0, w.bits & 0x40 != 0, w.bits & 0x80 != 0]
  }

  function Octet1(w: Word): (s: seq<bool>)
    ensures |s| == 8
  {
    [w.bits & 0x100 != 0, w.bits & 0x200 != 0, w.bits & 0x400 != 0, w.bits & 0x800 != 0,
     w.bits & 0x1000 != 0, w.bits & 0x2000 != 0, w.bits & 0x4000 != 0, w.bits & 0x8000 != 0]
  }

  function Octet2(w: Word): (s: seq<bool>)
    ensures |s| == 8
  {
    [w.bits & 0x10000 != 0, w.bits & 0x20000 != 0, w.bits & 0x40000 != 0, w.bits & 0x80000 != 0,
     w.bits & 0x100000 != 0, w.bits & 0x200000 != 0, w.bits & 0x400000 != 0, w.bits & 0x800000 != 0]
  }

  function Octet3(w: Word): (s: seq<bool>)
    ensures |s| == 8
  {
    [w.bits & 0x1000000 != 0, w.bits & 0x2000000 != 0, w.bits & 0x4000000 != 0, w.bits & 0x8000000 != 0,
     w.bits & 0x10000000 != 0, w.bits & 0x20000000 != 0, w.bits & 0x40000000 != 0, w.bits & 0x80000000 != 0]
  }

  /** The bits of a word of the decoder's buffer. */
  function BitsOf(w: Word): Bits {
    Octet0(w) + Octet1(w) + Octet2(w) + Octet3(w)
  }

  const PREAMBLE: Loc := Loc(0, 22, 8)
  const PREAMBLE_PATTERN: nat := 0x66

  function Unit(b: bool): nat { if b then 1 else 0 }

  /** A number by its first four bits and the rest. */
  lemma {:induction false} Number4(s: seq<bool>)
    requires |s| >= 4
    ensures Number(s) == Unit(s[0]) + 2 * Unit(s[1]) + 4 * Unit(s[2]) + 8 * Unit(s[3]) + 16 * Number(s[4..])
  {
    var s1, s2, s3 := s[1..], s[2..], s[3..];
    assert s1[1..] == s2 && s2[1..] == s3 && s3[1..] == s[4..];
    assert Number(s3) == Unit(s[3]) + 2 * Number(s[4..]);
    assert Number(s2) == Unit(s[2]) + 2 * Number(s3);
    assert Number(s1) == Unit(s[1]) + 2 * Number(s2);
  }

  lemma {:induction false} Number1(s: seq<bool>)
    requires |s| <= 1
    ensures Number(s) == if s == [] then 0 else Unit(s[0])
  {
    assert s != [] ==> s[1..] == [];
  }

  lemma LengthMasks(w: Word)
    ensures Isgps.FrameLength(w) ==
      Unit(w.bits & 0x200 != 0) + 2 * Unit(w.bits & 0x400 != 0) + 4 * Unit(w.bits & 0x800 != 0)
      + 8 * Unit(w.bits & 0x1000 != 0) + 16 * Unit(w.bits & 0x2000 != 0)
  {}

  lemma SecondOctet(w: Word)
    ensures var b := Octet1(w);
      b[1] == (w.bits & 0x200 != 0) && b[2] == (w.bits & 0x400 != 0) && b[3] == (w.bits & 0x800 != 0)
      && b[4] == (w.bits & 0x1000 != 0) && b[5] == (w.bits & 0x2000 != 0)
  {}

  lemma OctetsAre(w: Word)
    ensures BitsOf(w)[8..16] == Octet1(w) && BitsOf(w)[16..24] == Octet2(w) && BitsOf(w)[24..32] == Octet3(w)
  {
    hide Octet0, Octet1, Octet2, Octet3;
  }

  lemma LengthBits(w: Word)
    ensures var b := BitsOf(w);
      Isgps.FrameLength(w) == Unit(b[9]) + 2 * Unit(b[10]) + 4 * Unit(b[11]) + 8 * Unit(b[12]) + 16 * Unit(b[13])
  {
    hide BitsOf, Isgps.FrameLength, Unit, Octet1;
    LengthMasks(w);
    SecondOctet(w);
    OctetsAre(w);
    var b := BitsOf(w);
    assert forall i :: 0 <= i < 8 ==> b[8 + i] == b[8..16][i];
    assert b[9] == b[8 + 1] && b[10] == b[8 + 2] && b[11] == b[8 + 3] && b[12] == b[8 + 4] && b[13] == b[8 + 5];
  }

  /** The frame length that length_check compares is the field rtcm_unpack takes the length from. */
  lemma LengthField(w1: Word, w2: Word)
    ensures Isgps.FrameLength(w2) == Get([BitsOf(w1), BitsOf(w2)], FRMLEN)
  {
    hide Number, BitsOf, Isgps.FrameLength;
    LengthBits(w2);
    var b := BitsOf(w2);
    var f := b[9..14];
    Number4(f);
    Number1(f[4..]);
  }

  lemma PreambleMasks(w: Word)
    ensures var b, c := Octet2(w), Octet3(w);
      Isgps.Preamble(w) <==> !b[6] && b[7] && c[0] && !c[1] && !c[2] && c[3] && c[4] && !c[5]
  {
    var x := w.bits;
    assert (x >> 22) & 0xff == 0x66 <==>
      x & 0x40_0000 == 0 && x & 0x80_0000 != 0 && x & 0x100_0000 != 0 && x & 0x200_0000 == 0
      && x & 0x400_0000 == 0 && x & 0x800_0000 != 0 && x & 0x1000_0000 != 0 && x & 0x2000_0000 == 0;
  }

  lemma PreambleBits(w: Word)
    ensures var b := BitsOf(w);
      Isgps.Preamble(w) <==> !b[22] && b[23] && b[24] && !b[25] && !b[26] && b[27] && b[28] && !b[29]
  {
    hide BitsOf, Isgps.Preamble, Octet2, Octet3;
    PreambleMasks(w);
    OctetsAre(w);
    var b := BitsOf(w);
    assert forall i :: 0 <= i < 8 ==> b[16 + i] == b[16..24][i] && b[24 + i] == b[24..32][i];
    assert b[22] == b[16 + 6] && b[23] == b[16 + 7];
    assert b[24] == b[24 + 0] && b[25] == b[24 + 1] && b[26] == b[24 + 2] && b[27] == b[24 + 3];
    assert b[28] == b[24 + 4] && b[29] == b[24 + 5];
  }

  /** preamble_match compares the preamble field. */
  lemma PreambleField(w: Word)
    ensures Isgps.Preamble(w) <==> Get([BitsOf(w)], PREAMBLE) == PREAMBLE_PATTERN
  {
    hide Number, BitsOf, Isgps.Preamble;
    PreambleBits(w);
    var b := BitsOf(w);
    var f := b[22..30];
    Number4(f);
    Number4(f[4..]);
    Number1(f[4..][4..]);
  }
}
