/** The IS-GPS-200 decoder: a bit-level synchroniser over a 32-bit shift register, with the RTCM
    hooks that recognise the first word of a message and tell when a message is complete. */
module Isgps {
  import opened IsgpsWord

  const RTCM_WORDS_MAX: nat := 33

  datatype Status = NoSync | Sync | Skip | Message

  datatype Decoder = Decoder(locked: bool, offset: int, word: Word, buf: seq<Word>, bufindex: nat)

  /** The preamble field of a first header word holds 0x66. */
  predicate Preamble(w: Word) { (w.bits >> 22) & 0xff == 0x66 }

  /** The frame-length field of a second header word. */
  function FrameLength(w: Word): (n: nat)
    ensures n < 32
  {
    ((w.bits >> 9) & 0x1f) as bv5 as nat
  }

  /** A message is complete once both header words and as many more as they announce are in. */
  predicate Complete(words: seq<Word>) {
    |words| >= 2 && |words| >= FrameLength(words[1]) + 2
  }

  predicate Locks(w: Word) { Preamble(w) && ParityOk(w) }

  /** The largest `j`, at most `k`, at which the register locks; -1 when there is none. */
  function LockPoint(w: Word, sym: Word, k: nat): (j: int)
    requires k <= 5
    ensures -1 <= j <= k
  {
    if Locks(Window(w, sym, k)) then k
    else if k == 0 then -1
    else LockPoint(w, sym, k - 1)
  }

  lemma {:induction false} LockPointIs(w: Word, sym: Word, k: nat, j: nat)
    requires j <= k <= 5
    requires Locks(Window(w, sym, j))
    requires forall i :: j < i <= k ==> !Preamble(Window(w, sym, i))
    ensures LockPoint(w, sym, k) == j
  {
    hide Window, Preamble, ParityOk;
    if j < k {
      LockPointIs(w, sym, k - 1, j);
    }
  }

  lemma {:induction false} NoLockPoint(w: Word, sym: Word, k: nat)
    requires k <= 5
    requires forall i :: 0 <= i <= k ==> !Preamble(Window(w, sym, i))
    ensures LockPoint(w, sym, k) == -1
  {
    hide Window, Preamble, ParityOk;
    if k > 0 {
      NoLockPoint(w, sym, k - 1);
    }
  }

  /** No window that the symbol brings shows a sound first word. */
  predicate NoLock(w: Word, x: Word) {
    forall k :: 0 <= k <= 5 ==> !Locks(Window(w, x, k))
  }

  lemma {:induction false} NoLockPointThen(w: Word, x: Word, k: nat)
    requires k <= 5 && NoLock(w, x)
    ensures LockPoint(w, x, k) == -1
  {
    hide Locks, Window;
    if k > 0 {
      NoLockPointThen(w, x, k - 1);
    }
  }

  function Acquire(s: Decoder, sym: Word): (t: Decoder)
    requires !s.locked
    ensures t.buf == s.buf && (t.locked ==> -5 <= t.offset <= 0)
  {
    var j := LockPoint(s.word, sym, 5);
    if j >= 0 then s.(locked := true, offset := -j, word := Window(s.word, sym, j), bufindex := 0)
    else s.(offset := 1, word := Window(s.word, sym, 0), bufindex := 0)
  }

  /** The register's word with its data bits turned the right way round. */
  function Upright(w: Word): Word {
    if Inverted(w) then Invert(w) else w
  }

  predicate InBounds(s: Decoder) {
    |s.buf| == RTCM_WORDS_MAX && (s.locked ==> -5 <= s.offset <= 24)
  }

  function Track(s: Decoder, sym: Word): (r: (Decoder, Status))
    requires InBounds(s) && s.locked
    ensures InBounds(r.0)
  {
    var w := Merge(s.word, sym, s.offset);
    if s.offset > 0 then
      (s.(word := w, offset := s.offset - 6), Sync)
    else
      var u := Upright(w);
      if !ParityOk(u) then
        (s.(locked := false, word := u, offset := s.offset - 6), Sync)
      else if s.bufindex >= RTCM_WORDS_MAX then
        (s.(word := u, bufindex := 0), NoSync)
      else
        var buf := s.buf[s.bufindex := u];
        if s.bufindex == 0 && !Preamble(u) then
          (s.(word := u, buf := buf), NoSync)
        else
          var done := Complete(buf[..s.bufindex + 1]);
          (s.(word := Merge(Shl(u, 30), sym, s.offset + 30), offset := s.offset + 24,
              buf := buf, bufindex := if done then 0 else s.bufindex + 1),
           if done then Message else Sync)
  }

  /** What six received bits do to the decoder. */
  function Absorb(s: Decoder, sym: Word): (r: (Decoder, Status))
    requires InBounds(s)
    ensures InBounds(r.0)
  {
    var t := if s.locked then s else Acquire(s, sym);
    if t.locked then Track(t, sym) else (t, NoSync)
  }

  /** What one byte does to the decoder. */
  function Step(s: Decoder, c: Word): (r: (Decoder, Status))
    requires InBounds(s)
    ensures InBounds(r.0)
  {
    if Tagged(c) then Absorb(s, ReverseBits(c)) else (s, Skip)
  }

  // ---------- the reassembly bound ----------

  /** Kept by every step: the words gathered so far do not yet complete a message, so there is always
      room for one more. */
  predicate Valid(s: Decoder) {
    && InBounds(s)
    && s.bufindex < RTCM_WORDS_MAX
    && (s.bufindex >= 2 ==> s.bufindex < FrameLength(s.buf[1]) + 2)
  }

  predicate IsInit(s: Decoder) {
    !s.locked && s.offset == 24 && s.word == ZERO && s.bufindex == 0 && |s.buf| == RTCM_WORDS_MAX
  }

  lemma AcquireKeepsValid(s: Decoder, sym: Word)
    requires Valid(s) && !s.locked
    ensures Valid(Acquire(s, sym))
  {}

  lemma TrackKeepsValid(s: Decoder, sym: Word)
    requires Valid(s) && s.locked
    ensures Valid(Track(s, sym).0)
  {
    hide Upright, ParityOk, Preamble, FrameLength, Shl, Merge;
  }

  /** Whatever bytes arrive, the buffer is never found full: the overflow branch is dead. */
  lemma StepKeepsValid(s: Decoder, c: Word)
    requires Valid(s)
    ensures Valid(Step(s, c).0)
    ensures s.bufindex < RTCM_WORDS_MAX
  {
    hide Tagged, ReverseBits, Acquire, Track, FrameLength;
    if Tagged(c) {
      var sym := ReverseBits(c);
      if !s.locked {
        AcquireKeepsValid(s, sym);
        if Acquire(s, sym).locked {
          TrackKeepsValid(Acquire(s, sym), sym);
        }
      } else {
        TrackKeepsValid(s, sym);
      }
    }
  }

  // ---------- the decoder as it runs ----------

  /** One turn of the synchronising loop moves the window one bit along. */
  lemma SyncIteration(w: Word, sym: Word, k: nat, v: Word, u: Word)
    requires k < 5 && v == Window(w, sym, k + 1) && u == Shl(v, 1)
    ensures Merge(u, sym, 0 - k) == Window(w, sym, k)
  {
    CountsLow(k);
    CountsLow(k + 1);
    assert Count(1) == 1;
    hide Count, WindowBy, ShlBy, MergeBelow;
    SyncIterationBy(w, sym, Count(k), Count(k + 1), v, u);
  }

  lemma SyncIterationBy(w: Word, sym: Word, k: bv6, k1: bv6, v: Word, u: Word)
    requires k < 5 && k1 - 1 == k && k1 <= 5 && v == WindowBy(w, sym, k1) && u == ShlBy(v, 1)
    ensures MergeBelow(u, sym, k) == WindowBy(w, sym, k)
  {
    assert MergeBelow(u, sym, k).bits == WindowBy(w, sym, k).bits;
  }

  lemma SyncStart(w: Word, sym: Word, u: Word)
    requires u == Shl(w, 1)
    ensures Merge(u, sym, -5) == Window(w, sym, 5)
  {
    assert Count(1) == 1 && Count(5) == 5;
    assert Merge(u, sym, -5).bits == Window(w, sym, 5).bits;
  }

  /** struct isgps of the packet structure. */
  class IsgpsDecoder {
    var locked: bool
    var curr_offset: int
    var curr_word: Word
    const buf: array<Word>
    var bufindex: nat

    ghost function State(): Decoder
      reads this, buf
    {
      Decoder(locked, curr_offset, curr_word, buf[..], bufindex)
    }

    constructor ()
      ensures IsInit(State()) && fresh(buf)
    {
      curr_word := ZERO;
      curr_offset := 24;
      locked := false;
      bufindex := 0;
      buf := new Word[RTCM_WORDS_MAX](_ => ZERO);
    }

    /** isgps_init: the word buffer keeps what it held. */
    method Init()
      requires |State().buf| == RTCM_WORDS_MAX
      modifies this
      ensures IsInit(State()) && buf[..] == old(buf[..])
    {
      curr_word := ZERO;
      curr_offset := 24;
      locked := false;
      bufindex := 0;
    }

    /** The synchronising loop of isgps_decode. */
    method Synchronise(sym: Word)
      requires InBounds(State()) && !locked
      modifies this
      ensures State() == Acquire(old(State()), sym)
    {
      hide Merge, Shl, Window, Preamble, ParityBits, Low6;
      ghost var w := curr_word;
      curr_offset := -5;
      bufindex := 0;
      while curr_offset <= 0
        invariant -5 <= curr_offset <= 1 && bufindex == 0 && !locked
        invariant curr_word == if curr_offset == -5 then w else Window(w, sym, 1 - curr_offset)
        invariant LockPoint(w, sym, 5) == if curr_offset == 1 then -1 else LockPoint(w, sym, -curr_offset)
        decreases 1 - curr_offset
      {
        ghost var before := curr_word;
        curr_word := Shl(curr_word, 1);
        ghost var shifted := curr_word;
        curr_word := Merge(curr_word, sym, curr_offset);
        if curr_offset == -5 {
          SyncStart(w, sym, shifted);
        } else {
          SyncIteration(w, sym, -curr_offset, before, shifted);
        }
        if Preamble(curr_word) {
          var p := Parity(curr_word);
          if p == Low6(curr_word) {
            locked := true;
            break;
          }
        }
        curr_offset := curr_offset + 1;
      }
    }

    /** The locked half of isgps_decode. */
    method TrackSymbol(sym: Word) returns (res: Status)
      requires InBounds(State()) && locked
      modifies this, buf
      ensures (State(), res) == Track(old(State()), sym)
    {
      hide Merge, Shl, Invert, Inverted, Preamble, FrameLength, ParityBits, Low6;
      res := Sync;
      curr_word := Merge(curr_word, sym, curr_offset);
      if curr_offset <= 0 {
        if Inverted(curr_word) {
          curr_word := Invert(curr_word);
        }
        var p := Parity(curr_word);
        if p == Low6(curr_word) {
          if bufindex >= RTCM_WORDS_MAX {
            bufindex := 0;
            return NoSync;
          }
          buf[bufindex] := curr_word;
          if bufindex == 0 && !Preamble(buf[0]) {
            return NoSync;
          }
          bufindex := bufindex + 1;
          if bufindex >= 2 && bufindex >= FrameLength(buf[1]) + 2 {
            bufindex := 0;
            res := Message;
          }
          curr_word := Shl(curr_word, 30);
          curr_offset := curr_offset + 30;
          curr_word := Merge(curr_word, sym, curr_offset);
        } else {
          locked := false;
        }
      }
      curr_offset := curr_offset - 6;
    }

    /** isgps_decode, with the RTCM hooks. */
    method Decode(c: Word) returns (res: Status)
      requires InBounds(State())
      modifies this, buf
      ensures (State(), res) == Step(old(State()), c)
      ensures old(Valid(State())) ==> Valid(State())
    {
      hide Tagged, ReverseBits, Acquire, Track;
      if Valid(State()) {
        StepKeepsValid(State(), c);
      }
      if !Tagged(c) {
        return Skip;
      }
      var sym := ReverseBits(c);
      if !locked {
        Synchronise(sym);
      }
      if locked {
        res := TrackSymbol(sym);
      } else {
        res := NoSync;
      }
    }
  }
}
