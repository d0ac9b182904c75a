/** The split of an NMEA sentence into fields at the head of nmea_parse. */
module NmeaFields {
  import opened Bytes
  import opened Nmea

  const NMEA_MAX: nat := 86

  /** Where the checksum part or the line end begins; characters are signed. */
  predicate Stops(c: byte) { c == STAR || c < 0x20 || c >= 0x80 }

  function FirstComma(s: seq<byte>): (i: nat)
    ensures i <= |s| && (forall k :: 0 <= k < i ==> s[k] != COMMA) && (i < |s| ==> s[i] == COMMA)
  {
    if s == [] || s[0] == COMMA then 0 else FirstComma(s[1..]) + 1
  }

  function Fields(s: seq<byte>): (f: seq<seq<byte>>)
    ensures 1 <= |f| <= |s| + 1
    decreases |s|
  {
    var i := FirstComma(s);
    if i == |s| then [s] else [s[..i]] + Fields(s[i + 1..])
  }

  function Join(f: seq<seq<byte>>): seq<byte>
    requires f != []
  {
    if |f| == 1 then f[0] else f[0] + [COMMA] + Join(f[1..])
  }

  /** Joining the fields with commas gives the text back, and none of them holds a comma. */
  lemma {:induction false} JoinFields(s: seq<byte>)
    ensures Join(Fields(s)) == s
    ensures forall k :: 0 <= k < |Fields(s)| ==> COMMA !in Fields(s)[k]
    decreases |s|
  {
    hide Fields, FirstComma;
    FieldsStep(s);
    var i := FirstComma(s);
    if i < |s| {
      JoinFields(s[i + 1..]);
      assert Fields(s)[1..] == Fields(s[i + 1..]);
      assert s == s[..i] + [COMMA] + s[i + 1..];
    }
  }

  /** Reading on from a comma. */
  lemma {:induction false} FieldsStep(s: seq<byte>)
    ensures var i := FirstComma(s);
            Fields(s) == if i < |s| then [s[..i]] + Fields(s[i + 1..]) else [s]
  {}

  /** And no other list of comma-free fields does. */
  lemma {:induction false} FieldsJoin(f: seq<seq<byte>>)
    requires f != [] && forall k :: 0 <= k < |f| ==> COMMA !in f[k]
    ensures Fields(Join(f)) == f
    decreases |f|
  {
    hide Fields, FirstComma;
    var s := Join(f);
    FieldsStep(s);
    if |f| == 1 {
      FirstIs(s, |s|);
    } else {
      var n, rest := |f[0]|, Join(f[1..]);
      assert s == f[0] + [COMMA] + rest;
      FirstIs(s, n);
      assert s[..n] == f[0] && s[n + 1..] == rest;
      FieldsJoin(f[1..]);
      assert f == [f[0]] + f[1..];
    }
  }

  /** A NUL-terminated string in a buffer. */
  predicate StringAt(b: seq<byte>, i: nat, f: seq<byte>) {
    i + |f| < |b| && b[i..i + |f|] == f && b[i + |f|] == 0
  }

  /** The sentence's text: what stands between its first character and where the split stops, which may be
      at its end. A sentence of NMEA_MAX characters is copied without its NUL; it has to stop before. */
  predicate TextEnds(sentence: seq<byte>, t: nat) {
    && 1 <= t <= |sentence| && (if t < |sentence| then Stops(sentence[t]) else |sentence| != NMEA_MAX)
    && forall k :: 0 <= k < t ==> !Stops(sentence[k])
  }

  /** The copy of the sentence that nmea_parse cuts up, and where it ends. */
  method EditableCopy(sentence: seq<byte>, ghost end: nat) returns (buf: array<byte>, t: nat)
    requires |sentence| <= NMEA_MAX && TextEnds(sentence, end)
    ensures t == end && fresh(buf) && buf.Length == NMEA_MAX + 1 && buf[..t] == sentence[..t] && buf[t] == 0
  {
    buf := new byte[NMEA_MAX + 1](i requires 0 <= i => if i < |sentence| then sentence[i] else 0);
    t := 0;
    while buf[t] != STAR && 0x20 <= buf[t] < 0x80
      invariant t <= end
      decreases end - t
    {
      t := t + 1;
    }
    assert t == end;
    buf[t] := 0;
  }

  /** strchr for a comma: where it is, or the end of the string. */
  method FindComma(buf: array<byte>, p: nat, ghost t: nat) returns (q: nat)
    requires p <= t < buf.Length && buf[t] == 0 && forall k :: p <= k < t ==> buf[k] != 0
    ensures q == p + FirstComma(buf[p..t])
  {
    q := p;
    while buf[q] != COMMA && buf[q] != 0
      invariant p <= q <= t && forall k :: p <= k < q ==> buf[k] != COMMA
      decreases t - q
    {
      q := q + 1;
    }
    FirstIs(buf[p..t], q - p);
  }

  lemma {:induction false} FirstIs(s: seq<byte>, i: nat)
    requires i <= |s| && (forall k :: 0 <= k < i ==> s[k] != COMMA) && (i < |s| ==> s[i] == COMMA)
    ensures FirstComma(s) == i
  {
    if s != [] && i > 0 {
      FirstIs(s[1..], i - 1);
    }
  }

  /** The fields found so far, all in front of `p`. */
  predicate Laid(b: seq<byte>, field: seq<nat>, done: seq<seq<byte>>, p: nat) {
    |done| <= |field| && forall k :: 0 <= k < |done| ==> field[k] + |done[k]| < p && StringAt(b, field[k], done[k])
  }

  /** Ending a field in place with a NUL adds it to those found. */
  lemma Cut(b: seq<byte>, field: seq<nat>, done: seq<seq<byte>>, p: nat, q: nat)
    requires p <= q < |b| && |done| < |field| && field[|done|] == p && Laid(b, field, done, p)
    ensures Laid(b[q := 0], field, done + [b[p..q]], q + 1)
  {
    var after, all := b[q := 0], done + [b[p..q]];
    forall k | 0 <= k < |all| ensures field[k] + |all[k]| < q + 1 && StringAt(after, field[k], all[k]) {
      if k < |done| {
        assert StringAt(b, field[k], done[k]);
        assert after[field[k]..field[k] + |done[k]|] == b[field[k]..field[k] + |done[k]|];
      } else {
        assert after[p..q] == b[p..q];
      }
    }
  }

  lemma OneMore(b: seq<byte>, field: seq<nat>, done: seq<seq<byte>>, p: nat)
    requires |done| < |field| && Laid(b, field, done, p)
    ensures Laid(b, field[|done| := p], done, p)
  {}

  /** One turn of the loop: `b` and `field` as the turn finds them, `q` the comma or the end. */
  lemma CutStep(text: seq<byte>, b: seq<byte>, field: seq<nat>, done: seq<seq<byte>>, p: nat, t: nat, q: nat)
    requires 1 <= p <= t < |b| == |text| && b[t] == 0 && b[p..t] == text[p..t]
    requires |done| < |field| && Laid(b, field, done, p) && q == p + FirstComma(b[p..t])
    ensures Laid(b[q := 0], field[|done| := p], done + [b[p..q]], q + 1)
    ensures done + Fields(text[p..t]) == done + [b[p..q]] + if q < t then Fields(text[q + 1..t]) else []
    ensures q < t ==> b[q] == COMMA
    ensures q == t ==> b[q := 0] == b
  {
    hide Fields, StringAt, Laid;
    var s := text[p..t];
    FieldsStep(s);
    OneMore(b, field, done, p);
    Cut(b, field[|done| := p], done, p, q);
    assert s[..q - p] == b[p..q];
    if q < t {
      assert s[q - p + 1..] == text[q + 1..t];
      assert b[q] == b[p..t][q - p];
    }
  }

  /** The split itself: cuts the copy up in place. */
  method CutAtCommas(buf: array<byte>, field: array<nat>, t: nat) returns (count: nat)
    requires 1 <= t < buf.Length && buf[t] == 0 && (forall k :: 1 <= k < t ==> buf[k] != 0) && t <= field.Length
    modifies buf, field
    ensures
      var f := Fields(old(buf[1..t]));
      count + 1 == |f| <= field.Length && Laid(buf[..], field[..], f, t + 1)
  {
    hide Fields, FirstComma, StringAt, Laid;
    ghost var text := buf[..];
    ghost var f, done: seq<seq<byte>> := Fields(text[1..t]), [];
    NothingLaid(buf[..], field[..]);
    count := 0;
    var p, q := 1, 0;
    while q != t
      invariant 1 <= p <= t + 1 && |done| < p + 1 && |text| == buf.Length
      invariant q != t ==> p <= t && |done| == count < p && f == done + Fields(text[p..t]) && buf[t] == 0
      invariant q != t ==> buf[p..t] == text[p..t]
      invariant q == t ==> p == t + 1 && f == done && |done| == count + 1
      invariant Laid(buf[..], field[..], done, p)
      decreases t + 1 - p
    {
      assert forall k :: p <= k < t ==> buf[k] == buf[p..t][k - p] == text[k];
      ghost var b := buf[..];
      assert b[p..t] == buf[p..t];
      q := FindComma(buf, p, t);
      CutStep(text, b, field[..], done, p, t, q);
      done := done + [b[p..q]];
      field[count] := p;
      if q != t {
        buf[q] := 0;
        count := count + 1;
      }
      p := q + 1;
    }
  }

  lemma NothingLaid(b: seq<byte>, field: seq<nat>)
    ensures Laid(b, field, [], 1)
  {}

  /** The head of nmea_parse. Overlong sentences are refused; else each field is a string in the copy. */
  method SplitFields(sentence: seq<byte>, ghost end: nat) returns (ok: bool, buf: array<byte>, field: array<nat>, count: nat)
    requires TextEnds(sentence, end)
    ensures ok == (|sentence| <= NMEA_MAX)
    ensures ok ==>
      var f := Fields(sentence[1..end]);
      count + 1 == |f| <= field.Length && forall k :: 0 <= k < |f| ==> StringAt(buf[..], field[k], f[k])
  {
    field := new nat[NMEA_MAX];
    count := 0;
    ok := |sentence| <= NMEA_MAX;
    if ok {
      var t;
      buf, t := EditableCopy(sentence, end);
      assert buf[1..t] == sentence[1..t] && forall k :: 1 <= k < t ==> buf[k] == buf[..t][k] == sentence[k];
      count := CutAtCommas(buf, field, t);
    } else {
      buf := new byte[0];
    }
  }

  /** A completed sentence ends, for the split, at its checksum, and its fields are those of the text
      that was summed. */
  lemma SentenceFields(x: Sentence)
    requires WellFormed(x)
    ensures var s, t := Completed(x), |Summed(x)| + 1; TextEnds(s, t) && Join(Fields(s[1..t])) == Summed(x)
  {
    hide Fields, Join, XorFold, Hex2;
    var s, t := Completed(x), |Summed(x)| + 1;
    assert s[t] == STAR && s[1..t] == Summed(x);
    forall k | 0 <= k < t ensures !Stops(s[k]) {
      if 0 < k <= |x.tag| {
        assert s[k] == x.tag[k - 1];
      } else if k > 0 {
        assert s[k] == x.text[k - 1 - |x.tag|] && Plain(x.text[k - 1 - |x.tag|]);
      }
    }
    JoinFields(Summed(x));
  }
}
