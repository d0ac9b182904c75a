/** struct gps_packet_t and the methods of packet.c on its two buffers. */
module PacketBuffer {
  import opened Bytes
  import opened Packet
  import opened PacketShape
  import opened DleFrames
  import Isgps

  /** What a caller sees of a turn with these bytes still unread. */
  function After(t: Turn, unread: seq<byte>): (Lexer, seq<byte>, seq<Delivery>) {
    (t.lexer, t.back + unread, t.out)
  }

  /** What read returns: so many bytes, an error that asks to try again, or another one. */
  datatype Reading = Data(bytes: seq<byte>) | Again | Failed

  const BAD_PACKET: int := -1

  class GpsPacket {
    var kind: PacketType
    var state: LexState
    var length: nat
    const inbuffer: array<byte>
    var inbuflen: nat
    var inbufptr: nat
    const outbuffer: array<byte>
    var outbuflen: nat
    var char_counter: nat
    const isgps: Isgps.IsgpsDecoder

    /** The pointers stay inside the buffers. */
    ghost predicate Valid()
      reads this
    {
      && inbuffer.Length == BUFFER_SIZE && outbuffer.Length == BUFFER_SIZE && inbuffer != outbuffer
      && inbufptr <= inbuflen <= BUFFER_SIZE && outbuflen < BUFFER_SIZE
    }

    /** The lexer's state, with the part of the buffer already read. */
    ghost function Lex(): Lexer
      requires Valid()
      reads this, inbuffer, isgps, isgps.buf
    {
      Lexer(kind, state, length, isgps.State(), inbuffer[..inbufptr])
    }

    /** The part of the buffer still to be read. */
    ghost function Pending(): seq<byte>
      requires Valid()
      reads this, inbuffer
    {
      inbuffer[inbufptr..inbuflen]
    }

    ghost function Frame(): seq<byte>
      requires Valid()
      reads this, inbuffer
    {
      inbuffer[..inbufptr]
    }

    /** What a call has put in the output buffer. */
    ghost function Delivered(): seq<Delivery>
      requires Valid()
      reads this, outbuffer
    {
      if outbuflen == 0 then [] else [Delivery(kind, outbuffer[..outbuflen])]
    }

    /** Enough has been read for the state, and the buffer has the shape its state calls for. */
    ghost predicate Consistent(): (b: bool)
      requires Valid()
      reads this, inbuffer, isgps, isgps.buf
      ensures b ==> Safe(Lex())
    {
      Safe(Lex()) && Shaped(state, Frame())
    }

    constructor ()
      ensures Valid() && Consistent() && fresh(inbuffer) && fresh(outbuffer) && fresh(isgps) && fresh(isgps.buf)
      ensures state == Ground && kind == BadPacket && Frame() == [] && Pending() == []
    {
      kind := BadPacket;
      state := Ground;
      length := 0;
      inbuffer := new byte[BUFFER_SIZE](_ => 0);
      inbuflen := 0;
      inbufptr := 0;
      outbuffer := new byte[BUFFER_SIZE](_ => 0);
      outbuflen := 0;
      char_counter := 0;
      isgps := new Isgps.IsgpsDecoder();
    }

    /** packet_reset */
    method PacketReset()
      requires Valid() && Consistent()
      modifies this`kind, this`state, this`inbuflen, this`inbufptr, isgps
      ensures Valid() && Consistent() && state == Ground && kind == BadPacket && Frame() == [] && Pending() == []
      ensures Isgps.IsInit(isgps.State())
    {
      kind := BadPacket;
      state := Ground;
      inbuflen := 0;
      inbufptr := 0;
      isgps.Init();
    }

    /** packet_accept: a frame too long for the output buffer is dropped. */
    method PacketAccept(packetType: PacketType)
      requires Valid() && inbufptr > 0
      modifies this`kind, this`outbuflen, outbuffer
      ensures Valid() && Pending() == old(Pending())
      ensures if inbufptr < BUFFER_SIZE
              then Lex() == old(Lex()).(kind := packetType) && Delivered() == [Delivery(packetType, Frame())]
              else Lex() == old(Lex()) && Delivered() == old(Delivered())
    {
      var packetlen := inbufptr;
      if packetlen < outbuffer.Length {
        forall i | 0 <= i < packetlen {
          outbuffer[i] := inbuffer[i];
        }
        outbuflen := packetlen;
        outbuffer[packetlen] := 0;
        kind := packetType;
        assert outbuffer[..packetlen] == Frame();
      }
    }

    /** packet_discard: shift the input buffer down over all that has been read. */
    method PacketDiscard()
      requires Valid()
      modifies this`inbuflen, this`inbufptr, inbuffer
      ensures Valid() && Lex() == old(Lex()).(seen := [])
      ensures Pending() == old(Pending()) && Delivered() == old(Delivered())
    {
      var discard := inbufptr;
      var remaining := inbuflen - discard;
      forall i | 0 <= i < remaining {
        inbuffer[i] := inbuffer[i + discard];
      }
      inbufptr := 0;
      inbuflen := remaining;
      assert outbuffer[..outbuflen] == old(outbuffer[..outbuflen]);
    }

    /** character_discard: shift the input buffer down by one character and read it again. */
    method CharacterDiscard()
      requires Valid() && inbufptr > 0
      modifies this`inbuflen, this`inbufptr, inbuffer
      ensures Valid() && Lex() == old(Lex()).(seen := [])
      ensures Pending() == old(Frame()[1..] + Pending()) && Delivered() == old(Delivered())
    {
      inbuflen := inbuflen - 1;
      forall i | 0 <= i < inbuflen {
        inbuffer[i] := inbuffer[i + 1];
      }
      inbufptr := 0;
      assert outbuffer[..outbuflen] == old(outbuffer[..outbuflen]);
    }

    // ---------- the checks, as packet_parse makes them ----------

    /** The NMEA checksum, when the sentence has one. */
    method NmeaCheck() returns (ok: bool)
      requires Valid()
      ensures ok == NmeaOk(Frame())
    {
      hide HexDigit, ToUpper;
      ok := true;
      if inbufptr >= 5 {
        var trailer := inbufptr - 5;
        if inbuffer[trailer] == '*' as int {
          var crc := NmeaSum(trailer);
          ok := HexDigit(crc / 16) == ToUpper(inbuffer[trailer + 1])
                && HexDigit(crc % 16) == ToUpper(inbuffer[trailer + 2]);
        }
      }
    }

    method NmeaSum(trailer: nat) returns (crc: byte)
      requires Valid() && trailer <= inbufptr
      ensures crc == if trailer < 1 then 0 else XorFold(0, Frame()[1..trailer])
    {
      hide Xor8;
      var n := 1;
      crc := 0;
      while n < trailer
        invariant trailer >= 1 ==> n <= trailer && crc == XorFold(0, Frame()[1..n])
        invariant trailer < 1 ==> crc == 0
      {
        assert Frame()[1..n + 1][..n - 1] == Frame()[1..n];
        crc := Xor8(crc, inbuffer[n]);
        n := n + 1;
      }
    }

    method SirfCheck() returns (ok: bool)
      requires Valid() && inbufptr >= 4
      ensures ok == SirfOk(Frame())
    {
      var trailer := inbufptr - 4;
      var checksum := (inbuffer[trailer] as int) * 256 + inbuffer[trailer + 1];
      var n, crc: int := 4, 0;
      while n < trailer
        invariant 4 <= n && (n <= trailer || n == 4)
        invariant crc == if trailer < 4 then 0 else Sum(Frame()[4..n])
      {
        assert Frame()[4..n + 1][..n - 4] == Frame()[4..n];
        crc := crc + inbuffer[n];
        n := n + 1;
      }
      crc := crc % 0x8000;
      ok := checksum == crc;
    }

    method UbxCheck() returns (ok: bool)
      requires Valid() && inbufptr >= 4
      ensures ok == UbxOk(Frame())
    {
      hide FletcherA, FletcherB;
      var len := inbufptr;
      FletcherEmpty();
      assert Frame()[2..2] == [];
      var a: byte, b: byte := 0, 0;
      var n := 2;
      while n < len - 2
        invariant 2 <= n <= len - 2
        invariant a == FletcherA(Frame()[2..n]) && b == FletcherB(Frame()[2..n])
      {
        FletcherNext(Frame()[2..n], inbuffer[n]);
        assert Frame()[2..n + 1] == Frame()[2..n] + [inbuffer[n]];
        a := (a + inbuffer[n]) % 256;
        b := (b + a) % 256;
        n := n + 1;
      }
      ok := a == inbuffer[len - 2] && b == inbuffer[len - 1];
    }

    /** One byte of a stuffed frame, and where the next one starts. The index is not checked: callers
        know the frame to go on for two more bytes. */
    method ReadStuffed(n: nat) returns (got: Option<byte>, m: nat)
      requires Valid() && n + 1 < inbufptr
      ensures var b := inbuffer[n];
              if b != DLE then got == Some(b) && m == n + 1
              else if inbuffer[n + 1] == DLE then got == Some(DLE) && m == n + 2
              else got == None
    {
      m := n + 1;
      if inbuffer[n] == DLE {
        if inbuffer[m] != DLE {
          return None, m;
        }
        m := m + 1;
      }
      got := Some(inbuffer[n]);
    }

    /** The walk over a frame's data bytes, which sums them. */
    method ReadData(n: nat, count: nat, ghost u: seq<byte>) returns (sum: Option<nat>, m: nat)
      requires Valid() && StuffedFrom(Frame(), n, u)
      ensures sum == if count <= |u| then Some(Sum(u[..count])) else None
      ensures count <= |u| ==> StuffedFrom(Frame(), m, u[count..])
    {
      hide StuffedFrom;
      var total: nat := 0;
      m := n;
      for i := 0 to count
        invariant i <= |u| && StuffedFrom(Frame(), m, u[i..]) && total == Sum(u[..i])
      {
        OneStuffed(Frame(), m, u[i..]);
        var got, next := ReadStuffed(m);
        if got == None {
          return None, next;
        }
        assert u[..i + 1][..i] == u[..i];
        total := total + got.value;
        m := next;
      }
      sum := Some(total);
    }

    /** The EverMore check. */
    method EvermoreCheck() returns (ok: bool)
      requires Valid() && inbufptr >= 4 && Walkable(Frame())
      ensures ok == EvermoreOk(Frame())
    {
      hide EvermoreOk, StuffedFrom, Sum;
      if inbuffer[0] != DLE || inbuffer[1] != STX {
        NoHead(Frame());
        return false;
      }
      ghost var u: seq<byte> :| StuffedFrom(Frame(), 2, u);
      StuffedSize(Frame(), 2, u);
      EvermoreMeaning(Frame(), u);
      OneStuffed(Frame(), 2, u);
      var len, n := ReadStuffed(2);
      if len == None {
        return false;
      }
      var b: int := len.value;
      var count: nat := if b < 2 then 0x1_0000_0000 + b - 2 else b - 2;
      var crc, m := ReadData(n, count, u[1..]);
      if crc == None {
        return false;
      }
      assert u != [] && count <= |u[1..]| == |u| - 1;
      assert u[1..][..count] == u[1..count + 1];
      OneStuffed(Frame(), m, u[1..][count..]);
      var checksum, k := ReadStuffed(m);
      if checksum == None {
        return false;
      }
      AtTheEnd(Frame(), k, u[1..][count..][1..]);
      ok := inbuffer[k] == DLE && inbuffer[k + 1] == ETX && crc.value % 256 == checksum.value;
    }

    /** The Garmin check. */
    method GarminCheck() returns (ok: bool)
      requires Valid() && inbufptr >= 4 && Walkable(Frame())
      ensures ok == GarminOk(Frame())
    {
      hide GarminOk, StuffedFrom;
      if inbuffer[0] != DLE {
        assert false;
      }
      var len, n := ReadStuffed(2);
      if len == None {
        NoLength(Frame());
        return false;
      }
      ghost var u: seq<byte> :| StuffedFrom(Frame(), 2, u);
      GarminMeaning(Frame(), u);
      OneStuffed(Frame(), 2, u);
      var data, m := ReadData(n, len.value, u[1..]);
      if data == None {
        return false;
      }
      OneStuffed(Frame(), m, u[1..][len.value..]);
      var checksum, k := ReadStuffed(m);
      if checksum == None {
        return false;
      }
      AtTheEnd(Frame(), k, u[1..][len.value..][1..]);
      if |u| - 2 == len.value {
        GarminSum(u);
        assert u[1..][..len.value] == u[1..|u| - 1];
      }
      ok := inbuffer[k] == DLE && inbuffer[k + 1] == ETX
            && (len.value + inbuffer[1] as int + data.value + checksum.value) % 256 == 0;
    }

    /** The running exclusive or of a Navcom frame, up to the byte before the last one read. */
    method NavcomCheck() returns (csum: byte)
      requires Valid() && inbufptr >= 5
      ensures csum == NavcomSum(inbuffer[..inbufptr - 1])
    {
      hide Xor8;
      ghost var seen := inbuffer[..inbufptr - 1];
      csum := inbuffer[3];
      var n := 4;
      assert seen[4..4] == [];
      while n < inbufptr - 1
        invariant 4 <= n <= inbufptr - 1
        invariant csum == XorFold(seen[3], seen[4..n])
      {
        assert seen[4..n + 1][..n - 4] == seen[4..n];
        csum := Xor8(csum, inbuffer[n]);
        n := n + 1;
      }
      assert seen[4..n] == seen[4..];
    }

    // ---------- reading ----------

    /** The lexer as it was before the character just read. */
    ghost function Before(): Lexer
      requires Valid() && inbufptr > 0
      reads this, inbuffer, isgps, isgps.buf
    {
      Lexer(kind, state, length, isgps.State(), inbuffer[..inbufptr - 1])
    }

    /** The RTCM decoder's part in nextstate. */
    method Feed(c: byte) returns (stat: Isgps.Status)
      requires Valid() && inbufptr > 0 && Isgps.InBounds(isgps.State())
      modifies isgps, isgps.buf
      ensures (isgps.State(), stat) == RtcmTurn(old(Before()), c)
    {
      hide Isgps.Step, Isgps.InBounds, FeedsRtcm, Isgps.IsgpsDecoder.State;
      stat := Isgps.Skip;
      if FeedsRtcm(state, c) {
        stat := isgps.Decode(AsWord(c));
      }
    }

    /** nextstate, on the character just read. */
    method NextState(c: byte)
      requires Valid() && inbufptr > 0 && c == inbuffer[inbufptr - 1] && Safe(Before())
      modifies this`state, this`length, isgps, isgps.buf
      ensures Valid() && Lex() == Advanced(old(Before()), c)
    {
      hide RtcmTurn, NavcomSum, Isgps.InBounds, Isgps.IsgpsDecoder.State;
      ghost var l := Before();
      NavcomPayloadSeen(state, l.seen);
      var stat := Feed(c);
      if state == NavcomPayload {
        var csum := NavcomCheck();
        state := if csum == c then NavcomCsum else Ground;
      } else {
        hide Packet.NextState;
        var next := Packet.NextState(state, length, inbuffer[..inbufptr - 1], c, stat);
        state, length := next.0, next.1;
      }
      assert Frame() == l.seen + [c];
    }

    /** Lexer, unread bytes and output, as a caller sees them. */
    ghost function View(): (Lexer, seq<byte>, seq<Delivery>)
      requires Valid()
      reads this, inbuffer, outbuffer, isgps, isgps.buf
    {
      (Lex(), Pending(), Delivered())
    }

    /** Move the frame to the output buffer, shift it out of the input buffer, and go on from `after`. */
    method Grab(packetType: PacketType, after: LexState)
      requires Valid() && inbufptr > 0 && outbuflen == 0
      modifies this`kind, this`state, this`outbuflen, this`inbuflen, this`inbufptr, inbuffer, outbuffer
      ensures Valid()
      ensures var t := Settle(old(Lex()).(state := after), Accept(packetType)); View() == After(t, old(Pending())) && t.stop
    {
      hide Isgps.IsgpsDecoder.State;
      assert [] + Pending() == Pending();
      state := after;
      PacketAccept(packetType);
      PacketDiscard();
    }

    /** Shift the frame out of the input buffer and start over. */
    method Drop()
      requires Valid() && inbufptr > 0 && outbuflen == 0
      modifies this`state, this`inbuflen, this`inbufptr, inbuffer
      ensures Valid()
      ensures var t := Settle(old(Lex()).(state := Ground), Discard); View() == After(t, old(Pending())) && t.stop
    {
      hide Isgps.IsgpsDecoder.State;
      assert [] + Pending() == Pending();
      state := Ground;
      PacketDiscard();
    }

    /** The check that goes with the state, and the type of the packets that pass it. */
    method Check() returns (ok: bool, packetType: PacketType)
      requires Valid() && IsChecked(state, inbufptr) && (Framed(state) ==> inbufptr >= 4)
      requires state == EvermoreRecognized || state == TsipRecognized ==> Walkable(Frame())
      ensures Judge(kind, state, Frame()) == if ok then (Accept(packetType), state) else (Discard, Ground)
    {
      hide NmeaOk, SirfOk, UbxOk, EvermoreOk, GarminOk, TsipOk, Walkable;
      if state == NmeaRecognized {
        packetType := NmeaPacket;
        ok := NmeaCheck();
      } else if state == SirfRecognized {
        packetType := SirfPacket;
        ok := SirfCheck();
      } else if state == TsipRecognized {
        packetType := GarminPacket;
        ok := false;
        if kind != TsipPacket {
          ok := GarminCheck();
        }
        if !ok {
          packetType := TsipPacket;
          ok := TsipOk(inbuffer[1], inbufptr);
        }
      } else if state == UbxRecognized {
        packetType := UbxPacket;
        ok := UbxCheck();
      } else {
        packetType := EvermorePacket;
        ok := EvermoreCheck();
      }
    }

    /** What packet_parse does about the state nextstate has reached. */
    method Act() returns (stop: bool)
      requires Valid() && inbufptr > 0 && outbuflen == 0
      requires EnoughSeen(state, inbufptr) && Isgps.InBounds(Lex().rtcm)
      requires state == EvermoreRecognized || state == TsipRecognized ==> Walkable(Frame())
      modifies this, inbuffer, outbuffer
      ensures Valid() && char_counter == old(char_counter)
      ensures var t := Verdict(old(Lex())); View() == After(t, old(Pending())) && stop == t.stop
    {
      ghost var m := Lex();
      VerdictIs(m);
      hide Judge, Walkable, Verdict;
      if IsChecked(state, inbufptr) {
        var ok, packetType := Check();
        assert state == m.state && Judge(m.kind, m.state, m.seen) == if ok then (Accept(packetType), state) else (Discard, Ground);
        hide *;
        stop := true;
        if ok {
          Grab(packetType, state);
        } else {
          Drop();
        }
      } else {
        assert state == m.state && Verdict(m) == Settle(m.(state := Unchecked(state).1), Unchecked(state).0);
        hide *;
        stop := ActUnchecked();
      }
    }

    /** The states that call for no check. */
    method ActUnchecked() returns (stop: bool)
      requires Valid() && inbufptr > 0 && outbuflen == 0
      modifies this, inbuffer, outbuffer
      ensures Valid() && char_counter == old(char_counter)
      ensures
        var (action, after) := Unchecked(old(state));
        var t := Settle(old(Lex()).(state := after), action);
        View() == After(t, old(Pending())) && stop == t.stop
    {
      stop := state == CommentRecognized || state == NavcomRecognized || state == RtcmRecognized;
      if stop {
        if state == CommentRecognized {
          assert Unchecked(state) == (Accept(CommentPacket), Ground);
          hide *;
          Grab(CommentPacket, Ground);
        } else if state == NavcomRecognized {
          assert Unchecked(state) == (Accept(NavcomPacket), state);
          hide *;
          Grab(NavcomPacket, state);
        } else {
          assert Unchecked(state) == (Accept(RtcmPacket), RtcmSync);
          hide *;
          Grab(RtcmPacket, RtcmSync);
        }
      } else {
        ReadOnOrRestart();
      }
    }

    method ReadOnOrRestart()
      requires Valid() && inbufptr > 0 && outbuflen == 0
      requires state != CommentRecognized && state != NavcomRecognized && state != RtcmRecognized
      modifies this, inbuffer
      ensures Valid() && char_counter == old(char_counter)
      ensures
        var (action, after) := Unchecked(old(state));
        var t := Settle(old(Lex()).(state := after), action);
        View() == After(t, old(Pending())) && !t.stop
    {
      hide Isgps.IsgpsDecoder.State;
      if state == Ground {
        CharacterDiscard();
      } else {
        if state == TsipRecognized {
          state := Ground;
        }
        assert Frame() == old(Frame()) && [] + Pending() == old(Pending()) && outbuffer[..] == old(outbuffer[..]);
      }
    }

    /** The first half of a turn of the loop in packet_parse: read a character. */
    method Advance()
      requires Valid() && Consistent() && inbufptr < inbuflen
      modifies this`inbufptr, this`state, this`length, this`char_counter, isgps, isgps.buf
      ensures Valid() && inbufptr == old(inbufptr) + 1 && char_counter == old(char_counter) + 1
      ensures Lex() == Advanced(old(Lex()), old(Pending()[0])) && Pending() == old(Pending()[1..])
    {
      ghost var l := Lex();
      var c := inbuffer[inbufptr];
      inbufptr := inbufptr + 1;
      assert inbuffer[..inbufptr - 1] == l.seen;
      hide Isgps.IsgpsDecoder.State, Advanced, Safe, Shaped;
      NextState(c);
      char_counter := char_counter + 1;
    }

    /** One turn of the loop in packet_parse. */
    method OneCharacter() returns (stop: bool)
      requires Valid() && Consistent() && inbufptr < inbuflen && outbuflen == 0
      modifies this, inbuffer, outbuffer, isgps, isgps.buf
      ensures Valid() && Consistent() && char_counter == old(char_counter) + 1
      ensures var t := OneTurn(old(Lex()), old(Pending()[0])); View() == After(t, old(Pending()[1..])) && stop == t.stop
    {
      ghost var l, c := Lex(), Pending()[0];
      AdvancedShape(l, c);
      OneTurnShape(l, c);
      hide Isgps.IsgpsDecoder.State, Advanced, Verdict, Safe, Shaped, MaybeRunt, Walkable, EnoughSeen, Isgps.InBounds;
      Advance();
      if state == EvermoreRecognized || state == TsipRecognized {
        RecognizedIsWalkable(state, Frame());
      }
      stop := Act();
    }

    /** The loop in packet_parse. */
    method Scan()
      requires Valid() && Consistent() && outbuflen == 0
      modifies this, inbuffer, outbuffer, isgps, isgps.buf
      ensures Valid() && Consistent()
      ensures Parse(old(Lex()), old(Pending())) == (Lex(), Pending(), Delivered(), char_counter - old(char_counter))
    {
      hide Isgps.IsgpsDecoder.State, Parse, OneTurn, Safe, Consistent;
      ghost var l0, all, start := Lex(), Pending(), char_counter;
      var stop := false;
      while inbufptr < inbuflen && !stop
        invariant Valid() && Consistent() && char_counter >= start && (!stop ==> outbuflen == 0)
        invariant Parse(l0, all) == Later(if stop then (Lex(), Pending(), Delivered(), 0) else Parse(Lex(), Pending()), char_counter - start)
        decreases inbuflen, inbuflen - inbufptr, !stop
      {
        ParseTurn(Lex(), Pending(), char_counter - start);
        stop := OneCharacter();
      }
      ParseTurn(Lex(), Pending(), char_counter - start);
    }

    /** packet_parse, on `fix` new bytes behind those left over. */
    method PacketParse(fix: nat) returns (result: nat)
      requires Valid() && Consistent() && inbuflen + fix <= BUFFER_SIZE
      modifies this, inbuffer, outbuffer, isgps, isgps.buf
      ensures Valid() && Consistent() && result == fix
      ensures
        Parse(old(Lex()), old(inbuffer[inbufptr..inbuflen + fix]))
        == (Lex(), Pending(), Delivered(), char_counter - old(char_counter))
    {
      hide Isgps.IsgpsDecoder.State, Parse, Safe, Shaped;
      ghost var l0, all := Lex(), inbuffer[inbufptr..inbuflen + fix];
      outbuflen := 0;
      inbuflen := inbuflen + fix;
      assert Frame() == l0.seen && Lex() == l0 && Pending() == all;
      Scan();
      result := fix;
    }

    /** packet_get, where read on the descriptor comes to `got`. With nothing to read, or on a failure, all
        is left as it was. */
    method PacketGet(got: Reading) returns (result: int)
      requires Valid() && Consistent() && (got.Data? ==> inbuflen + |got.bytes| <= BUFFER_SIZE)
      modifies this, inbuffer, outbuffer, isgps, isgps.buf
      ensures Valid() && Consistent()
      ensures result == match got case Data(bytes) => |bytes| case Again => 0 case Failed => BAD_PACKET
      ensures got == Data([]) || !got.Data? ==> View() == old(View()) && char_counter == old(char_counter)
      ensures got.Data? && got.bytes != [] ==>
        Parse(old(Lex()), old(Pending()) + got.bytes)
        == (Lex(), Pending(), Delivered(), char_counter - old(char_counter))
    {
      hide Isgps.IsgpsDecoder.State, Parse, Safe, Shaped;
      if got.Again? {
        return 0;
      } else if got.Failed? {
        return BAD_PACKET;
      }
      var data := got.bytes;
      forall i | 0 <= i < |data| {
        inbuffer[inbuflen + i] := data[i];
      }
      assert Frame() == old(Frame()) && outbuffer[..] == old(outbuffer[..]);
      assert inbuffer[inbufptr..inbuflen + |data|] == old(Pending()) + data;
      if data == [] {
        return 0;
      }
      result := PacketParse(|data|);
    }
  }

  /** The outcome of a call that has made `n` calls of nextstate before. */
  function Later(p: (Lexer, seq<byte>, seq<Delivery>, nat), n: nat): (Lexer, seq<byte>, seq<Delivery>, nat) {
    (p.0, p.1, p.2, p.3 + n)
  }

  lemma ParseTurn(l: Lexer, pending: seq<byte>, n: nat)
    requires Safe(l)
    ensures pending == [] ==> Later(Parse(l, pending), n) == (l, [], [], n)
    ensures pending != [] ==>
      var t := OneTurn(l, pending[0]);
      Later(Parse(l, pending), n) ==
        if t.stop then (t.lexer, t.back + pending[1..], t.out, n + 1)
        else Later(Parse(t.lexer, t.back + pending[1..]), n + 1)
    ensures pending != [] ==> var t := OneTurn(l, pending[0]); !t.stop ==> t.out == []
  {
    hide OneTurn, Safe;
    if pending != [] {
      assert OneTurn(l, pending[0]).stop ==> OneTurn(l, pending[0]).back + pending[1..] == pending[1..];
    }
  }

  lemma FletcherEmpty()
    ensures FletcherA([]) == 0 && FletcherB([]) == 0
  {}

  lemma FletcherNext(s: seq<byte>, c: byte)
    ensures FletcherA(s + [c]) == (FletcherA(s) + c) % 256
    ensures FletcherB(s + [c]) == (FletcherB(s) + FletcherA(s + [c])) % 256
  {
    assert (s + [c])[..|s|] == s;
  }

  lemma VerdictIs(m: Lexer)
    requires m.seen != [] && EnoughSeen(m.state, |m.seen|) && Isgps.InBounds(m.rtcm)
    ensures var (action, after) := Judge(m.kind, m.state, m.seen); Verdict(m) == Settle(m.(state := after), action)
  {
    hide Judge, MinSeen, Settle, Isgps.InBounds;
  }

  lemma OneStuffed(s: seq<byte>, n: nat, u: seq<byte>)
    requires StuffedFrom(s, n, u)
    ensures n + 1 < |s|
    ensures u == [] ==> s[n] == DLE && s[n + 1] == ETX
    ensures u != [] ==>
      s[n] == u[0] && (s[n] == DLE ==> s[n + 1] == DLE) && StuffedFrom(s, if s[n] == DLE then n + 2 else n + 1, u[1..])
  {
    if u == [] {
      StuffedEnd(s, n);
    } else {
      StuffedStep(s, n, u);
    }
  }

  lemma GarminSum(u: seq<byte>)
    requires |u| >= 2
    ensures Sum(u) == u[0] as int + Sum(u[1..|u| - 1]) + u[|u| - 1] as int
  {
    SumFirst(u[..|u| - 1]);
    assert u[..|u| - 1][1..] == u[1..|u| - 1];
  }

  lemma StuffedSize(s: seq<byte>, n: nat, u: seq<byte>)
    requires StuffedFrom(s, n, u)
    ensures |u| + 2 <= |s|
  {
    assert |s[n..]| >= 2 + |u|;
  }

  lemma NoHead(s: seq<byte>)
    requires |s| >= 4 && (s[0] != DLE || s[1] != STX)
    ensures !EvermoreOk(s)
  {}

  lemma NoLength(s: seq<byte>)
    requires |s| >= 4 && s[2] == DLE && s[3] != DLE
    ensures !GarminOk(s)
  {
    assert Take(s, 2, 1) == None;
  }
}
