/** What the EverMore and Garmin checks accept, on a frame that ends in its only unpaired DLE. */
module DleFrames {
  import opened Bytes
  import opened Packet

  /** Only behind the last stuffed byte is there a DLE with an ETX behind it. */
  lemma AtTheEnd(s: seq<byte>, n: nat, u: seq<byte>)
    requires StuffedFrom(s, n, u)
    ensures n + 1 < |s|
    ensures s[n] == DLE && s[n + 1] == ETX <==> u == []
  {
    hide Stuff;
    if u == [] {
      StuffedEnd(s, n);
    } else {
      StuffedStep(s, n, u);
    }
  }

  /** The length byte, its data and the checksum byte, as the walks take them. */
  lemma Parts(s: seq<byte>, u: seq<byte>, count: nat)
    requires StuffedFrom(s, 2, u) && u != []
    ensures
      var head := Take(s, 2, 1);
      head.Some? && head.value.0 == [u[0]] &&
      var data := Take(s, head.value.1, count);
      if count + 2 <= |u| then
        data.Some? && data.value.0 == u[1..count + 1] &&
        var tail := Take(s, data.value.1, 1);
        tail.Some? && tail.value.0 == [u[count + 1]] &&
        var n := tail.value.1;
        n + 1 < |s| && (s[n] == DLE && s[n + 1] == ETX <==> |u| == count + 2)
      else data.None? || Take(s, data.value.1, 1).None?
  {
    hide StuffedFrom, Take;
    TakeStuffed(s, 2, u, 1);
    assert u[..1] == [u[0]];
    var n1 := Take(s, 2, 1).value.1;
    TakeStuffed(s, n1, u[1..], count);
    if count <= |u| - 1 {
      var rest := u[1..][count..];
      assert u[1..][..count] == u[1..count + 1];
      var n2 := Take(s, n1, count).value.1;
      TakeStuffed(s, n2, rest, 1);
      if rest != [] {
        assert rest[..1] == [u[count + 1]];
        AtTheEnd(s, Take(s, n2, 1).value.1, rest[1..]);
      }
    }
  }

  /** The EverMore check accepts exactly the frames whose length byte counts itself, the payload and the
      sum, and whose sum is the payload's. */
  lemma EvermoreMeaning(s: seq<byte>, u: seq<byte>)
    requires |s| >= 4 && s[0] == DLE && s[1] == STX && StuffedFrom(s, 2, u) && |u| < 0xffff_ffff
    ensures EvermoreOk(s) <==> |u| >= 2 && u[0] == |u| && u[|u| - 1] == Sum(u[1..|u| - 1]) % 256
  {
    hide StuffedFrom, Take, Sum;
    if u != [] {
      var b: int := u[0];
      Parts(s, u, if b < 2 then 0x1_0000_0000 + b - 2 else b - 2);
    } else {
      TakeStuffed(s, 2, u, 1);
    }
  }

  /** The Garmin check accepts exactly the frames whose length byte counts the data bytes, and in which
      the packet id and all stuffed bytes sum to zero. */
  lemma GarminMeaning(s: seq<byte>, u: seq<byte>)
    requires |s| >= 4 && s[0] == DLE && StuffedFrom(s, 2, u)
    ensures GarminOk(s) <==> |u| >= 2 && u[0] == |u| - 2 && (s[1] + Sum(u)) % 256 == 0
  {
    hide StuffedFrom, Take;
    if u != [] {
      Parts(s, u, u[0]);
      if |u| - 2 == u[0] {
        SumFirst(u[..|u| - 1]);
        assert u[..|u| - 1][1..] == u[1..|u| - 1];
      }
    } else {
      TakeStuffed(s, 2, u, 1);
    }
  }
}
