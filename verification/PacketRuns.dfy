/** Properties of whole runs of the lexer: how the input is cut into reads does not matter, nothing is
    invented or reordered, and one call always ends. */
module PacketRuns {
  import opened Bytes
  import opened Packet

  // ---------- chunking ----------

  /** Reading a stream in two parts, draining the first, is reading it whole. */
  lemma {:induction false} RunConcat(l: Lexer, a: seq<byte>, b: seq<byte>)
    requires Safe(l)
    ensures
      var (m, first) := Run(l, a);
      var (n, second) := Run(m, b);
      Run(l, a + b) == (n, first + second)
    decreases |l.seen| + |a|, |a|
  {
    hide OneTurn, Safe;
    if a == [] {
      assert a + b == b && [] + Run(l, b).1 == Run(l, b).1;
    } else {
      var t := OneTurn(l, a[0]);
      assert (a + b)[1..] == a[1..] + b;
      assert t.back + (a + b)[1..] == t.back + a[1..] + b;
      RunConcat(t.lexer, t.back + a[1..], b);
      var (m, first) := Run(t.lexer, t.back + a[1..]);
      assert t.out + (first + Run(m, b).1) == t.out + first + Run(m, b).1;
    }
  }

  /** One call of packet_parse is the beginning of a run. */
  lemma {:induction false} ParseIsRun(l: Lexer, pending: seq<byte>)
    requires Safe(l)
    ensures
      var (m, left, out, calls) := Parse(l, pending);
      var (n, rest) := Run(m, left);
      Run(l, pending) == (n, out + rest)
    decreases |l.seen| + |pending|, |pending|
  {
    hide OneTurn, Safe;
    if pending == [] {
      assert [] + Run(l, []).1 == Run(l, []).1;
    } else {
      var t := OneTurn(l, pending[0]);
      if t.stop {
        assert t.back + pending[1..] == pending[1..];
        assert Run(l, pending).1 == t.out + Run(t.lexer, pending[1..]).1;
      } else {
        ParseIsRun(t.lexer, t.back + pending[1..]);
        assert t.out + Run(t.lexer, t.back + pending[1..]).1 == Run(t.lexer, t.back + pending[1..]).1;
      }
    }
  }

  /** One call of packet_parse after each read: what a caller that never drains sees. */
  function Session(l: Lexer, left: seq<byte>, chunks: seq<seq<byte>>): (r: (Lexer, seq<byte>, seq<Delivery>))
    requires Safe(l)
    ensures Safe(r.0)
    decreases |chunks|
  {
    if chunks == [] then (l, left, []) else
      var (m, rest, out, calls) := Parse(l, left + chunks[0]);
      var (n, last, more) := Session(m, rest, chunks[1..]);
      (n, last, out + more)
  }

  /** Chunking independence: whatever the reads, and however far behind its input the lexer runs, what
      has been delivered together with what is still to come is what a single read of the whole stream
      delivers, and the lexer ends in the same state with the same leftover buffer. */
  lemma {:induction false} SessionIsRun(l: Lexer, left: seq<byte>, chunks: seq<seq<byte>>)
    requires Safe(l)
    ensures
      var (m, rest, out) := Session(l, left, chunks);
      var (n, more) := Run(m, rest);
      Run(l, left + Flatten(chunks)) == (n, out + more)
    decreases |chunks|
  {
    hide Run, Parse, Safe;
    if chunks == [] {
      assert left + Flatten(chunks) == left && [] + Run(l, left).1 == Run(l, left).1;
    } else {
      var input, later := left + chunks[0], Flatten(chunks[1..]);
      assert left + Flatten(chunks) == input + later;
      var (m, rest, out, calls) := Parse(l, input);
      ParseIsRun(l, input);
      RunConcat(l, input, later);
      RunConcat(m, rest, later);
      SessionIsRun(m, rest, chunks[1..]);
      var (n, last, more) := Session(m, rest, chunks[1..]);
      assert out + (more + Run(n, last).1) == out + more + Run(n, last).1;
      var middle := Run(m, rest);
      assert Run(l, input).1 + Run(middle.0, later).1 == out + (middle.1 + Run(middle.0, later).1);
    }
  }

  /** Two sessions on the same stream, drained, agree. */
  lemma ChunkingIndependent(l: Lexer, chunks: seq<seq<byte>>, chunks': seq<seq<byte>>)
    requires Safe(l) && Flatten(chunks) == Flatten(chunks')
    ensures
      var (m, rest, out) := Session(l, [], chunks);
      var (m', rest', out') := Session(l, [], chunks');
      Run(m, rest).0 == Run(m', rest').0 && out + Run(m, rest).1 == out' + Run(m', rest').1
  {
    hide Run, Session, Safe;
    SessionIsRun(l, [], chunks);
    SessionIsRun(l, [], chunks');
    assert [] + Flatten(chunks) == Flatten(chunks) == [] + Flatten(chunks');
  }

  // ---------- conservation ----------

  predicate At(f: seq<byte>, k: nat, p: seq<byte>) {
    k + |p| <= |f| && f[k..k + |p|] == p
  }

  /** `f` contains the packets one after the other, without overlap, and ends with `rest` behind them. */
  ghost predicate Carved(f: seq<byte>, packets: seq<Delivery>, rest: seq<byte>)
    decreases |packets|
  {
    if packets == [] then exists k: nat :: k <= |f| && f[k..] == rest
    else exists k: nat ::
           At(f, k, packets[0].bytes) && Carved(f[k + |packets[0].bytes|..], packets[1..], rest)
  }

  lemma CarvedShift(f: seq<byte>, n: nat, packets: seq<Delivery>, rest: seq<byte>)
    requires n <= |f| && Carved(f[n..], packets, rest)
    ensures Carved(f, packets, rest)
  {
    var g := f[n..];
    if packets == [] {
      var k: nat :| k <= |g| && g[k..] == rest;
      assert f[n + k..] == rest;
    } else {
      var p := packets[0].bytes;
      var k: nat :| At(g, k, p) && Carved(g[k + |p|..], packets[1..], rest);
      assert f[n + k..n + k + |p|] == g[k..k + |p|];
      assert At(f, n + k, p);
      assert f[n + k + |p|..] == g[k + |p|..];
    }
  }

  lemma CarvedNow(f: seq<byte>, d: Delivery, packets: seq<Delivery>, rest: seq<byte>)
    requires |d.bytes| <= |f| && f[..|d.bytes|] == d.bytes && Carved(f[|d.bytes|..], packets, rest)
    ensures Carved(f, [d] + packets, rest)
  {
    var all := [d] + packets;
    assert all[0] == d && all[1..] == packets;
    assert f[0..0 + |d.bytes|] == d.bytes;
    assert At(f, 0, all[0].bytes) && Carved(f[0 + |all[0].bytes|..], all[1..], rest);
  }

  /** One turn of the loop, if what follows it is carved from what is left. */
  lemma TurnCarves(l: Lexer, c: byte, after: seq<byte>, later: seq<Delivery>, rest: seq<byte>)
    requires Safe(l)
    requires var t := OneTurn(l, c); Carved(t.lexer.seen + t.back + after, later, rest)
    ensures Carved(l.seen + [c] + after, OneTurn(l, c).out + later, rest)
  {
    hide OneTurn, Safe, Carved;
    var t := OneTurn(l, c);
    var frame := l.seen + [c];
    var f := frame + after;
    if t.stop {
      assert t.lexer.seen + t.back + after == after == f[|frame|..];
      if t.out == [] {
        assert t.out + later == later;
        CarvedShift(f, |frame|, later, rest);
      } else {
        assert f[..|frame|] == frame;
        CarvedNow(f, t.out[0], later, rest);
        assert t.out == [t.out[0]];
      }
    } else {
      assert t.out + later == later;
      if t.lexer.seen == frame {
        assert t.lexer.seen + t.back + after == f;
      } else {
        assert t.lexer.seen + t.back + after == f[1..];
        CarvedShift(f, 1, later, rest);
      }
    }
  }

  lemma RunTurn(l: Lexer, pending: seq<byte>)
    requires Safe(l)
    ensures pending == [] ==> Run(l, pending) == (l, [])
    ensures pending != [] ==>
      var t := OneTurn(l, pending[0]);
      var rest := Run(t.lexer, t.back + pending[1..]);
      Run(l, pending) == (rest.0, t.out + rest.1)
  {
    hide OneTurn, Safe;
  }

  /** Conservation: every packet delivered is a contiguous piece of the input, the pieces are disjoint and
      in order, and the bytes still in the buffer are the end of the input behind the last of them. */
  lemma {:induction false} RunConserves(l: Lexer, pending: seq<byte>)
    requires Safe(l)
    ensures Carved(l.seen + pending, Run(l, pending).1, Run(l, pending).0.seen)
    decreases |l.seen| + |pending|, |pending|
  {
    hide OneTurn, Safe, Run;
    RunTurn(l, pending);
    if pending == [] {
      assert (l.seen + pending)[0..] == l.seen;
    } else {
      hide Carved;
      var t := OneTurn(l, pending[0]);
      var input := t.back + pending[1..];
      RunConserves(t.lexer, input);
      assert t.lexer.seen + input == t.lexer.seen + t.back + pending[1..];
      assert l.seen + pending == l.seen + [pending[0]] + pending[1..];
      TurnCarves(l, pending[0], pending[1..], Run(t.lexer, input).1, Run(t.lexer, input).0.seen);
    }
  }

  lemma ParseNext(l: Lexer, pending: seq<byte>)
    requires Safe(l)
    ensures pending == [] ==> Parse(l, pending) == (l, [], [], 0)
    ensures pending != [] ==>
      var t := OneTurn(l, pending[0]);
      var (m, left, out, calls) := Parse(l, pending);
      if t.stop then m == t.lexer && left == t.back + pending[1..] && out == t.out
      else var again := Parse(t.lexer, t.back + pending[1..]); m == again.0 && left == again.1 && out == t.out + again.2
  {
    hide OneTurn, Safe;
    if pending != [] {
      var t := OneTurn(l, pending[0]);
      if t.stop {
        assert t.back + pending[1..] == pending[1..];
      } else {
        var again := Parse(t.lexer, t.back + pending[1..]);
        assert t.out + again.2 == again.2;
      }
    }
  }

  /** The same while bytes are still unread: one call, if what follows it is carved from what is left. */
  lemma {:induction false} ParseCarves(l: Lexer, pending: seq<byte>, unread: seq<byte>, later: seq<Delivery>, rest: seq<byte>)
    requires Safe(l)
    requires var (m, left, out, calls) := Parse(l, pending); Carved(m.seen + left + unread, later, rest)
    ensures Carved(l.seen + pending + unread, Parse(l, pending).2 + later, rest)
    decreases |l.seen| + |pending|, |pending|
  {
    hide OneTurn, Safe, Carved, Parse;
    ParseNext(l, pending);
    if pending == [] {
      assert [] + later == later;
    } else {
      var t := OneTurn(l, pending[0]);
      var after := pending[1..] + unread;
      var input := t.back + pending[1..];
      assert l.seen + pending + unread == l.seen + [pending[0]] + after;
      assert t.lexer.seen + input + unread == t.lexer.seen + t.back + after;
      if t.stop {
        TurnCarves(l, pending[0], after, later, rest);
      } else {
        ParseCarves(t.lexer, input, unread, later, rest);
        var out := Parse(t.lexer, input).2;
        TurnCarves(l, pending[0], after, out + later, rest);
        assert t.out + (out + later) == t.out + out + later;
      }
    }
  }

  lemma {:induction false} SessionCarves(l: Lexer, left: seq<byte>, chunks: seq<seq<byte>>, later: seq<Delivery>, rest: seq<byte>)
    requires Safe(l)
    requires var (m, last, out) := Session(l, left, chunks); Carved(m.seen + last, later, rest)
    ensures Carved(l.seen + left + Flatten(chunks), Session(l, left, chunks).2 + later, rest)
    decreases |chunks|
  {
    hide Parse, Safe, Carved;
    if chunks == [] {
      assert l.seen + left + Flatten(chunks) == l.seen + left && [] + later == later;
    } else {
      var input, coming := left + chunks[0], Flatten(chunks[1..]);
      var (m, unread, out, calls) := Parse(l, input);
      SessionCarves(m, unread, chunks[1..], later, rest);
      var more := Session(m, unread, chunks[1..]).2;
      ParseCarves(l, input, coming, more + later, rest);
      assert l.seen + input + coming == l.seen + left + Flatten(chunks);
      assert out + (more + later) == out + more + later;
    }
  }

  /** Conservation for a caller that never drains: behind the packets delivered so far stand the bytes in
      the buffer, read and unread. */
  lemma SessionConserves(l: Lexer, left: seq<byte>, chunks: seq<seq<byte>>)
    requires Safe(l)
    ensures var (m, last, out) := Session(l, left, chunks);
            Carved(l.seen + left + Flatten(chunks), out, m.seen + last)
  {
    hide Session, Safe;
    var (m, last, out) := Session(l, left, chunks);
    var f := m.seen + last;
    assert f[0..] == f;
    assert Carved(f, [], f);
    SessionCarves(l, left, chunks, [], f);
    assert out + [] == out;
  }

  // ---------- the bound ----------

  function Triangle(n: nat): nat {
    if n == 0 then 0 else n + Triangle(n - 1)
  }

  lemma {:induction false} TriangleClosed(n: nat)
    ensures 2 * Triangle(n) == n * (n + 1)
  {
    if n > 0 {
      TriangleClosed(n - 1);
    }
  }

  lemma {:induction false} ParseCalls(l: Lexer, pending: seq<byte>)
    requires Safe(l) && pending != []
    ensures Parse(l, pending).3 <= |pending| + Triangle(|l.seen| + |pending| - 1)
    decreases |l.seen| + |pending|, |pending|
  {
    hide OneTurn, Safe;
    var t := OneTurn(l, pending[0]);
    var input := t.back + pending[1..];
    if !t.stop && input != [] {
      ParseCalls(t.lexer, input);
    }
  }

  /** One call of packet_parse with L bytes in the buffer makes at most 1 + 2 + ... + L calls of nextstate. */
  lemma ParseBound(l: Lexer, pending: seq<byte>)
    requires Safe(l)
    ensures Parse(l, pending).3 <= Triangle(|l.seen| + |pending|)
  {
    hide Safe, OneTurn;
    if pending == [] {
      assert Parse(l, pending).3 == 0;
    } else {
      hide Parse;
      ParseCalls(l, pending);
    }
  }
}
