/** Fixed-length frame assembly from a serial port whose reads deliver
    arbitrary chunks, may time out, and are bounded by an overall deadline.

    The port and the clock are replaced by a script: one `Step` per pass of the
    assembly loop, holding the elapsed time the deadline check sees on that
    pass and what the port's read then returns. A script that ends before the
    frame is complete stands for a port that delivers nothing more until the
    deadline passes. */
module FramedReader {
  import opened Base

  /** The overall deadline a sensor reply is read under. */
  const OverallTimeoutMs: int := 1000

  /** What one read of the port returns: some bytes (possibly none), or a
      per-read timeout. */
  datatype ReadResult = Chunk(bytes: seq<Byte>) | TimedOut

  /** One pass of the loop: milliseconds elapsed since the call began, as the
      deadline check reads them, and the read that follows if it passes. */
  datatype Step = Step(elapsed: int, read: ReadResult)

  function Payload(r: ReadResult): seq<Byte>
  {
    match r
    case Chunk(bytes) => bytes
    case TimedOut => []
  }

  /** Every byte the script's reads deliver, in arrival order. */
  function Stream(script: seq<Step>): seq<Byte>
  {
    if script == [] then []
    else Stream(script[..|script| - 1]) + Payload(script[|script| - 1].read)
  }

  /** The first pass whose deadline check fails (or the end of the script). */
  function DeadlineIndex(script: seq<Step>, timeoutMs: int): (d: nat)
    ensures d <= |script|
    ensures forall j :: 0 <= j < d ==> script[j].elapsed <= timeoutMs
    ensures d < |script| ==> script[d].elapsed > timeoutMs
  {
    if script == [] || script[0].elapsed > timeoutMs then 0
    else 1 + DeadlineIndex(script[1..], timeoutMs)
  }

  /** The bytes that arrive before the deadline check first fails. */
  function Received(script: seq<Step>, timeoutMs: int): seq<Byte>
  {
    Stream(script[..DeadlineIndex(script, timeoutMs)])
  }

  function Min(a: int, b: int): int { if a < b then a else b }

  lemma {:induction false} StreamAppend(a: seq<Step>, b: seq<Step>)
    ensures Stream(a + b) == Stream(a) + Stream(b)
    decreases |b|
  {
    if b == [] {
      assert a + b == a;
    } else {
      var front, last := b[..|b| - 1], b[|b| - 1];
      var ab := a + b;
      assert ab[..|ab| - 1] == a + front;
      assert ab[|ab| - 1] == last;
      StreamAppend(a, front);
      calc {
        Stream(ab);
        Stream(a + front) + Payload(last.read);
        Stream(a) + Stream(front) + Payload(last.read);
        Stream(a) + (Stream(front) + Payload(last.read));
        Stream(a) + Stream(b);
      }
    }
  }

  /** What arrives during the first `i` passes is a prefix of what arrives
      during the first `k`. */
  lemma StreamPrefix(script: seq<Step>, i: nat, k: nat)
    requires i <= k <= |script|
    ensures Stream(script[..k]) == Stream(script[..i]) + Stream(script[i..k])
  {
    assert script[..k] == script[..i] + script[i..k];
    StreamAppend(script[..i], script[i..k]);
  }

  /** The deadline index is the only index before which every pass is in
      time and at which (unless the script has ended) a pass is late. */
  lemma {:induction false} DeadlineIsFirstLate(script: seq<Step>, timeoutMs: int, d: nat)
    requires d <= |script|
    requires forall j :: 0 <= j < d ==> script[j].elapsed <= timeoutMs
    requires d < |script| ==> script[d].elapsed > timeoutMs
    ensures DeadlineIndex(script, timeoutMs) == d
  {
    if d > 0 {
      assert script[0].elapsed <= timeoutMs;
      var rest := script[1..];
      forall j | 0 <= j < d - 1 ensures rest[j].elapsed <= timeoutMs {
        assert rest[j] == script[j + 1];
      }
      DeadlineIsFirstLate(rest, timeoutMs, d - 1);
    }
  }

  /** If every pass is in time, everything the reads deliver is received. */
  lemma InTimeReceivesAll(script: seq<Step>, timeoutMs: int)
    requires forall j :: 0 <= j < |script| ==> script[j].elapsed <= timeoutMs
    ensures Received(script, timeoutMs) == Stream(script)
  {
    DeadlineIsFirstLate(script, timeoutMs, |script|);
    assert script[..|script|] == script;
  }

  /** Running one script after another: the deadline of the whole is the first
      failed check of either part. */
  lemma DeadlineAppend(a: seq<Step>, b: seq<Step>, timeoutMs: int)
    ensures DeadlineIndex(a + b, timeoutMs) ==
      if DeadlineIndex(a, timeoutMs) < |a| then DeadlineIndex(a, timeoutMs)
      else |a| + DeadlineIndex(b, timeoutMs)
  {
    var da, db := DeadlineIndex(a, timeoutMs), DeadlineIndex(b, timeoutMs);
    var ab := a + b;
    if da < |a| {
      forall j | 0 <= j < da ensures ab[j].elapsed <= timeoutMs {
        assert ab[j] == a[j];
      }
      assert ab[da] == a[da];
      DeadlineIsFirstLate(ab, timeoutMs, da);
    } else {
      var d := |a| + db;
      forall j | 0 <= j < d ensures ab[j].elapsed <= timeoutMs {
        if j < |a| {
          assert ab[j] == a[j];
        } else {
          assert ab[j] == b[j - |a|];
        }
      }
      if d < |ab| {
        assert ab[d] == b[db];
      }
      DeadlineIsFirstLate(ab, timeoutMs, d);
    }
  }

  /** A script whose deadline falls within `a` receives only what `a` does. */
  lemma ReceivedAppendLate(a: seq<Step>, b: seq<Step>, timeoutMs: int)
    requires DeadlineIndex(a, timeoutMs) < |a|
    ensures Received(a + b, timeoutMs) == Received(a, timeoutMs)
  {
    var da := DeadlineIndex(a, timeoutMs);
    DeadlineAppend(a, b, timeoutMs);
    assert (a + b)[..da] == a[..da];
  }

  /** A script that passes every check in `a` receives all of `a`, then what
      `b` receives on its own. */
  lemma ReceivedAppendInTime(a: seq<Step>, b: seq<Step>, timeoutMs: int)
    requires DeadlineIndex(a, timeoutMs) == |a|
    ensures Received(a + b, timeoutMs) == Stream(a) + Received(b, timeoutMs)
  {
    var db := DeadlineIndex(b, timeoutMs);
    var ab := a + b;
    var d := DeadlineIndex(ab, timeoutMs);
    assert d == |a| + db by {
      DeadlineAppend(a, b, timeoutMs);
    }
    assert ab[..d] == a + b[..db];
    StreamAppend(a, b[..db]);
  }

  lemma StreamOne(s: Step)
    ensures Stream([s]) == Payload(s.read)
  {
    assert [s][..0] == [];
  }

  /** The deadline of a single pass. */
  lemma DeadlineOne(s: Step, timeoutMs: int)
    ensures DeadlineIndex([s], timeoutMs) == if s.elapsed <= timeoutMs then 1 else 0
  {
    if s.elapsed <= timeoutMs {
      assert [s][1..] == [];
    }
  }

  /** A script that begins with a pass in time receives that pass's bytes
      first. */
  lemma ReceivedFirstInTime(s: Step, post: seq<Step>, timeoutMs: int)
    requires s.elapsed <= timeoutMs
    ensures Received([s] + post, timeoutMs) == Payload(s.read) + Received(post, timeoutMs)
  {
    assert DeadlineIndex([s], timeoutMs) == 1 by {
      DeadlineOne(s, timeoutMs);
    }
    ReceivedAppendInTime([s], post, timeoutMs);
    StreamOne(s);
  }

  /** A script that begins with a late pass receives nothing. */
  lemma ReceivedFirstLate(s: Step, post: seq<Step>, timeoutMs: int)
    requires s.elapsed > timeoutMs
    ensures Received([s] + post, timeoutMs) == []
  {
    assert DeadlineIndex([s] + post, timeoutMs) == 0;
  }

  lemma ChunkSplitInTime(post: seq<Step>, elapsed: int, x: seq<Byte>, y: seq<Byte>, timeoutMs: int)
    requires elapsed <= timeoutMs
    ensures Received([Step(elapsed, Chunk(x + y))] + post, timeoutMs) ==
            x + Received([Step(elapsed, Chunk(y))] + post, timeoutMs)
  {
    var sy, sxy := Step(elapsed, Chunk(y)), Step(elapsed, Chunk(x + y));
    ReceivedFirstInTime(sxy, post, timeoutMs);
    ReceivedFirstInTime(sy, post, timeoutMs);
    AppendRegroup(Received([sxy] + post, timeoutMs), Received([sy] + post, timeoutMs), x, y, Received(post, timeoutMs));
  }

  lemma AppendRegroup(a: seq<Byte>, b: seq<Byte>, x: seq<Byte>, y: seq<Byte>, rest: seq<Byte>)
    requires a == x + y + rest && b == y + rest
    ensures a == x + b
  {
  }

  lemma ChunkSplitAtFront(post: seq<Step>, elapsed: int, x: seq<Byte>, y: seq<Byte>, timeoutMs: int)
    ensures Received([Step(elapsed, Chunk(x + y))] + post, timeoutMs) ==
            Received([Step(elapsed, Chunk(x))] + ([Step(elapsed, Chunk(y))] + post), timeoutMs)
  {
    var sx, sy, sxy := Step(elapsed, Chunk(x)), Step(elapsed, Chunk(y)), Step(elapsed, Chunk(x + y));
    if elapsed <= timeoutMs {
      ChunkSplitInTime(post, elapsed, x, y, timeoutMs);
      ReceivedFirstInTime(sx, [sy] + post, timeoutMs);
    } else {
      ReceivedFirstLate(sxy, post, timeoutMs);
      ReceivedFirstLate(sx, [sy] + post, timeoutMs);
    }
  }

  /** Chunking independence: splitting one read's bytes over two reads at the
      same moment changes nothing that is received. */
  lemma ChunkSplitInvisible(pre: seq<Step>, post: seq<Step>, elapsed: int, x: seq<Byte>, y: seq<Byte>, timeoutMs: int)
    ensures Received(pre + [Step(elapsed, Chunk(x + y))] + post, timeoutMs) ==
            Received(pre + [Step(elapsed, Chunk(x)), Step(elapsed, Chunk(y))] + post, timeoutMs)
  {
    var sx, sy, sxy := Step(elapsed, Chunk(x)), Step(elapsed, Chunk(y)), Step(elapsed, Chunk(x + y));
    var whole, split := [sxy] + post, [sx] + ([sy] + post);
    assert pre + [sxy] + post == pre + whole;
    assert pre + [sx, sy] + post == pre + split;
    if DeadlineIndex(pre, timeoutMs) < |pre| {
      ReceivedAppendLate(pre, whole, timeoutMs);
      ReceivedAppendLate(pre, split, timeoutMs);
    } else {
      ReceivedAppendInTime(pre, whole, timeoutMs);
      ReceivedAppendInTime(pre, split, timeoutMs);
      ChunkSplitAtFront(post, elapsed, x, y, timeoutMs);
    }
  }

  /** A pass that reads nothing (a per-read timeout or a zero-byte read) before
      the deadline changes nothing that is received. */
  lemma IdlePassInvisible(pre: seq<Step>, post: seq<Step>, idle: Step, timeoutMs: int)
    requires idle.elapsed <= timeoutMs
    requires Payload(idle.read) == []
    ensures Received(pre + [idle] + post, timeoutMs) == Received(pre + post, timeoutMs)
  {
    assert pre + [idle] + post == pre + ([idle] + post);
    if DeadlineIndex(pre, timeoutMs) < |pre| {
      ReceivedAppendLate(pre, [idle] + post, timeoutMs);
      ReceivedAppendLate(pre, post, timeoutMs);
    } else {
      ReceivedFirstInTime(idle, post, timeoutMs);
      ReceivedAppendInTime(pre, [idle] + post, timeoutMs);
      ReceivedAppendInTime(pre, post, timeoutMs);
    }
  }

  /** Nothing delivered from a late pass on is ever received. */
  lemma LateBytesIgnored(script: seq<Step>, j: nat, timeoutMs: int)
    requires j < |script| && script[j].elapsed > timeoutMs
    ensures Received(script, timeoutMs) == Received(script[..j], timeoutMs)
  {
    var pre, rest := script[..j], script[j..];
    assert script == pre + rest;
    if DeadlineIndex(pre, timeoutMs) < |pre| {
      ReceivedAppendLate(pre, rest, timeoutMs);
    } else {
      ReceivedAppendInTime(pre, rest, timeoutMs);
      assert rest[0] == script[j];
      assert DeadlineIndex(rest, timeoutMs) == 0;
      assert rest[..0] == [];
      assert pre[..|pre|] == pre;
    }
  }

  lemma StreamStep(script: seq<Step>, i: nat)
    requires i < |script|
    ensures Stream(script[..i + 1]) == Stream(script[..i]) + Payload(script[i].read)
  {
    assert script[..i + 1][..i] == script[..i];
  }

  /** Once the first `i` passes, all in time, have delivered `count` bytes,
      the first `count` bytes received in time are exactly those. */
  lemma FilledInTime(script: seq<Step>, timeoutMs: int, i: nat, count: nat)
    requires i <= DeadlineIndex(script, timeoutMs)
    requires count <= |Stream(script[..i])|
    ensures count <= |Received(script, timeoutMs)|
    ensures Received(script, timeoutMs)[..count] == Stream(script[..i])[..count]
  {
    StreamPrefix(script, i, DeadlineIndex(script, timeoutMs));
  }

  /** One read of `bytes` on pass `i`, into a buffer that holds the first
      `|got|` bytes of the stream so far and is not yet full, leaves it holding
      the first bytes of the stream one pass later, as many as fit. */
  lemma ChunkStep(script: seq<Step>, i: nat, count: nat, got: seq<Byte>, bytes: seq<Byte>, n: nat)
    requires i < |script| && script[i].read == Chunk(bytes)
    requires |got| == Min(count, |Stream(script[..i])|) < count
    requires got == Stream(script[..i])[..|got|]
    requires n == Min(|bytes|, count - |got|)
    ensures |got| + n == Min(count, |Stream(script[..i + 1])|)
    ensures got + bytes[..n] == Stream(script[..i + 1])[..|got| + n]
  {
    var before := Stream(script[..i]);
    StreamStep(script, i);
    assert got == before;
    assert (before + bytes)[..|before| + n] == before + bytes[..n];
  }

  /** A pass whose read times out delivers nothing. */
  lemma IdleStep(script: seq<Step>, i: nat)
    requires i < |script| && script[i].read == TimedOut
    ensures Stream(script[..i + 1]) == Stream(script[..i])
  {
    StreamStep(script, i);
  }

  /** A pass that passes the deadline check comes before the deadline index. */
  lemma PassInTime(script: seq<Step>, timeoutMs: int, i: nat)
    requires i <= DeadlineIndex(script, timeoutMs)
    requires i < |script| && script[i].elapsed <= timeoutMs
    ensures i < DeadlineIndex(script, timeoutMs)
  {
  }

  /** Once a pass fails the deadline check (or the script ends), what the
      earlier passes delivered is all that is received. */
  lemma DeadlineReached(script: seq<Step>, timeoutMs: int, i: nat)
    requires i <= DeadlineIndex(script, timeoutMs)
    requires i == |script| || script[i].elapsed > timeoutMs
    ensures Received(script, timeoutMs) == Stream(script[..i])
  {
  }

  /** The port's read into `buf` at `off`: it copies as many of the available
      `bytes` as fit in the unfilled part of the buffer and reports how many. */
  method ReadInto(buf: array<Byte>, off: nat, bytes: seq<Byte>) returns (n: nat)
    requires off <= buf.Length
    modifies buf
    ensures n == Min(|bytes|, buf.Length - off)
    ensures buf[..off + n] == old(buf[..off]) + bytes[..n]
    ensures buf[off + n..] == old(buf[off + n..])
  {
    n := Min(|bytes|, buf.Length - off);
    var i := 0;
    while i < n
      invariant 0 <= i <= n
      invariant buf[..off + i] == old(buf[..off]) + bytes[..i]
      invariant buf[off + i..] == old(buf[off + i..])
    {
      buf[off + i] := bytes[i];
      assert buf[..off + i + 1] == buf[..off + i] + [bytes[i]];
      assert bytes[..i + 1] == bytes[..i] + [bytes[i]];
      i := i + 1;
    }
  }

  /** Reads exactly `count` bytes, or gives None once the deadline check
      fails. The frame is the first `count` bytes received in time, however the
      reads chunked them; bytes received before a failed deadline are
      discarded. */
  method ReadExact(count: nat, overallTimeoutMs: int, script: seq<Step>) returns (frame: Option<seq<Byte>>)
    ensures frame.Some? <==> count <= |Received(script, overallTimeoutMs)|
    ensures frame.Some? ==> frame.value == Received(script, overallTimeoutMs)[..count]
  {
    var buf := new Byte[count];
    var off: nat := 0;
    var i: nat := 0;
    ghost var d := DeadlineIndex(script, overallTimeoutMs);
    while off < count
      invariant off <= count && i <= d
      invariant off == Min(count, |Stream(script[..i])|)
      invariant buf[..off] == Stream(script[..i])[..off]
      decreases |script| - i
    {
      if i == |script| || script[i].elapsed > overallTimeoutMs {
        // The deadline has passed: partial data is dropped.
        DeadlineReached(script, overallTimeoutMs, i);
        return None;
      }
      PassInTime(script, overallTimeoutMs, i);
      match script[i].read {
        case TimedOut =>
          // A per-read timeout: keep looping until the overall deadline.
          IdleStep(script, i);
        case Chunk(bytes) =>
          ghost var got := buf[..off];
          var n := ReadInto(buf, off, bytes);
          ChunkStep(script, i, count, got, bytes, n);
          off := off + n;
      }
      i := i + 1;
    }
    FilledInTime(script, overallTimeoutMs, i, count);
    assert buf[..] == buf[..off];
    frame := Some(buf[..]);
  }
}
