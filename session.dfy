/** The poller's session: sensor queries, one polling tick, and a run of ticks
    between mode entry and the stop frame sent on the way out.

    Each query's reply is read from its own script of passes (see
    FramedReader). On the port, bytes a query leaves unread stay queued and
    lead the next query's reply; here each script starts afresh, so that
    carry-over is not modelled. The frames the session writes are collected
    in order instead of being written to the port. */
module Session {
  import opened Base
  import opened FrameCodec
  import opened FramedReader
  import opened Telemetry
  import opened EventTracker

  /** The reply to a query for group `grp`: the leading bytes received before
      the deadline, exactly as many as the group's reply holds (enough for
      the flag decoder), or None exactly when fewer arrive. */
  function Reply(grp: int, script: seq<Step>): (r: Option<seq<Byte>>)
    ensures r.None? <==> |Received(script, OverallTimeoutMs)| < ExpectedLengthForGroup(grp)
    ensures r.Some? ==> |r.value| == ExpectedLengthForGroup(grp) >= 2
    ensures r.Some? ==> r.value <= Received(script, OverallTimeoutMs)
  {
    var n := ExpectedLengthForGroup(grp);
    var received := Received(script, OverallTimeoutMs);
    if n <= |received| then Some(received[..n]) else None
  }

  /** The decoded flags of a query, or None when the reply timed out. */
  function Snapshot(grp: int, script: seq<Step>): (s: Option<Flags>)
    ensures s.None? <==> Reply(grp, script).None?
  {
    match Reply(grp, script)
    case None => None
    case Some(pkt) => Some(ParseCoreFlags(pkt))
  }

  /** A reply that begins with the wire form of some flags decodes to those
      flags, whatever the rest of the reply holds. */
  lemma SnapshotOfFlagBytes(grp: int, script: seq<Step>, f: Flags)
    requires ExpectedLengthForGroup(grp) <= |Received(script, OverallTimeoutMs)|
    requires Received(script, OverallTimeoutMs)[..2] == FlagBytes(f)
    ensures Snapshot(grp, script) == Some(f)
  {
    var pkt := Reply(grp, script).value;
    assert pkt == FlagBytes(f) + pkt[2..];
    DecodeFlagBytes(f, pkt[2..]);
  }

  /** A sensor query: writes the request frame for `grp`, then reads a reply
      of the group's expected length under the overall deadline. */
  method GetSensorsGroup(grp: int, script: seq<Step>) returns (request: seq<Byte>, pkt: Option<seq<Byte>>)
    ensures request == [SENSORS, LowByte(grp)]
    ensures pkt == Reply(grp, script)
  {
    var expected := ExpectedLengthForGroup(grp);
    request := SensorRequest(grp);
    pkt := ReadExact(expected, OverallTimeoutMs, script);
  }

  /** One tick of the polling loop: query, then on a reply decode it and
      report its rising edges, storing the new snapshot; on a timeout report
      nothing and leave the stored snapshot alone. */
  method Poll(tracker: Tracker, grp: int, script: seq<Step>) returns (request: seq<Byte>, events: seq<Signal>)
    modifies tracker
    ensures request == SensorRequest(grp)
    ensures events == TickEvents(old(tracker.Previous()), Snapshot(grp, script))
    ensures tracker.Previous() == Advance(old(tracker.Previous()), Snapshot(grp, script))
  {
    var pkt;
    request, pkt := GetSensorsGroup(grp, script);
    if pkt.None? {
      events := [];
      return;
    }
    var flags := ParseCoreFlags(pkt.value);
    events := tracker.Update(flags);
  }

  /** The snapshots of a run of ticks, one per tick's script. */
  function Snapshots(grp: int, ticks: seq<seq<Step>>): (ss: seq<Option<Flags>>)
    ensures |ss| == |ticks|
    ensures forall k :: 0 <= k < |ticks| ==> ss[k] == Snapshot(grp, ticks[k])
  {
    seq(|ticks|, k requires 0 <= k < |ticks| => Snapshot(grp, ticks[k]))
  }

  /** The frames written before the first tick: mode entry, the beep and the
      warm-up query. */
  function Opening(grp: int): seq<seq<Byte>>
  {
    ModeEntry() + Beep() + [SensorRequest(grp)]
  }

  /** The queries of `n` ticks. */
  function Queries(grp: int, n: nat): seq<seq<Byte>>
  {
    seq(n, _ => SensorRequest(grp))
  }

  /** Every frame a session of `n` ticks writes, in order: mode entry, the
      beep, the warm-up query, one query per tick, then the stop frame. */
  function Transcript(grp: int, n: nat): seq<seq<Byte>>
  {
    Opening(grp) + Queries(grp, n) + [StopMotion()]
  }

  lemma QueriesSnoc(grp: int, n: nat)
    ensures Queries(grp, n) + [SensorRequest(grp)] == Queries(grp, n + 1)
  {
  }

  /** A session's transcript enters safe mode first, stops the motors last,
      sends one query per tick besides the warm-up, and every frame in it is
      exactly one well-formed command frame. */
  lemma TranscriptShape(grp: int, n: nat)
    ensures |Transcript(grp, n)| == n + 6
    ensures Transcript(grp, n)[..2] == [[START], [SAFE]]
    ensures Transcript(grp, n)[n + 5] == StopMotion()
    ensures forall k :: 4 <= k < n + 5 ==> Transcript(grp, n)[k] == SensorRequest(grp)
    ensures forall k :: 0 <= k < n + 6 ==> Decode(Transcript(grp, n)[k]).Some?
  {
    var t := Transcript(grp, n);
    var beep := Beep();
    FixedFramesDecode(grp);
    forall k | 0 <= k < n + 6 ensures Decode(t[k]).Some? {
      if k < 2 {
        assert t[k] == ModeEntry()[k];
      } else if k < 4 {
        assert t[k] == beep[k - 2];
      } else if k < n + 5 {
        assert t[k] == SensorRequest(grp);
      } else {
        assert t[k] == StopMotion();
      }
    }
  }

  /** The polling loop over `|ticks|` ticks, from a fresh all-clear state:
      returns the query written on each tick and each tick's events. */
  method PollTicks(grp: int, ticks: seq<seq<Step>>)
    returns (queries: seq<seq<Byte>>, events: seq<seq<Signal>>)
    ensures queries == Queries(grp, |ticks|)
    ensures events == Trace(AllClear, Snapshots(grp, ticks))
  {
    var tracker := new Tracker();
    queries, events := [], [];
    var i := 0;
    while i < |ticks|
      invariant 0 <= i <= |ticks|
      invariant queries == Queries(grp, i)
      invariant events == Trace(AllClear, Snapshots(grp, ticks[..i]))
      invariant tracker.Previous() == Final(AllClear, Snapshots(grp, ticks[..i]))
    {
      ghost var seen, snap := Snapshots(grp, ticks[..i]), Snapshot(grp, ticks[i]);
      FinalIsLastSeen(AllClear, seen);
      var request, ev := Poll(tracker, grp, ticks[i]);
      SnapshotsSnoc(grp, ticks, i);
      TraceSnoc(AllClear, seen, snap);
      LastSeenSnoc(AllClear, seen, snap);
      FinalIsLastSeen(AllClear, seen + [snap]);
      QueriesSnoc(grp, i);
      queries := queries + [request];
      events := events + [ev];
      i := i + 1;
    }
    assert ticks[..i] == ticks;
  }

  /** A session of `|ticks|` polling ticks: enter safe mode, beep, discard a
      warm-up reply, run the polling loop once per tick script, then send the
      stop frame. Returns every frame written and each tick's events. */
  method Run(grp: int, warmup: seq<Step>, ticks: seq<seq<Step>>)
    returns (written: seq<seq<Byte>>, events: seq<seq<Signal>>)
    ensures written == Transcript(grp, |ticks|)
    ensures events == Trace(AllClear, Snapshots(grp, ticks))
  {
    written := ModeEntry() + Beep();
    var request, _ := GetSensorsGroup(grp, warmup);
    written := written + [request];
    var queries;
    queries, events := PollTicks(grp, ticks);
    written := written + queries + [StopMotion()];
  }

  lemma SnapshotsSnoc(grp: int, ticks: seq<seq<Step>>, i: nat)
    requires i < |ticks|
    ensures Snapshots(grp, ticks[..i + 1]) == Snapshots(grp, ticks[..i]) + [Snapshot(grp, ticks[i])]
  {
  }
}
