/** Edge-triggered events over successive telemetry snapshots: an event for a
    signal is reported only when it is set now and was clear at the previous
    successful poll. */
module EventTracker {
  import opened Base
  import opened Telemetry

  datatype Signal = BumpLeft | BumpRight | Wall | WheelDropLeft | WheelDropCenter | WheelDropRight

  /** The name an event is reported under. */
  function Name(s: Signal): string
  {
    match s
    case BumpLeft => "bump_left"
    case BumpRight => "bump_right"
    case Wall => "wall"
    case WheelDropLeft => "wheel_drop_left"
    case WheelDropCenter => "wheel_drop_center"
    case WheelDropRight => "wheel_drop_right"
  }

  /** Each event line names exactly one signal. */
  lemma NamesDistinct(s: Signal, t: Signal)
    requires Name(s) == Name(t)
    ensures s == t
  {
    assert Name(s)[0] == Name(t)[0] && |Name(s)| == |Name(t)|;
    if |Name(s)| > 10 {
      assert Name(s)[11] == Name(t)[11];
    }
  }

  function Value(f: Flags, s: Signal): bool
  {
    match s
    case BumpLeft => f.bumpLeft
    case BumpRight => f.bumpRight
    case Wall => f.wall
    case WheelDropLeft => f.wdLeft
    case WheelDropCenter => f.wdCenter
    case WheelDropRight => f.wdRight
  }

  /** Position of a signal in the order its edge is examined and reported. */
  function Rank(s: Signal): nat
  {
    match s
    case BumpLeft => 0
    case BumpRight => 1
    case Wall => 2
    case WheelDropLeft => 3
    case WheelDropCenter => 4
    case WheelDropRight => 5
  }

  const Signals: seq<Signal> := [BumpLeft, BumpRight, Wall, WheelDropLeft, WheelDropCenter, WheelDropRight]

  /** The state before the first poll: every signal clear. */
  const AllClear: Flags := Flags(false, false, false, false, false, false)

  /** A false-to-true transition of `s` from `prev` to `now`. */
  predicate Rises(prev: Flags, now: Flags, s: Signal)
  {
    Value(now, s) && !Value(prev, s)
  }

  predicate RankOrdered(ss: seq<Signal>)
  {
    forall i, j :: 0 <= i < j < |ss| ==> Rank(ss[i]) < Rank(ss[j])
  }

  /** The events so far, with `s` appended when it rises. */
  function Emit(events: seq<Signal>, rises: bool, s: Signal): seq<Signal>
  {
    if rises then events + [s] else events
  }

  /** The first `k` signals of the reporting order that rise, in that
      order. */
  function RisingUpTo(prev: Flags, now: Flags, k: nat): seq<Signal>
    requires k <= |Signals|
  {
    if k == 0 then []
    else Emit(RisingUpTo(prev, now, k - 1), Rises(prev, now, Signals[k - 1]), Signals[k - 1])
  }

  lemma {:induction false} RisingUpToMembers(prev: Flags, now: Flags, k: nat, s: Signal)
    requires k <= |Signals|
    ensures s in RisingUpTo(prev, now, k) <==> Rank(s) < k && Rises(prev, now, s)
  {
    if k > 0 {
      RisingUpToMembers(prev, now, k - 1, s);
      assert Signals[Rank(s)] == s;
    }
  }

  lemma {:induction false} RisingUpToOrdered(prev: Flags, now: Flags, k: nat)
    requires k <= |Signals|
    ensures RankOrdered(RisingUpTo(prev, now, k))
  {
    if k > 0 {
      RisingUpToOrdered(prev, now, k - 1);
      var r := RisingUpTo(prev, now, k - 1);
      forall s | s in r
        ensures Rank(s) < k - 1
      {
        RisingUpToMembers(prev, now, k - 1, s);
      }
      assert Rank(Signals[k - 1]) == k - 1;
    }
  }

  /** The events of one successful poll: the signals that rise, in the
      reporting order. */
  function RisingEdges(prev: Flags, now: Flags): seq<Signal>
  {
    RisingUpTo(prev, now, |Signals|)
  }

  /** Exactly the signals that rise are reported, each once, in the fixed
      reporting order. */
  lemma RisingEdgesSpec(prev: Flags, now: Flags)
    ensures forall s :: s in RisingEdges(prev, now) <==> Rises(prev, now, s)
    ensures RankOrdered(RisingEdges(prev, now))
  {
    forall s: Signal
      ensures s in RisingEdges(prev, now) <==> Rises(prev, now, s)
    {
      RisingUpToMembers(prev, now, |Signals|, s);
    }
    RisingUpToOrdered(prev, now, |Signals|);
  }

  /** The events of one poll; a timed-out poll (None) reports none. */
  function TickEvents(prev: Flags, poll: Option<Flags>): seq<Signal>
  {
    if poll.None? then [] else RisingEdges(prev, poll.value)
  }

  /** The previous state after one poll: a timed-out poll leaves it alone. */
  function Advance(prev: Flags, poll: Option<Flags>): Flags
  {
    if poll.None? then prev else poll.value
  }

  /** The events of each poll in turn, threading the previous state through. */
  function Trace(prev: Flags, polls: seq<Option<Flags>>): (t: seq<seq<Signal>>)
    ensures |t| == |polls|
    decreases |polls|
  {
    if polls == [] then []
    else [TickEvents(prev, polls[0])] + Trace(Advance(prev, polls[0]), polls[1..])
  }

  /** The previous state after a run of polls. */
  function Final(prev: Flags, polls: seq<Option<Flags>>): Flags
    decreases |polls|
  {
    if polls == [] then prev else Final(Advance(prev, polls[0]), polls[1..])
  }

  /** The snapshot of the most recent successful poll, or `init` if none. */
  function LastSeen(init: Flags, polls: seq<Option<Flags>>): Flags
  {
    if polls == [] then init
    else if polls[|polls| - 1].Some? then polls[|polls| - 1].value
    else LastSeen(init, polls[..|polls| - 1])
  }

  lemma {:induction false} LastSeenCons(init: Flags, p: Option<Flags>, ps: seq<Option<Flags>>)
    ensures LastSeen(Advance(init, p), ps) == LastSeen(init, [p] + ps)
    decreases |ps|
  {
    var all := [p] + ps;
    if ps == [] {
      assert all[..0] == [];
    } else {
      assert all[|all| - 1] == ps[|ps| - 1];
      assert all[..|all| - 1] == [p] + ps[..|ps| - 1];
      LastSeenCons(init, p, ps[..|ps| - 1]);
    }
  }

  /** One more poll: a success becomes the last snapshot, a timeout keeps it. */
  lemma LastSeenSnoc(init: Flags, polls: seq<Option<Flags>>, p: Option<Flags>)
    ensures LastSeen(init, polls + [p]) == Advance(LastSeen(init, polls), p)
  {
    assert (polls + [p])[..|polls|] == polls;
  }

  /** Threading the state poll by poll ends at the last successful snapshot. */
  lemma {:induction false} FinalIsLastSeen(init: Flags, polls: seq<Option<Flags>>)
    ensures Final(init, polls) == LastSeen(init, polls)
    decreases |polls|
  {
    if polls != [] {
      FinalIsLastSeen(Advance(init, polls[0]), polls[1..]);
      LastSeenCons(init, polls[0], polls[1..]);
      assert [polls[0]] + polls[1..] == polls;
    }
  }

  /** The events of poll `t` compare it against the last successful snapshot
      before it. */
  lemma {:induction false} TraceAt(init: Flags, polls: seq<Option<Flags>>, t: nat)
    requires t < |polls|
    ensures Trace(init, polls)[t] == TickEvents(LastSeen(init, polls[..t]), polls[t])
    decreases t
  {
    if t == 0 {
      assert polls[..0] == [];
    } else {
      var next := Advance(init, polls[0]);
      TraceAt(next, polls[1..], t - 1);
      LastSeenCons(init, polls[0], polls[1..][..t - 1]);
      assert [polls[0]] + polls[1..][..t - 1] == polls[..t];
    }
  }

  /** Trace extended by one poll. */
  lemma {:induction false} TraceSnoc(init: Flags, polls: seq<Option<Flags>>, p: Option<Flags>)
    ensures Trace(init, polls + [p]) == Trace(init, polls) + [TickEvents(LastSeen(init, polls), p)]
  {
    var all := polls + [p];
    var lhs, rhs := Trace(init, all), Trace(init, polls) + [TickEvents(LastSeen(init, polls), p)];
    forall k | 0 <= k < |all| ensures lhs[k] == rhs[k] {
      TraceAt(init, all, k);
      assert all[..k] == if k < |polls| then polls[..k] else polls;
      if k < |polls| {
        TraceAt(init, polls, k);
      }
    }
  }

  /** The edge rule over a whole run: signal `s` is reported at poll `t` iff
      that poll succeeded, `s` is set in it, and `s` was clear at the last
      successful poll before it (or initially). */
  lemma EdgeAt(init: Flags, polls: seq<Option<Flags>>, t: nat, s: Signal)
    requires t < |polls|
    ensures s in Trace(init, polls)[t] <==>
      polls[t].Some? && Value(polls[t].value, s) && !Value(LastSeen(init, polls[..t]), s)
  {
    TraceAt(init, polls, t);
    if polls[t].Some? {
      RisingEdgesSpec(LastSeen(init, polls[..t]), polls[t].value);
    }
  }

  /** Timed-out polls change nothing: the last snapshot seen before them is
      still the one seen after them. */
  lemma {:induction false} TimeoutsLeaveState(init: Flags, polls: seq<Option<Flags>>, t: nat, u: nat)
    requires t <= u <= |polls|
    requires forall k :: t <= k < u ==> polls[k].None?
    ensures LastSeen(init, polls[..u]) == LastSeen(init, polls[..t])
    decreases u - t
  {
    if u > t {
      assert polls[..u][..u - 1] == polls[..u - 1];
      TimeoutsLeaveState(init, polls, t, u - 1);
    }
  }

  /** A signal held set fires once: after a poll that saw `s` set, no later
      poll reached only through timeouts reports `s` again. */
  lemma NoRepeatWhileHeld(init: Flags, polls: seq<Option<Flags>>, t: nat, u: nat, s: Signal)
    requires t < u < |polls|
    requires polls[t].Some? && Value(polls[t].value, s)
    requires forall k :: t < k < u ==> polls[k].None?
    ensures s !in Trace(init, polls)[u]
  {
    TimeoutsLeaveState(init, polls, t + 1, u);
    assert polls[..t + 1][t] == polls[t];
    EdgeAt(init, polls, u, s);
  }

  /** No falling-edge events: a reported signal is set in the poll that
      reports it. */
  lemma OnlyRisingEdges(init: Flags, polls: seq<Option<Flags>>, t: nat, s: Signal)
    requires t < |polls|
    requires s in Trace(init, polls)[t]
    ensures polls[t].Some? && Value(polls[t].value, s)
  {
    EdgeAt(init, polls, t, s);
  }

  /** From the all-clear start, the first successful poll, whether or not
      timeouts come before it, reports exactly the signals already set. */
  lemma FirstPollReportsHeldSignals(polls: seq<Option<Flags>>, t: nat, s: Signal)
    requires t < |polls| && polls[t].Some?
    requires forall k :: 0 <= k < t ==> polls[k].None?
    ensures s in Trace(AllClear, polls)[t] <==> Value(polls[t].value, s)
  {
    TimeoutsLeaveState(AllClear, polls, 0, t);
    assert polls[..0] == [];
    EdgeAt(AllClear, polls, t, s);
  }

  /** With just `s` rising (or nothing, when `s` is None), the first `k`
      tests report `s` exactly when it is among them. */
  lemma {:induction false} RisingUpToAtMostOne(prev: Flags, now: Flags, k: nat, s: Option<Signal>)
    requires k <= |Signals|
    requires forall t :: Rises(prev, now, t) <==> s == Some(t)
    ensures RisingUpTo(prev, now, k) == if s.Some? && Rank(s.value) < k then [s.value] else []
  {
    if k > 0 {
      RisingUpToAtMostOne(prev, now, k - 1, s);
      assert Rank(Signals[k - 1]) == k - 1;
    }
  }

  /** With no signal rising, a tick reports nothing. */
  lemma NoEdges(prev: Flags, now: Flags)
    requires forall s :: !Rises(prev, now, s)
    ensures RisingEdges(prev, now) == []
  {
    RisingUpToAtMostOne(prev, now, |Signals|, None);
  }

  /** With exactly one signal rising, a tick reports just that signal. */
  lemma OneEdge(prev: Flags, now: Flags, s: Signal)
    requires forall t :: Rises(prev, now, t) <==> t == s
    ensures RisingEdges(prev, now) == [s]
  {
    RisingUpToAtMostOne(prev, now, |Signals|, Some(s));
  }

  /** The edges a left-bumper press and release produce. */
  lemma LeftBumpEdges()
    ensures
      var bump := Flags(true, false, false, false, false, false);
      RisingEdges(AllClear, bump) == [BumpLeft] && RisingEdges(bump, bump) == [] &&
      RisingEdges(bump, AllClear) == [] && RisingEdges(AllClear, AllClear) == []
  {
    var bump := Flags(true, false, false, false, false, false);
    OneEdge(AllClear, bump, BumpLeft);
    NoEdges(bump, bump);
    NoEdges(bump, AllClear);
    NoEdges(AllClear, AllClear);
  }

  /** Snapshots [clear, left bump, left bump, clear, left bump] report
      bump_left at the second and fifth polls only. */
  lemma BumpLeftScenario()
    ensures
      var bump := Flags(true, false, false, false, false, false);
      var trace := Trace(AllClear, [Some(AllClear), Some(bump), Some(bump), Some(AllClear), Some(bump)]);
      trace == [[], [BumpLeft], [], [], [BumpLeft]]
  {
    var bump := Flags(true, false, false, false, false, false);
    LeftBumpEdges();
    var p4 := [Some(bump)];
    var p3 := [Some(AllClear)] + p4;
    var p2 := [Some(bump)] + p3;
    var p1 := [Some(bump)] + p2;
    var p0 := [Some(AllClear)] + p1;
    assert p0[1..] == p1 && p1[1..] == p2 && p2[1..] == p3 && p3[1..] == p4 && p4[1..] == [];
    assert Trace(AllClear, p4) == [[BumpLeft]];
    assert Trace(bump, p3) == [[], [BumpLeft]];
    assert Trace(bump, p2) == [[], [], [BumpLeft]];
    assert Trace(AllClear, p1) == [[BumpLeft], [], [], [BumpLeft]];
    assert p0 == [Some(AllClear), Some(bump), Some(bump), Some(AllClear), Some(bump)];
  }

  /** The previous-state flags of the polling loop and the step it performs
      on each successful poll. */
  class Tracker {
    var prevBL: bool
    var prevBR: bool
    var prevWall: bool
    var prevWDL: bool
    var prevWDC: bool
    var prevWDR: bool

    /** The stored snapshot. */
    function Previous(): Flags
      reads this
    {
      Flags(prevBL, prevBR, prevWall, prevWDL, prevWDC, prevWDR)
    }

    constructor ()
      ensures Previous() == AllClear
    {
      prevBL, prevBR, prevWall, prevWDL, prevWDC, prevWDR := false, false, false, false, false, false;
    }

    /** Reports the rising edges from the stored snapshot to `now`, then
        stores `now`. */
    method Update(now: Flags) returns (events: seq<Signal>)
      modifies this
      ensures events == RisingEdges(old(Previous()), now)
      ensures Previous() == now
    {
      events := Detect(now);
      Store(now);
    }

    /** The six edge tests of one tick, in the reporting order. */
    method Detect(now: Flags) returns (events: seq<Signal>)
      ensures events == RisingEdges(Previous(), now)
    {
      var prev := Previous();
      events := [];
      events := EdgeTest(events, prev, now, 0);
      events := EdgeTest(events, prev, now, 1);
      events := EdgeTest(events, prev, now, 2);
      events := EdgeTest(events, prev, now, 3);
      events := EdgeTest(events, prev, now, 4);
      events := EdgeTest(events, prev, now, 5);
    }

    /** The edge test of the signal ranked `k`: it is reported when it is set
        now and was clear before. */
    static method EdgeTest(events: seq<Signal>, prev: Flags, now: Flags, k: nat)
      returns (events': seq<Signal>)
      requires k < |Signals|
      requires events == RisingUpTo(prev, now, k)
      ensures events' == RisingUpTo(prev, now, k + 1)
    {
      var s := Signals[k];
      events' := events;
      if Value(now, s) && !Value(prev, s) {
        events' := events' + [s];
      }
    }

    /** Overwrites the stored snapshot with `now`. */
    method Store(now: Flags)
      modifies this
      ensures Previous() == now
    {
      prevBL, prevBR, prevWall := now.bumpLeft, now.bumpRight, now.wall;
      prevWDL, prevWDC, prevWDR := now.wdLeft, now.wdCenter, now.wdRight;
    }
  }

}
