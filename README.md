# iRobot Open Interface sensor poller, modelled in Dafny

`Program.cs` is a small host-side driver for the iRobot Open Interface (OI). It
opens a serial port, puts the robot in SAFE mode, plays a one-note beep, and then
polls one sensor packet group about ten times a second. It decodes the bump,
wheel-drop and wall flags from each reply and prints an event whenever one of
them goes from clear to set. When the session ends, it sends a stop-motion drive
command.

This project models the protocol core of that program:

- `base.dfy` (module `Base`): wire bytes (`bv8`), the arithmetic bit `Bit(b, k)`
  against which the decoder's masks are checked, and C#'s unchecked `(byte)`
  cast.
- `frame_codec.dfy` (module `FrameCodec`):
  - The command frames the poller writes: START, SAFE, DRIVE, SONG, PLAY and
    SENSORS.
  - A decoder for those frames, with round trips in both directions.
  - The fixed frames the poller sends: the sensor request, the mode entry, the
    beep and the stop frame.
  - The reply-length table `ExpectedLengthForGroup`.
- `framed_reader.dfy` (module `FramedReader`): `ReadExact`, the fixed-length
  frame assembler.
  - The serial port and `Environment.TickCount` are replaced by a *script*. A
    script holds one `Step` per pass of the loop: the elapsed time the deadline
    check sees, and what the read returns (some bytes, possibly none, or a
    per-read timeout).
  - The method fills an `array` buffer in place. It is proved against
    `Received`, the bytes delivered before the first failed deadline check.
  - Lemmas show that the result does not depend on how the reads chunk the
    bytes, that idle passes are invisible, and that late bytes are ignored.
- `telemetry.dfy` (module `Telemetry`): `ParseCoreFlags`, checked bit by bit, and
  its inverse on the two bytes that matter.
- `event_tracker.dfy` (module `EventTracker`): the polling loop's six `prev*`
  flags, as a class `Tracker` whose `Update` reports rising edges and stores the
  new snapshot.
  - The events are specified by `RisingEdges`.
  - Over a whole run of polls, `Trace` gives the events and `LastSeen` the
    stored state.
- `session.dfy` (module `Session`):
  - `GetSensorsGroup`.
  - One polling tick, `Poll`.
  - A finite session, `Run`: mode entry, beep, warm-up query, polls, then the
    stop frame. It is proved to produce exactly `Transcript` and
    `Trace(AllClear, Snapshots(...))`.

Behaviour worth knowing, as the code has it:

- **The first successful poll reports signals that are already set.** The
  warm-up reply (Program.cs:186) is discarded, and the stored flags start all
  clear (Program.cs:189). Timed-out polls before it leave them clear
  (Program.cs:196-200). So every signal already set at the first successful
  poll is reported on that poll, whether or not earlier polls timed out. It is
  not suppressed as a pre-existing state. The model
  follows the code; see `EventTracker.FirstPollReportsHeldSignals`.
- **PLAY carries one parameter byte**, the song slot (Program.cs:140). The model
  gives it arity 1.
- **The deadline is checked before each read.** A read that starts in time is
  always counted, even if it finishes late. When a check fails the call returns
  null, but the bytes it already read are gone from the port.
- **Leftover bytes are not discarded.** A read never takes more than the frame
  still needs, and nothing drains the port between calls. So bytes beyond the
  frame, and bytes that arrive after a call gave up, lead the next call's reply.
  The model does not carry them over (see "## Left out").
- **The request and the reply length disagree for some groups.** The request
  sends `(byte)grp` (Program.cs:147), but the reply length is looked up on the
  whole integer (Program.cs:19-29). A group such as 262 asks for group 6's 52
  bytes and reads 26 of them. The rest lead the next reply, so frames stay
  misaligned. See `FrameCodec.WrappedGroupMismatch`.

## Model

| member | source | states |
|---|---|---|
| Base.LowByte | Program.cs:147 | `(byte)grp` is the low eight bits of the integer: its value is `grp mod 256`, and the identity on 0..255 |
| Base.ByteOf | Program.cs:147 | the byte built for a value in 0..255 has exactly that value |
| Base.ByteOfValue | Program.cs:147 | every byte is the byte built for its own value, so the conversion is a bijection on 0..255 |
| Base.MaskAt | Program.cs:157-162 | for every bit position `k` below 8, the mask `1 << k` is nonzero exactly when arithmetic bit `k` of the byte is set |
| Base.MaskTestsBit | Program.cs:157-162 | each of the masks 0x01, 0x02, 0x04, 0x08 and 0x10 is nonzero exactly when arithmetic bit 0, 1, 2, 3 or 4 of the byte is set |
| FrameCodec.Encode | Program.cs:139-147 | a command's frame is its opcode followed by exactly as many parameter bytes as the opcode takes (the SONG, PLAY and SENSORS frames here, START and SAFE at 174-176, DRIVE at 236) |
| FrameCodec.WordSplit | Program.cs:235 | the high and low bytes of a 16-bit word rebuild the word |
| FrameCodec.WordJoin | Program.cs:235 | a word built from a high and a low byte splits back into those bytes |
| FrameCodec.NotesRoundTrip | Program.cs:139 | the (pitch, duration) byte pairs of a song decode back to its notes |
| FrameCodec.NotesCanonical | Program.cs:139 | an even number of note bytes is exactly the encoding of the notes it decodes to |
| FrameCodec.SongEncoding | Program.cs:139 | a song frame is the opcode, the slot, the note-count byte, then the note bytes |
| FrameCodec.SongFrameCanonical | Program.cs:139 | a SONG frame whose count byte matches its length has fewer than 256 notes and is exactly the encoding of the song it carries |
| FrameCodec.SongRoundTrip | Program.cs:139 | a SONG frame with fewer than 256 notes decodes to the same slot and notes |
| FrameCodec.DecodeEncode | Program.cs:139-147 | every well-formed command survives encoding and decoding |
| FrameCodec.EncodeDecode | Program.cs:139-147 | every byte string that decodes is exactly the encoding of the command it decodes to, so the framing is unambiguous |
| FrameCodec.ExpectedLengthForGroup | Program.cs:19-29 | reply length 26, 10, 6, 10, 14, 12, 52 for groups 0 to 6, and 26 for every other integer; always at least 6 |
| FrameCodec.SensorRequest | Program.cs:144-147 | the request is `[142, (byte)grp]` |
| FrameCodec.WrappedGroupMismatch | Program.cs:144-147 | a group that is not 6 but wraps to 6 as a byte sends the same request as group 6, yet expects a 26-byte reply where group 6 expects 52 |
| FrameCodec.ModeEntry | Program.cs:174-176 | mode entry writes `[128]` then `[131]` |
| FrameCodec.Beep | Program.cs:135-141 | the beep writes `[140, 0, 1, 72, 16]` (one note, 72 for 16/64 s, into slot 0) then `[141, 0]` |
| FrameCodec.StopMotion | Program.cs:234-236 | the stop frame is `[137, 0, 0, 0x80, 0x00]` |
| FrameCodec.FixedFramesDecode | Program.cs:135-147 | each fixed frame reads back as the command it stands for: SENSORS for `(byte)grp`, START, SAFE, the one-note song in slot 0, PLAY slot 0, and DRIVE with velocity 0 and the straight radius 0x8000 (Program.cs:174-176 and 234-236 for the last three) |
| Telemetry.ParseCoreFlags | Program.cs:155-168 | bumpRight, bumpLeft, wdRight, wdLeft and wdCenter are bits 0 to 4 of byte 0; wall is set exactly when byte 1 is nonzero |
| Telemetry.DecodeFlagBytes | Program.cs:155-168 | any six flags put on the wire as two bytes decode back to themselves, whatever bytes follow |
| Telemetry.OnlyCoreBitsMatter | Program.cs:155-168 | two replies that agree on bits 0 to 4 of byte 0 and on whether byte 1 is zero decode identically; no other byte or bit matters |
| Telemetry.BothBumpersExample | Program.cs:157-165 | byte 0 = 0x03 sets both bumpers and no wheel drop; the wall follows byte 1 |
| FramedReader.DeadlineIndex | Program.cs:115-117 | the first pass whose elapsed time exceeds the overall timeout (or the script's end): every earlier pass is in time |
| FramedReader.StreamAppend | Program.cs:119-121 | the bytes delivered by two runs of passes in sequence are those of the first, then those of the second |
| FramedReader.StreamPrefix | Program.cs:119-121 | what the first `i` passes deliver is a prefix of what the first `k` deliver |
| FramedReader.DeadlineIsFirstLate | Program.cs:117 | the deadline index is the only index before which all passes are in time and at which a pass is late |
| FramedReader.InTimeReceivesAll | Program.cs:115-129 | if every pass is in time, everything delivered is received |
| FramedReader.DeadlineAppend | Program.cs:117 | the deadline of two runs in sequence is the first failed check in either |
| FramedReader.ReceivedAppendLate | Program.cs:117 | once the deadline falls within a prefix, nothing after it is received |
| FramedReader.ReceivedAppendInTime | Program.cs:115-121 | a prefix whose passes are all in time contributes all its bytes, followed by what the rest receives |
| FramedReader.ChunkSplitInTime | Program.cs:120-121 | an in-time read of `x + y` receives `x` ahead of what a read of `y` at that moment would receive |
| FramedReader.ChunkSplitAtFront | Program.cs:120-121 | a leading read of `x + y` receives the same as a read of `x` followed by a read of `y` at the same moment |
| FramedReader.ChunkSplitInvisible | Program.cs:115-129 | anywhere in a script, splitting one read's bytes over two reads changes nothing that is received |
| FramedReader.IdlePassInvisible | Program.cs:118-126 | an in-time pass that times out or reads zero bytes changes nothing that is received |
| FramedReader.LateBytesIgnored | Program.cs:117 | nothing delivered from a late pass onwards is ever received |
| FramedReader.FilledInTime | Program.cs:115-129 | once in-time passes have delivered `count` bytes, those bytes are the first `count` received |
| FramedReader.ChunkStep | Program.cs:120-121 | one read into an unfilled buffer that holds a stream prefix leaves it holding the longer stream prefix, as many bytes as fit |
| FramedReader.IdleStep | Program.cs:123-126 | a per-read timeout delivers no bytes |
| FramedReader.PassInTime | Program.cs:117 | a pass that passes the deadline check lies before the deadline index |
| FramedReader.DeadlineReached | Program.cs:117 | when a pass fails the check (or the script ends), the earlier passes delivered everything that is received |
| FramedReader.ReadInto | Program.cs:120-121 | the read copies `min(available, count - off)` bytes to `buf[off..]`, reports that number, and leaves the rest of the buffer alone |
| FramedReader.ReadExact | Program.cs:109-130 | gives a frame exactly when at least `count` bytes arrive before the deadline, and the frame is the first `count` of them, whatever the chunking; otherwise null, with partial data discarded |
| EventTracker.NamesDistinct | Program.cs:210-215 | no two signals are reported under the same event name |
| EventTracker.RisingUpToMembers | Program.cs:210-215 | among the first `k` signals, a signal is reported exactly when it is set now and was clear before |
| EventTracker.RisingUpToOrdered | Program.cs:210-215 | the events of the first `k` tests come in test order, each at most once |
| EventTracker.RisingEdgesSpec | Program.cs:210-215 | a tick reports exactly the signals with a false-to-true transition, in the order bump_left, bump_right, wall, wheel_drop_left, wheel_drop_center, wheel_drop_right |
| EventTracker.Trace | Program.cs:191-224 | a run of polls yields one event list per poll |
| EventTracker.LastSeenCons | Program.cs:196-200 | advancing the start state by the first poll, then taking the last snapshot of the remaining polls, gives the last snapshot of the whole run |
| EventTracker.LastSeenSnoc | Program.cs:196-221 | one more poll advances the last snapshot seen by that poll |
| EventTracker.FinalIsLastSeen | Program.cs:196-221 | the state threaded through the loop equals the snapshot of the most recent successful poll (or all clear) |
| EventTracker.TraceAt | Program.cs:191-224 | the events of poll `t` are those of that poll against the last snapshot seen before it |
| EventTracker.TraceSnoc | Program.cs:191-224 | one more poll appends its events to the run's, computed against the last snapshot seen |
| EventTracker.EdgeAt | Program.cs:189-221 | signal `s` is reported at poll `t` iff that poll succeeded, `s` is set in it, and `s` was clear at the last successful poll before it |
| EventTracker.TimeoutsLeaveState | Program.cs:196-200 | timed-out polls leave the stored snapshot unchanged |
| EventTracker.NoRepeatWhileHeld | Program.cs:210-221 | a signal seen set is not reported again at a poll reached only through timeouts |
| EventTracker.OnlyRisingEdges | Program.cs:210-215 | no falling-edge events: a reported signal is set in the poll that reports it |
| EventTracker.FirstPollReportsHeldSignals | Program.cs:186-200 | from the all-clear start, the first successful poll, even one preceded only by timed-out polls, reports exactly the signals already set in it |
| EventTracker.RisingUpToAtMostOne | Program.cs:210-215 | when at most one signal rises, the first `k` tests report it exactly when its test is among them, and report nothing else |
| EventTracker.NoEdges | Program.cs:210-215 | when no signal rises, a tick reports nothing |
| EventTracker.OneEdge | Program.cs:210-215 | when exactly one signal rises, a tick reports that signal alone |
| EventTracker.LeftBumpEdges | Program.cs:210 | a left-bumper press reports bump_left once; holding it, releasing it or staying clear report nothing |
| EventTracker.BumpLeftScenario | Program.cs:189-221 | snapshots clear, bump, bump, clear, bump report bump_left at the second and fifth polls only |
| EventTracker.Tracker.constructor | Program.cs:189 | the stored flags start all clear |
| EventTracker.Tracker.Update | Program.cs:207-221 | reports the rising edges from the stored snapshot to the new one, then stores the new one |
| EventTracker.Tracker.Detect | Program.cs:210-215 | the six edge tests report exactly the rising edges against the stored flags, in order |
| EventTracker.Tracker.EdgeTest | Program.cs:210-215 | one `set && !prev` test, on the signal ranked `k`, extends the events of the earlier tests by that signal exactly when it rises |
| EventTracker.Tracker.Store | Program.cs:220-221 | after the overwrite, the stored flags equal the current snapshot |
| Session.Reply | Program.cs:144-148 | a reply is present exactly when the group's expected length arrives in time; it then has that length (at least 2) and is a prefix of what arrived |
| Session.Snapshot | Program.cs:193-207 | the decoded flags are missing exactly when the reply timed out |
| Session.SnapshotOfFlagBytes | Program.cs:193-207 | a reply that starts with the wire form of some flags decodes to those flags |
| Session.GetSensorsGroup | Program.cs:144-149 | writes `[142, (byte)grp]`, and gives the group's expected number of bytes received before the 1000 ms deadline, or null |
| Session.Poll | Program.cs:193-221 | on a timeout reports nothing and leaves the stored flags alone; otherwise reports the rising edges and stores the new flags |
| Session.QueriesSnoc | Program.cs:191-193 | one more tick appends one more query |
| Session.TranscriptShape | Program.cs:171-236 | a session writes START and SAFE first and the stop frame last, with one query per tick after the warm-up query; every frame written is a well-formed command frame |
| Session.PollTicks | Program.cs:189-224 | from the all-clear state, the loop writes one query per tick, and its events are the edge trace of the ticks' snapshots |
| Session.Run | Program.cs:171-236 | a session of `n` ticks writes exactly its transcript, and its events are the edge trace of its snapshots from the all-clear state |
| Session.SnapshotsSnoc | Program.cs:191-207 | one more tick appends its snapshot |

## Left out

- Serial I/O: constructing, opening, writing to, reading from and closing the `SerialPort` (Program.cs:81-106, 239). Writes are collected as a list of frames, and reads come from a script of passes.
- Command-line parsing and `Usage` (Program.cs:31-78): this is scaffolding, not protocol logic. The group is a parameter.
- Console output. This covers the startup banner, the WARN line, the raw `Hex` dump behind `printRaw`, the status line, and the text of event lines and timestamps (Program.cs:132, 181-183, 194-205, 217-218). An event is modelled as a `Signal`; `EventTracker.Name` gives the name it is printed under.
- `Thread.Sleep` pauses (Program.cs:127, 175, 177, 223): they only affect timing, which the script's elapsed values already abstract.
- `Environment.TickCount` and its 32-bit wrap-around: the source subtracts two tick counts, and the model takes that elapsed difference directly, as an unbounded integer per pass.
- FramedReader.ReadExact: a negative `count` is excluded by its type. In the source it would throw; it is only ever called with `ExpectedLengthForGroup`, which is at least 6.
- Exceptions (Program.cs:171-240): the try/catch/finally routing and .NET exception semantics. A write that fails is not modelled.
- Session.Run: does not model the endless `while (true)` loop, which ends only through an exception or process termination. A session is a finite number of ticks followed by the `finally` block's stop frame.
- The opcodes declared but never sent, CONTROL, FULL, STREAM, QUERYLIST and PAUSERESUME (Program.cs:5-14), are not part of this model.
- FramedReader.ReadExact / Session.Run: bytes that a read does not take, and bytes that arrive after a failed deadline check, stay queued in the port in the source and lead the next call's reply (the warm-up's included). The model gives each call its own script and drops them, so it does not capture a frame boundary drifting from one call to the next. For example, `ReadExact(2, 1000, [Step(0, Chunk([1, 2, 3, 4]))])` gives `[1, 2]`, and bytes 3 and 4 are not seen again.
- A script that ends before the frame is complete stands for a port that delivers nothing more until the deadline passes.
