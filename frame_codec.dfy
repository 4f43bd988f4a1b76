/** Command frames of the iRobot Open Interface subset the poller uses, and the
    table of reply lengths per sensor packet group. */
module FrameCodec {
  import opened Base

  // Opcodes (the subset the poller sends).
  const START: Byte := 128
  const SAFE: Byte := 131
  const DRIVE: Byte := 137
  const SONG: Byte := 140
  const PLAY: Byte := 141
  const SENSORS: Byte := 142

  /** The radius word the Open Interface reads as "drive straight". */
  const STRAIGHT: bv16 := 0x8000

  /** One note of a song: a MIDI pitch and a duration in 1/64 s. */
  datatype Note = Note(pitch: Byte, duration: Byte)

  /** A command, before framing. Drive takes a velocity and a radius as 16-bit
      two's-complement words; Song loads `notes` into song slot `slot`. */
  datatype Command =
    | Start
    | Safe
    | Drive(velocity: bv16, radius: bv16)
    | Song(slot: Byte, notes: seq<Note>)
    | Play(slot: Byte)
    | Sensors(group: Byte)

  /** A song's note count travels in one byte. */
  predicate WellFormed(c: Command)
  {
    c.Song? ==> |c.notes| < 256
  }

  /** The opcode that leads each command's frame. */
  function Opcode(c: Command): Byte
  {
    match c
    case Start => START
    case Safe => SAFE
    case Drive(_, _) => DRIVE
    case Song(_, _) => SONG
    case Play(_) => PLAY
    case Sensors(_) => SENSORS
  }

  /** Number of parameter bytes after the opcode. */
  function Arity(c: Command): nat
  {
    match c
    case Start => 0
    case Safe => 0
    case Drive(_, _) => 4
    case Song(_, notes) => 2 + 2 * |notes|
    case Play(_) => 1
    case Sensors(_) => 1
  }

  /** High and low byte of a 16-bit word, as the frame carries them. */
  function Hi(w: bv16): Byte { (w >> 8) as Byte }
  function Lo(w: bv16): Byte { (w & 0xFF) as Byte }

  /** The 16-bit word made of a high and a low byte. */
  function Word(hi: Byte, lo: Byte): bv16 { (hi as bv16 << 8) | lo as bv16 }

  lemma WordSplit(w: bv16)
    ensures Word(Hi(w), Lo(w)) == w
  {
  }

  lemma WordJoin(hi: Byte, lo: Byte)
    ensures Hi(Word(hi, lo)) == hi && Lo(Word(hi, lo)) == lo
  {
  }

  function EncodeNotes(notes: seq<Note>): (b: seq<Byte>)
    ensures |b| == 2 * |notes|
  {
    if notes == [] then []
    else [notes[0].pitch, notes[0].duration] + EncodeNotes(notes[1..])
  }

  function DecodeNotes(b: seq<Byte>): seq<Note>
    decreases |b|
  {
    if |b| < 2 then [] else [Note(b[0], b[1])] + DecodeNotes(b[2..])
  }

  /** The frame written to the port for a command: the opcode, then its
      parameters; words high byte first. */
  function Encode(c: Command): (f: seq<Byte>)
    requires WellFormed(c)
    ensures |f| == 1 + Arity(c)
    ensures f[0] == Opcode(c)
  {
    match c
    case Start => [START]
    case Safe => [SAFE]
    case Drive(v, r) => [DRIVE, Hi(v), Lo(v), Hi(r), Lo(r)]
    case Song(slot, notes) => [SONG, slot, ByteOf(|notes|)] + EncodeNotes(notes)
    case Play(slot) => [PLAY, slot]
    case Sensors(g) => [SENSORS, g]
  }

  /** Reads a frame back into the command it carries, or None when the bytes
      are not exactly one command frame. */
  function Decode(f: seq<Byte>): Option<Command>
  {
    if |f| == 0 then None
    else if f[0] == START && |f| == 1 then Some(Start)
    else if f[0] == SAFE && |f| == 1 then Some(Safe)
    else if f[0] == DRIVE && |f| == 5 then Some(Drive(Word(f[1], f[2]), Word(f[3], f[4])))
    else if f[0] == SONG && |f| >= 3 && |f| == 3 + 2 * f[2] as int then Some(Song(f[1], DecodeNotes(f[3..])))
    else if f[0] == PLAY && |f| == 2 then Some(Play(f[1]))
    else if f[0] == SENSORS && |f| == 2 then Some(Sensors(f[1]))
    else None
  }

  lemma {:induction false} NotesRoundTrip(notes: seq<Note>)
    ensures DecodeNotes(EncodeNotes(notes)) == notes
  {
    if notes != [] {
      NotesRoundTrip(notes[1..]);
      var b := EncodeNotes(notes);
      assert b[2..] == EncodeNotes(notes[1..]);
    }
  }

  lemma {:induction false} NotesCanonical(b: seq<Byte>)
    requires |b| % 2 == 0
    ensures |DecodeNotes(b)| == |b| / 2
    ensures EncodeNotes(DecodeNotes(b)) == b
  {
    if |b| >= 2 {
      NotesCanonical(b[2..]);
      var ns := DecodeNotes(b);
      assert ns[1..] == DecodeNotes(b[2..]);
    }
  }

  lemma SongRoundTrip(slot: Byte, notes: seq<Note>)
    requires |notes| < 256
    ensures Decode(Encode(Song(slot, notes))) == Some(Song(slot, notes))
  {
    var f := Encode(Song(slot, notes));
    var count := ByteOf(|notes|);
    assert f == [SONG, slot, count] + EncodeNotes(notes);
    assert f[0] == SONG && f[1] == slot && f[2] == count;
    assert |f| == 3 + 2 * f[2] as int;
    assert f[3..] == EncodeNotes(notes);
    NotesRoundTrip(notes);
    assert Decode(f) == Some(Song(f[1], DecodeNotes(f[3..])));
  }

  /** Every well-formed command survives framing and unframing. */
  lemma DecodeEncode(c: Command)
    requires WellFormed(c)
    ensures Decode(Encode(c)) == Some(c)
  {
    match c
    case Drive(v, r) =>
      WordSplit(v);
      WordSplit(r);
    case Song(slot, notes) =>
      SongRoundTrip(slot, notes);
    case _ =>
  }

  /** Frames are canonical: a frame that decodes is exactly the encoding of
      what it decodes to. */
  lemma EncodeDecode(f: seq<Byte>)
    requires Decode(f).Some?
    ensures WellFormed(Decode(f).value)
    ensures Encode(Decode(f).value) == f
  {
    var c := Decode(f).value;
    if c.Drive? {
      WordJoin(f[1], f[2]);
      WordJoin(f[3], f[4]);
    } else if c.Song? {
      SongFrameCanonical(f);
    }
  }

  /** A SONG frame whose count byte matches its length is the encoding of the
      notes it carries. */
  lemma SongFrameCanonical(f: seq<Byte>)
    requires |f| >= 3 && f[0] == SONG && |f| == 3 + 2 * f[2] as int
    ensures |DecodeNotes(f[3..])| < 256
    ensures Encode(Song(f[1], DecodeNotes(f[3..]))) == f
  {
    var notes := DecodeNotes(f[3..]);
    NotesCanonical(f[3..]);
    SongEncoding(f[1], notes, f[2], f[3..]);
    assert [SONG, f[1], f[2]] + f[3..] == f;
  }

  /** A song frame is the opcode, the slot, the count byte and the notes. */
  lemma SongEncoding(slot: Byte, notes: seq<Note>, count: Byte, body: seq<Byte>)
    requires |notes| == count as int && EncodeNotes(notes) == body
    ensures Encode(Song(slot, notes)) == [SONG, slot, count] + body
  {
    ByteOfValue(count);
  }

  /** Reply length in bytes for each sensor packet group, as the Open
      Interface documents it. */
  const ReplyLength: map<int, nat> := map[0 := 26, 1 := 10, 2 := 6, 3 := 10, 4 := 14, 5 := 12, 6 := 52]

  /** Fixed reply length for a requested group; unknown groups fall back to the
      group-0 length. */
  function ExpectedLengthForGroup(group: int): (n: nat)
    ensures n == if group in ReplyLength then ReplyLength[group] else ReplyLength[0]
    ensures n >= 6
  {
    match group
    case 0 => 26
    case 1 => 10
    case 2 => 6
    case 3 => 10
    case 4 => 14
    case 5 => 12
    case 6 => 52
    case _ => 26
  }

  /** The sensor query for group `grp`; the group travels as `(byte)grp`. */
  function SensorRequest(grp: int): (f: seq<Byte>)
    ensures f == [142, LowByte(grp)]
  {
    Encode(Sensors(LowByte(grp)))
  }

  /** The request carries only `(byte)grp`, while the reply length is looked
      up on the whole integer: a group that wraps onto 6 asks the robot for
      group 6's 52 bytes but is read as the 26-byte fallback. */
  lemma WrappedGroupMismatch(grp: int)
    requires grp % 256 == 6 && grp != 6
    ensures SensorRequest(grp) == SensorRequest(6)
    ensures ExpectedLengthForGroup(grp) == 26 && ExpectedLengthForGroup(6) == 52
  {
    ByteOfValue(LowByte(grp));
    ByteOfValue(LowByte(6));
  }

  /** Mode entry: the Start frame, then the Safe frame. */
  function ModeEntry(): (frames: seq<seq<Byte>>)
    ensures frames == [[128], [131]]
  {
    [Encode(Start), Encode(Safe)]
  }

  /** The readiness beep: load a one-note song (C5 for 16/64 s) into slot 0,
      then play slot 0. */
  function Beep(): (frames: seq<seq<Byte>>)
    ensures frames == [[140, 0, 1, 72, 16], [141, 0]]
  {
    var song := Song(0, [Note(72, 16)]);
    assert EncodeNotes([Note(72, 16)]) == [72, 16];
    assert Encode(song) == [SONG, 0, 1] + [72, 16] == [140, 0, 1, 72, 16];
    [Encode(song), Encode(Play(0))]
  }

  /** Stop motion: velocity 0 with the straight radius word. */
  function StopMotion(): (f: seq<Byte>)
    ensures f == [137, 0, 0, 0x80, 0x00]
  {
    Encode(Drive(0, STRAIGHT))
  }

  /** Each fixed frame the poller writes reads back as the command it is
      meant to be. */
  lemma FixedFramesDecode(grp: int)
    ensures Decode(SensorRequest(grp)) == Some(Sensors(LowByte(grp)))
    ensures Decode(ModeEntry()[0]) == Some(Start) && Decode(ModeEntry()[1]) == Some(Safe)
    ensures Decode(Beep()[0]) == Some(Song(0, [Note(72, 16)]))
    ensures Decode(Beep()[1]) == Some(Play(0))
    ensures Decode(StopMotion()) == Some(Drive(0, STRAIGHT))
  {
    DecodeEncode(Sensors(LowByte(grp)));
    DecodeEncode(Song(0, [Note(72, 16)]));
    DecodeEncode(Play(0));
    DecodeEncode(Drive(0, STRAIGHT));
  }
}
