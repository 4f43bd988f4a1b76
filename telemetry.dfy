/** Decoding the core flags of a sensor reply: byte 0 is the bumps and wheel
    drops bitfield, byte 1 the wall sensor. */
module Telemetry {
  import opened Base

  /** The six decoded signals of one reply, in the order the decoder returns
      them. */
  datatype Flags = Flags(
    bumpLeft: bool,
    bumpRight: bool,
    wall: bool,
    wdLeft: bool,
    wdCenter: bool,
    wdRight: bool)

  /** The decoder: bit 0 of byte 0 is the right bumper, bit 1 the left bumper,
      bits 2, 3 and 4 the right, left and centre wheel drops; byte 1 is the
      wall sensor, set when nonzero. */
  function ParseCoreFlags(pkt: seq<Byte>): (f: Flags)
    requires |pkt| >= 2
    ensures f.bumpRight == Bit(pkt[0], 0)
    ensures f.bumpLeft == Bit(pkt[0], 1)
    ensures f.wdRight == Bit(pkt[0], 2)
    ensures f.wdLeft == Bit(pkt[0], 3)
    ensures f.wdCenter == Bit(pkt[0], 4)
    ensures f.wall <==> pkt[1] != 0
  {
    var b0 := pkt[0];
    MaskTestsBit(b0);
    var bumpRight := b0 & 0x01 != 0;
    var bumpLeft := b0 & 0x02 != 0;
    var wdRight := b0 & 0x04 != 0;
    var wdLeft := b0 & 0x08 != 0;
    var wdCenter := b0 & 0x10 != 0;
    var wallByte := pkt[1];
    var wall := wallByte != 0;
    Flags(bumpLeft, bumpRight, wall, wdLeft, wdCenter, wdRight)
  }

  /** The two leading bytes of a reply showing the given flags, with bits 5 to
      7 of byte 0 clear and the wall byte 1 when set. */
  function FlagBytes(f: Flags): (b: seq<Byte>)
    ensures |b| == 2
  {
    var b0: Byte :=
      (if f.bumpRight then 0x01 else 0) |
      (if f.bumpLeft then 0x02 else 0) |
      (if f.wdRight then 0x04 else 0) |
      (if f.wdLeft then 0x08 else 0) |
      (if f.wdCenter then 0x10 else 0);
    [b0, if f.wall then 1 else 0]
  }

  /** Any flags survive being put on the wire and decoded, whatever follows
      the two leading bytes. */
  lemma DecodeFlagBytes(f: Flags, rest: seq<Byte>)
    ensures ParseCoreFlags(FlagBytes(f) + rest) == f
  {
    MaskTestsBit((FlagBytes(f) + rest)[0]);
  }

  /** Only bytes 0 and 1 matter, and of byte 0 only bits 0 to 4. */
  lemma {:induction false} OnlyCoreBitsMatter(p: seq<Byte>, q: seq<Byte>)
    requires |p| >= 2 && |q| >= 2
    requires p[0] & 0x1F == q[0] & 0x1F
    requires (p[1] == 0) == (q[1] == 0)
    ensures ParseCoreFlags(p) == ParseCoreFlags(q)
  {
  }

  /** Byte 0 = 0x03 sets both bumpers and no wheel drop; the wall follows
      byte 1. */
  lemma BothBumpersExample(rest: seq<Byte>)
    ensures ParseCoreFlags([0x03, 0x00] + rest) == Flags(true, true, false, false, false, false)
    ensures ParseCoreFlags([0x03, 0x01] + rest) == Flags(true, true, true, false, false, false)
  {
  }
}
