/** The car-position sub-packet (type 0x12) of the freeroam protocol.

    A client keeps the raw bytes of its last position sub-packet and the
    position decoded from it. Byte 2 carries the "flying" flag in bit 3;
    when it is set, bytes 3..5 hold a 17-bit Y coordinate and bytes 7..9 an
    18-bit X coordinate, packed in one of two layouts chosen by the
    big-endian 16-bit value of bytes 3..4 (at most 1941: "low Y"). Bytes 0..1
    are overwritten with a 16-bit timestamp each time the packet is relayed
    to another client. */
module PosCodec {
  import opened Bytes

  datatype Vector2D = Vector2D(x: int, y: int)

  /** The value of `bitMask(n)`: the low n bits set, at most 32 of them.
      The decoders, being functions, use it in place of the loop. */
  function Mask(n: int): nat
  {
    if n <= 0 then 0 else if n >= 32 then Pow2(32) - 1 else Pow2(n) - 1
  }

  /** `bitMask(n)`: sets bits 0..n-1 of a Go `int` one at a time, then
      truncates to `uint32`. */
  method BitMask(n: int) returns (r: nat)
    ensures r == Mask(n)
  {
    var out: nat := 0;
    var i := 0;
    while i < n
      invariant 0 <= i <= if n > 0 then n else 0
      invariant out == Pow2(i) - 1
    {
      OrNextBit(i);
      out := Or(out, Pow2(i));
      i := i + 1;
    }
    if n >= 32 {
      LowBitsOfOnes(i, 32);
    } else {
      Pow2Mono(i, 32);
      ModSmall(out, Pow2(32));
    }
    r := out % Pow2(32);
  }

  /** `(packet[2] >> 3) & 1 == 1`: the flying flag. */
  function Flying(p: seq<byte>): (r: bool)
    requires |p| >= 3
    ensures r <==> (p[2] / 8) % 2 == 1
  {
    AndLowMask(p[2] / 8, 1);
    And(p[2] / 8, 1) == 1
  }

  /** `isLowY`: bytes 3..4 read as a big-endian 16-bit value are at most 1941. */
  function IsLowY(p: seq<byte>): (r: bool)
    requires |p| >= 6
    ensures r <==> p[3] < 7 || (p[3] == 7 && p[4] <= 149)
  {
    Uint16BE(p[3..6]) <= 1941
  }

  lemma YBits(b3: byte, b4: byte, o2: nat, e: nat)
    requires o2 == 4 * e && e < 64
    ensures ((b3 as int) * 65536 + (b4 as int) * 256 + o2) / 4 == (b3 as int) * 16384 + (b4 as int) * 64 + e
    ensures (((b3 as int) * 65536 + (b4 as int) * 256 + o2) / 4) % 131072 == (b3 % 8) * 16384 + (b4 as int) * 64 + e
  {
    var v := (b3 as int) * 65536 + (b4 as int) * 256 + o2;
    var w := (b3 as int) * 16384 + (b4 as int) * 64 + e;
    DivModUnique(v, 4, w, 0);
    assert (b3 as int) * 16384 == 131072 * (b3 / 8) + (b3 % 8) * 16384;
    DivModUnique(w, 131072, b3 / 8, (b3 % 8) * 16384 + (b4 as int) * 64 + e);
  }

  lemma XBits(o0: nat, b8: byte, o2: nat, e: nat, s: nat)
    requires s == 5 || s == 4
    requires s == 5 ==> o0 < 128 && o2 == 32 * e && e < 8
    requires s == 4 ==> o0 < 64 && o2 == 16 * e && e < 16
    ensures s == 5 ==> (o0 * 65536 + (b8 as int) * 256 + o2) / 32 == o0 * 2048 + (b8 as int) * 8 + e
    ensures s == 4 ==> (o0 * 65536 + (b8 as int) * 256 + o2) / 16 == o0 * 4096 + (b8 as int) * 16 + e
    ensures (if s == 5 then o0 * 2048 + (b8 as int) * 8 + e else o0 * 4096 + (b8 as int) * 16 + e) < 262144
  {
    var v := o0 * 65536 + (b8 as int) * 256 + o2;
    if s == 5 {
      DivModUnique(v, 32, o0 * 2048 + (b8 as int) * 8 + e, 0);
    } else {
      DivModUnique(v, 16, o0 * 4096 + (b8 as int) * 16 + e, 0);
    }
  }

  lemma Pow2Small()
    ensures Pow2(2) == 4 && Pow2(4) == 16 && Pow2(5) == 32
    ensures Pow2(7) == 128 && Pow2(6) == 64
    ensures Pow2(17) == 131072 && Pow2(18) == 262144
  {
  }

  /** `getY`: bytes 3..5, the low bits of byte 5 cleared (three in the low-Y
      layout, two otherwise), shifted right by 2 and kept to 17 bits. */
  function GetY(p: seq<byte>): nat
    requires |p| >= 6
  {
    AndF8(p[5]);
    AndFC(p[5]);
    Pow2Small();
    var o2: byte := if IsLowY(p) then And(p[5], 0xf8) else And(p[5], 0xfc);
    And(Uint32BE([0, p[3], p[4], o2]) / Pow2(2), Mask(17))
  }

  /** Y is 17 bits: the low three bits of byte 3, byte 4, and the high five
      bits of byte 5 doubled (low-Y layout, so Y is even) or its high six bits. */
  lemma GetYValue(p: seq<byte>)
    requires |p| >= 6
    ensures GetY(p) < Pow2(17)
    ensures IsLowY(p) ==> GetY(p) == (p[3] % 8) * 16384 + (p[4] as int) * 64 + (p[5] / 8) * 2
    ensures IsLowY(p) ==> GetY(p) % 2 == 0
    ensures !IsLowY(p) ==> GetY(p) == (p[3] % 8) * 16384 + (p[4] as int) * 64 + p[5] / 4
  {
    Pow2Small();
    if IsLowY(p) {
      GetYLow(p);
    } else {
      GetYHigh(p);
    }
  }

  lemma GetYLow(p: seq<byte>)
    requires |p| >= 6 && IsLowY(p)
    ensures GetY(p) == (p[3] % 8) * 16384 + (p[4] as int) * 64 + (p[5] / 8) * 2
    ensures GetY(p) % 2 == 0 && GetY(p) < Pow2(17)
  {
    AndF8(p[5]);
    Pow2Small();
    var o2: byte := And(p[5], 0xf8);
    var e := (p[5] / 8) * 2;
    YBits(p[3], p[4], o2, e);
    KeepLowBits(Uint32BE([0, p[3], p[4], o2]) / Pow2(2), (p[3] % 8) * 16384 + (p[4] as int) * 64 + e, 17);
    YFits(p[3] % 8, p[4] as int, e);
    YEven(p[3] % 8, p[4] as int, p[5] / 8);
  }

  lemma GetYHigh(p: seq<byte>)
    requires |p| >= 6 && !IsLowY(p)
    ensures GetY(p) == (p[3] % 8) * 16384 + (p[4] as int) * 64 + p[5] / 4
    ensures GetY(p) < Pow2(17)
  {
    AndFC(p[5]);
    Pow2Small();
    var o2: byte := And(p[5], 0xfc);
    var e := p[5] / 4;
    YBits(p[3], p[4], o2, e);
    KeepLowBits(Uint32BE([0, p[3], p[4], o2]) / Pow2(2), (p[3] % 8) * 16384 + (p[4] as int) * 64 + e, 17);
    YFits(p[3] % 8, p[4] as int, e);
  }

  /** The three fields of Y fit its 17 bits. */
  lemma YFits(a: int, b: int, e: int)
    requires 0 <= a < 8 && 0 <= b < 256 && 0 <= e < 64
    ensures 0 <= a * 16384 + b * 64 + e < 131072
  {
  }

  /** In the low-Y layout the last field of Y is doubled, so Y is even. */
  lemma YEven(a: int, b: int, c: int)
    ensures (a * 16384 + b * 64 + c * 2) % 2 == 0
  {
    assert a * 16384 + b * 64 + c * 2 == 2 * (a * 8192 + b * 32 + c);
  }

  /** `getX`: bytes 7..9, the high bits of byte 7 cleared (one in the low-Y
      layout, two otherwise) and the low bits of byte 9 cleared (five or
      four), shifted right by 5 or 4 and kept to 18 bits. */
  function GetX(p: seq<byte>): nat
    requires |p| >= 10
  {
    AndE0(p[9]);
    AndF0(p[9]);
    AndLowMask(p[7], 7);
    AndLowMask(p[7], 6);
    Pow2Small();
    var low := IsLowY(p);
    var o0: byte := if low then And(p[7], 0x7f) else And(p[7], 0x3f);
    var o2: byte := if low then And(p[9], 0xe0) else And(p[9], 0xf0);
    var shift: nat := if low then 5 else 4;
    And(Uint32BE([0, o0, p[8], o2]) / Pow2(shift), Mask(18))
  }

  /** X is 18 bits: in the low-Y layout the low seven bits of byte 7, byte 8
      and the high three bits of byte 9; otherwise the low six bits of byte 7,
      byte 8 and the high four bits of byte 9. */
  lemma GetXValue(p: seq<byte>)
    requires |p| >= 10
    ensures GetX(p) < Pow2(18)
    ensures IsLowY(p) ==> GetX(p) == (p[7] % 128) * 2048 + (p[8] as int) * 8 + p[9] / 32
    ensures !IsLowY(p) ==> GetX(p) == (p[7] % 64) * 4096 + (p[8] as int) * 16 + p[9] / 16
  {
    Pow2Small();
    if IsLowY(p) {
      GetXLow(p);
    } else {
      GetXHigh(p);
    }
  }

  lemma GetXLow(p: seq<byte>)
    requires |p| >= 10 && IsLowY(p)
    ensures GetX(p) == (p[7] % 128) * 2048 + (p[8] as int) * 8 + p[9] / 32
  {
    AndE0(p[9]);
    AndLowMask(p[7], 7);
    Pow2Small();
    var o0: byte := And(p[7], 0x7f);
    var o2: byte := And(p[9], 0xe0);
    assert o0 == p[7] % 128 && o2 == 32 * (p[9] / 32);
    var u := Uint32BE([0, o0, p[8], o2]);
    assert u == o0 * 65536 + (p[8] as int) * 256 + o2;
    var w := (p[7] % 128) * 2048 + (p[8] as int) * 8 + p[9] / 32;
    XBits(o0, p[8], o2, p[9] / 32, 5);
    assert u / Pow2(5) == w;
    ModSmall(w, Pow2(18));
    KeepLowBits(u / Pow2(5), w, 18);
    assert GetX(p) == And(u / Pow2(5), Mask(18));
  }

  lemma GetXHigh(p: seq<byte>)
    requires |p| >= 10 && !IsLowY(p)
    ensures GetX(p) == (p[7] % 64) * 4096 + (p[8] as int) * 16 + p[9] / 16
  {
    AndF0(p[9]);
    AndLowMask(p[7], 6);
    Pow2Small();
    var o0: byte := And(p[7], 0x3f);
    var o2: byte := And(p[9], 0xf0);
    assert o0 == p[7] % 64 && o2 == 16 * (p[9] / 16);
    var u := Uint32BE([0, o0, p[8], o2]);
    assert u == o0 * 65536 + (p[8] as int) * 256 + o2;
    var w := (p[7] % 64) * 4096 + (p[8] as int) * 16 + p[9] / 16;
    XBits(o0, p[8], o2, p[9] / 16, 4);
    assert u / Pow2(4) == w;
    ModSmall(w, Pow2(18));
    KeepLowBits(u / Pow2(4), w, 18);
    assert GetX(p) == And(u / Pow2(4), Mask(18));
  }

  lemma KeepLowBits(u: nat, w: nat, n: nat)
    requires u % Pow2(n) == w
    ensures And(u, Pow2(n) - 1) == w
  {
    AndLowMask(u, n);
  }

  /** The stored packet after `Packet(t)`: bytes 0..1 replaced by big-endian t. */
  function Stamp(p: seq<byte>, t: nat): (r: seq<byte>)
    requires |p| >= 2 && t < 65536
    ensures |r| == |p| && Uint16BE(r) == t
    ensures forall i :: 2 <= i < |p| ==> r[i] == p[i]
  {
    PutUint16BE(t) + p[2..]
  }

  /** Stamping again with the same time changes nothing, and a later stamp
      replaces an earlier one. */
  lemma StampStamp(p: seq<byte>, t1: nat, t2: nat)
    requires |p| >= 2 && t1 < 65536 && t2 < 65536
    ensures Stamp(Stamp(p, t1), t2) == Stamp(p, t2)
    ensures Stamp(Stamp(p, t1), t1) == Stamp(p, t1)
  {
    assert Stamp(p, t1)[2..] == p[2..];
  }

  /** The timestamp does not touch the bytes the position is decoded from. */
  lemma StampKeepsPosition(p: seq<byte>, t: nat)
    requires |p| >= 3 && t < 65536
    ensures Flying(Stamp(p, t)) == Flying(p)
    ensures |p| >= 6 ==> IsLowY(Stamp(p, t)) == IsLowY(p) && GetY(Stamp(p, t)) == GetY(p)
    ensures |p| >= 10 ==> GetX(Stamp(p, t)) == GetX(p)
  {
  }

  /** `CarPosPacket`: the raw last position sub-packet (`None` for Go's nil
      slice) and the last decoded position. */
  class CarPosPacket {
    var packet: Option<seq<byte>>
    var pos: Vector2D

    /** The zero value `CarPosPacket{}`. */
    constructor ()
      ensures packet == None && pos == Vector2D(0, 0)
    {
      packet := None;
      pos := Vector2D(0, 0);
    }

    /** `Valid`: a packet has been stored. */
    predicate Valid()
      reads this
    {
      packet.Some?
    }

    /** `Pos`: the last decoded position. */
    function Pos(): Vector2D
      reads this
    {
      pos
    }

    /** `Packet(t)`: writes t big-endian into bytes 0..1 of the stored packet
        and returns it. The stored packet must exist and hold two bytes, or Go
        indexes out of range. */
    method Packet(t: nat) returns (r: seq<byte>)
      requires packet.Some? && |packet.value| >= 2 && t < 65536
      modifies this`packet
      ensures packet == Some(Stamp(old(packet.value), t)) && r == packet.value
    {
      packet := Some(Stamp(packet.value, t));
      r := packet.value;
    }

    /** `c.carPos = CarPosPacket{}` on a re-handshake: back to the zero value. */
    method Reset()
      modifies this
      ensures packet == None && pos == Vector2D(0, 0) && !Valid()
    {
      packet := None;
      pos := Vector2D(0, 0);
    }

    /** `Update(p)`: stores p and, when its flying flag is set, decodes the
        position from it. Go indexes byte 2 always and bytes up to 9 when
        flying, so shorter packets are excluded here. */
    method Update(p: seq<byte>)
      requires |p| >= 3 && (Flying(p) ==> |p| >= 10)
      modifies this
      ensures packet == Some(p) && Valid()
      ensures pos == if Flying(p) then Vector2D(GetX(p), GetY(p)) else old(pos)
    {
      packet := Some(p);
      if Flying(p) {
        pos := Vector2D(GetX(p), GetY(p));
      }
    }
  }

  /** Whether `Update(p)` can run without an index panic in Go. */
  predicate UpdateSafe(p: seq<byte>)
  {
    |p| >= 3 && (Flying(p) ==> |p| >= 10)
  }

  /** 1941 is the last value of bytes 3..4 read as low Y, 1942 the first read as high Y. */
  lemma LowYBoundary(p: seq<byte>)
    requires |p| >= 6
    ensures Uint16BE(p[3..5]) == 1941 ==> IsLowY(p)
    ensures Uint16BE(p[3..5]) == 1942 ==> !IsLowY(p)
    ensures IsLowY(p) <==> Uint16BE(p[3..5]) <= 1941
  {
  }
}
