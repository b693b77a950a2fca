/** The byte layouts the server sends: the handshake acknowledgement, the
    slot update and the two kinds of slot block inside it. Every 16-bit
    field is big-endian. */
module Wire {
  import opened Bytes

  /** The bytes Go's `buf.Write` appends for a slice that may be nil. */
  function BytesOf(b: Option<seq<byte>>): seq<byte>
  {
    if b.Some? then b.value else []
  }

  /** `replyHandshake`'s datagram: sequence number, 0x01, relative time, the
      client's two time bytes, then 01 01 01 01. */
  function Ack(seqNo: nat, rel: nat, cliTime: seq<byte>): (r: seq<byte>)
    requires seqNo < 65536 && rel < 65536
    ensures |r| == 9 + |cliTime|
    ensures Uint16BE(r[0..2]) == seqNo && r[2] == 1 && Uint16BE(r[3..5]) == rel
    ensures r[5 .. 5 + |cliTime|] == cliTime && r[5 + |cliTime|..] == [1, 1, 1, 1]
  {
    PutUint16BE(seqNo) + [1] + PutUint16BE(rel) + cliTime + [1, 1, 1, 1]
  }

  /** The slot update's header: sequence number, 0x02, relative time, the
      client's time bytes, the sequence number again, then FF FF 00. */
  function Header(seqNo: nat, rel: nat, cliTime: seq<byte>): (r: seq<byte>)
    requires seqNo < 65536 && rel < 65536
    ensures |r| == 10 + |cliTime|
    ensures Uint16BE(r[0..2]) == seqNo && r[2] == 2 && Uint16BE(r[3..5]) == rel
    ensures r[5 .. 5 + |cliTime|] == cliTime
    ensures Uint16BE(r[5 + |cliTime| .. 7 + |cliTime|]) == seqNo
    ensures r[7 + |cliTime|..] == [0xff, 0xff, 0x00]
  {
    PutUint16BE(seqNo) + [2] + PutUint16BE(rel) + cliTime + PutUint16BE(seqNo) + [0xff, 0xff, 0x00]
  }

  const Trailer: seq<byte> := [1, 1, 1, 1]

  /** An empty slot. */
  const EmptyBlock: seq<byte> := [0xff, 0xff]

  /** `getFullSlotPacket`: slot start, then the channel, player and position
      sub-packets with their fixed type and size bytes, then slot end. */
  function FullBlock(chan: seq<byte>, player: seq<byte>, pos: seq<byte>): (r: seq<byte>)
    ensures |r| == 3 + |chan| + 2 + |player| + 2 + |pos| + 1
    ensures r[..3] == [0x00, 0x00, 0x22] && r[|r| - 1] == 0xff
    ensures r[3 .. 3 + |chan|] == chan
    ensures r[3 + |chan| .. 5 + |chan|] == [0x01, 0x41]
    ensures r[5 + |chan| .. 5 + |chan| + |player|] == player
    ensures r[5 + |chan| + |player| .. 7 + |chan| + |player|] == [0x12, 0x1a]
    ensures r[7 + |chan| + |player| .. |r| - 1] == pos
  {
    [0x00, 0x00, 0x22] + chan + [0x01, 0x41] + player + [0x12, 0x1a] + pos + [0xff]
  }

  /** `getFullPosPacket`: slot start, the position sub-packet, slot end. */
  function PosBlock(pos: seq<byte>): (r: seq<byte>)
    ensures |r| == 3 + |pos| + 1
    ensures r[..3] == [0x00, 0x12, 0x1a] && r[3 .. 3 + |pos|] == pos && r[|r| - 1] == 0xff
  {
    [0x00, 0x12, 0x1a] + pos + [0xff]
  }

  /** With the sizes the size bytes announce (34, 65 and 26 bytes), a full block
      is 133 bytes and a position block 30. */
  lemma BlockSizes(chan: seq<byte>, player: seq<byte>, pos: seq<byte>)
    requires |chan| == 0x22 && |player| == 0x41 && |pos| == 0x1a
    ensures |FullBlock(chan, player, pos)| == 133
    ensures |PosBlock(pos)| == 30
  {
  }

  /** The whole slot update: header, the 14 blocks in slot order, trailer. */
  function SlotUpdate(seqNo: nat, rel: nat, cliTime: seq<byte>, blocks: seq<byte>): (r: seq<byte>)
    requires seqNo < 65536 && rel < 65536
    ensures |r| == 10 + |cliTime| + |blocks| + 4
    ensures r[..10 + |cliTime|] == Header(seqNo, rel, cliTime)
    ensures r[10 + |cliTime| .. 10 + |cliTime| + |blocks|] == blocks
    ensures r[10 + |cliTime| + |blocks|..] == Trailer
  {
    Header(seqNo, rel, cliTime) + blocks + Trailer
  }

  /** n empty slots: 2n bytes 0xff. */
  function EmptyBlocks(n: nat): (r: seq<byte>)
  {
    seq(2 * n, _ => 0xff)
  }

  /** One more empty slot appends one `EmptyBlock`. */
  lemma EmptyBlocksSnoc(n: nat)
    ensures EmptyBlocks(n + 1) == EmptyBlocks(n) + EmptyBlock
  {
    assert |EmptyBlocks(n + 1)| == |EmptyBlocks(n) + EmptyBlock|;
    forall i | 0 <= i < 2 * n + 2
      ensures EmptyBlocks(n + 1)[i] == (EmptyBlocks(n) + EmptyBlock)[i]
    {
    }
  }

  /** A slot update announcing 14 empty slots. */
  function EmptySlotUpdate(seqNo: nat, rel: nat, cliTime: seq<byte>): (r: seq<byte>)
    requires seqNo < 65536 && rel < 65536
    ensures |r| == 42 + |cliTime|
  {
    SlotUpdate(seqNo, rel, cliTime, EmptyBlocks(14))
  }

  /** With two client time bytes the sequence number sits at offsets 0 and 7
      and the handshake acknowledgement is 11 bytes. */
  lemma TwoByteClientTime(seqNo: nat, rel: nat, cliTime: seq<byte>)
    requires seqNo < 65536 && rel < 65536 && |cliTime| == 2
    ensures |Ack(seqNo, rel, cliTime)| == 11
    ensures Uint16BE(Header(seqNo, rel, cliTime)[0..2]) == seqNo
    ensures Uint16BE(Header(seqNo, rel, cliTime)[7..9]) == seqNo
    ensures |EmptySlotUpdate(seqNo, rel, cliTime)| == 44
  {
  }
}
