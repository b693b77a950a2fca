/** The framing of a client datagram's payload: a run of sub-packets, each a
    type byte, a length byte and that many body bytes, read with a
    `bytes.Reader`. A missing length byte reads as 0 (its error is
    ignored), and `Read` into a zeroed buffer of the declared length leaves
    the bytes past the end of the data as zeros. */
module Tlv {
  import opened Bytes

  datatype SubPacket = SubPacket(ptype: byte, body: seq<byte>)

  /** The declared body length of the sub-packet at the head of d. */
  function DeclaredLen(d: seq<byte>): nat
    requires |d| >= 1
  {
    if |d| >= 2 then d[1] else 0
  }

  /** How many body bytes the data actually holds. */
  function Available(d: seq<byte>): (n: nat)
    requires |d| >= 1
    ensures n <= DeclaredLen(d) && (|d| >= 2 ==> 2 + n <= |d|)
  {
    if |d| < 2 then 0
    else if |d| - 2 < d[1] then |d| - 2
    else d[1]
  }

  /** The sub-packet at the head of d, as the reader loop builds it. */
  function Head(d: seq<byte>): (s: SubPacket)
    requires |d| >= 1
    ensures s.ptype == d[0] && |s.body| == DeclaredLen(d)
  {
    if |d| < 2 then SubPacket(d[0], [])
    else SubPacket(d[0], d[2 .. 2 + Available(d)] + Zeros(d[1] - Available(d)))
  }

  /** Bytes the reader consumes for the head sub-packet: at least one. */
  function Consumed(d: seq<byte>): (n: nat)
    requires |d| >= 1
    ensures 1 <= n <= |d|
  {
    if |d| < 2 then 1 else 2 + Available(d)
  }

  /** One turn of the `bytes.Reader` at offset pos: `ReadByte` for the type,
      `ReadByte` for the length (0 when the data has run out, its error being
      ignored), then `Read` into a zeroed buffer of that length. Returns the
      sub-packet and the new offset. */
  method ReadSubPacket(d: seq<byte>, pos: nat) returns (s: SubPacket, next: nat)
    requires pos < |d|
    ensures s == Head(d[pos..]) && next == pos + Consumed(d[pos..]) && pos < next <= |d|
    ensures Parse(d[pos..]) == [s] + Parse(d[next..])
  {
    var ptype := d[pos];
    if pos + 1 == |d| {
      s, next := SubPacket(ptype, []), pos + 1;
    } else {
      var plen := d[pos + 1];
      var n := if |d| - (pos + 2) < plen then |d| - (pos + 2) else plen;
      s := SubPacket(ptype, d[pos + 2 .. pos + 2 + n] + Zeros(plen - n));
      next := pos + 2 + n;
    }
    HeadAt(d, pos);
    ParseStep(d, pos);
  }

  /** The head sub-packet at offset pos, in terms of d's own bytes. */
  lemma HeadAt(d: seq<byte>, pos: nat)
    requires pos < |d|
    ensures pos + 1 == |d| ==> Head(d[pos..]) == SubPacket(d[pos], []) && Consumed(d[pos..]) == 1
    ensures pos + 1 < |d| ==>
              var n := if |d| - (pos + 2) < d[pos + 1] then |d| - (pos + 2) else d[pos + 1];
              Head(d[pos..]) == SubPacket(d[pos], d[pos + 2 .. pos + 2 + n] + Zeros(d[pos + 1] - n)) &&
              Consumed(d[pos..]) == 2 + n
  {
    if pos + 1 < |d| {
      var e := d[pos..];
      assert e[1] == d[pos + 1];
      assert e[2 .. 2 + Available(e)] == d[pos + 2 .. pos + 2 + Available(e)];
    }
  }

  /** The sub-packets the reader loop yields, in order, until the data is exhausted. */
  function Parse(d: seq<byte>): seq<SubPacket>
    decreases |d|
  {
    if d == [] then [] else [Head(d)] + Parse(d[Consumed(d)..])
  }

  /** Writes sub-packets in the same framing (bodies of at most 255 bytes). */
  function Encode(subs: seq<SubPacket>): seq<byte>
    requires forall i :: 0 <= i < |subs| ==> |subs[i].body| < 256
  {
    if subs == [] then []
    else [subs[0].ptype, |subs[0].body|] + subs[0].body + Encode(subs[1..])
  }

  /** Parsing undoes encoding. */
  lemma {:induction false} ParseEncode(subs: seq<SubPacket>)
    requires forall i :: 0 <= i < |subs| ==> |subs[i].body| < 256
    ensures Parse(Encode(subs)) == subs
  {
    if subs != [] {
      var s := subs[0];
      var rest := Encode(subs[1..]);
      var d := [s.ptype, |s.body|] + s.body + rest;
      assert Encode(subs) == d;
      assert d[2 .. 2 + |s.body|] == s.body;
      assert Head(d) == s;
      assert d[Consumed(d)..] == rest;
      ParseEncode(subs[1..]);
    }
  }

  /** A trailing sub-packet whose body is cut short is still yielded, padded
      with zeros to its declared length. */
  lemma Truncated(t: byte, n: byte, b: seq<byte>)
    requires |b| < n
    ensures Parse([t, n] + b) == [SubPacket(t, b + Zeros(n - |b|))]
  {
    var d := [t, n] + b;
    HeadTruncated(t, n, b);
    assert d[|d|..] == [];
  }

  lemma HeadTruncated(t: byte, n: byte, b: seq<byte>)
    requires |b| < n
    ensures Head([t, n] + b) == SubPacket(t, b + Zeros(n - |b|))
    ensures Consumed([t, n] + b) == |[t, n] + b|
  {
    var d := [t, n] + b;
    assert Available(d) == |b|;
    assert d[2 .. 2 + |b|] == b;
  }

  /** A lone trailing type byte yields a sub-packet with an empty body. */
  lemma LoneType(t: byte)
    ensures Parse([t]) == [SubPacket(t, [])]
  {
    assert [t][Consumed([t])..] == [];
  }

  /** Parsing splits at every sub-packet boundary: the reader loop's invariant. */
  lemma ParseStep(d: seq<byte>, pos: nat)
    requires pos < |d|
    ensures Parse(d[pos..]) == [Head(d[pos..])] + Parse(d[pos + Consumed(d[pos..])..])
  {
    assert d[pos..][Consumed(d[pos..])..] == d[pos + Consumed(d[pos..])..];
  }
}
