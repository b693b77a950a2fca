/** What a client's data datagram does to the client's own state, as a fold
    over its sub-packets. A channel (0x00) or player (0x01) sub-packet
    replaces the stored bytes; a position sub-packet (0x12) updates the
    position packet and the ping; any other type is skipped. After every
    handled sub-packet, once the client is ready, a slot update goes out.

    The fold describes the states the server is ever in, where no table
    holds anyone but its owner: there every slot update announces 14 empty
    slots, so the update is `EmptySlotUpdate` with the next sequence number. */
module Demux {
  import opened Bytes
  import opened PosCodec
  import opened Tlv
  import opened Wire

  /** The client state a datagram can change. */
  datatype View = View(chan: Option<seq<byte>>, player: Option<seq<byte>>,
                       packet: Option<seq<byte>>, pos: Vector2D, ping: int, seqNo: nat)

  /** The result of a run of sub-packets: the new state, the sequence
      numbers of the slot updates sent, in order, and whether Go would have
      panicked on a short position body. Each update sent is the
      `EmptySlotUpdate` with its sequence number. */
  datatype Outcome = Outcome(view: View, sent: seq<nat>, crashed: bool)

  /** A datagram that opens (or re-opens) a session: 58 bytes, byte 2 is 6. */
  predicate IsHandshake(p: seq<byte>)
  {
    |p| == 58 && p[2] == 6
  }

  /** The sub-packet area of a data datagram: a 16-byte header and a 5-byte
      trailer are cut off. */
  function Payload(p: seq<byte>): (d: seq<byte>)
    requires |p| > 22
    ensures |d| == |p| - 21 && d == p[16 .. |p| - 5]
  {
    p[16 .. |p| - 5]
  }

  /** `isOk()` on a view. */
  predicate Ready(v: View)
  {
    v.chan.Some? && v.player.Some? && v.packet.Some?
  }

  /** Whether the sub-packet type is one the loop acts on. */
  predicate Handled(t: byte)
  {
    t == 0x00 || t == 0x01 || t == 0x12
  }

  /** The state after storing one handled sub-packet. `rel` is
      `getTimeDiff()`; the ping is its uint16 difference with the client
      time in the position body's first two bytes. */
  function Store(v: View, s: SubPacket, rel: nat): (r: View)
    requires Handled(s.ptype) && (s.ptype == 0x12 ==> UpdateSafe(s.body))
    ensures r.seqNo == v.seqNo
    ensures s.ptype == 0x00 ==> r == v.(chan := Some(s.body))
    ensures s.ptype == 0x01 ==> r == v.(player := Some(s.body))
    ensures s.ptype == 0x12 ==> r.packet == Some(s.body) && r.chan == v.chan && r.player == v.player
    ensures s.ptype == 0x12 ==> 0 <= r.ping < 65536
  {
    if s.ptype == 0x00 then v.(chan := Some(s.body))
    else if s.ptype == 0x01 then v.(player := Some(s.body))
    else
      v.(packet := Some(s.body),
         pos := if Flying(s.body) then Vector2D(GetX(s.body), GetY(s.body)) else v.pos,
         ping := Wrap16(rel - Uint16BE(s.body[0..2])))
  }

  /** One turn of the reader loop. It sends at most one update, carrying
      the current sequence number, and advances the sequence number exactly
      when it sends. */
  function Step(v: View, s: SubPacket, rel: nat, cliTime: seq<byte>): (o: Outcome)
    requires v.seqNo < 65536 && rel < 65536
    ensures (o.sent == [] && o.view.seqNo == v.seqNo) ||
            (o.sent == [v.seqNo] && o.view.seqNo == (v.seqNo + 1) % 65536)
  {
    if !Handled(s.ptype) then Outcome(v, [], false)
    else if s.ptype == 0x12 && !UpdateSafe(s.body) then Outcome(v, [], true)
    else
      var w := Store(v, s, rel);
      if Ready(w) then Outcome(w.(seqNo := (w.seqNo + 1) % 65536), [w.seqNo], false)
      else Outcome(w, [], false)
  }

  /** Prefixes the updates sent before a run. */
  function After(sent: seq<nat>, o: Outcome): Outcome
  {
    o.(sent := sent + o.sent)
  }

  /** The reader loop over a list of sub-packets; it stops at a panic. */
  function Run(v: View, subs: seq<SubPacket>, rel: nat, cliTime: seq<byte>): (o: Outcome)
    requires v.seqNo < 65536 && rel < 65536
    ensures o.view.seqNo < 65536
    ensures forall k :: 0 <= k < |o.sent| ==> o.sent[k] < 65536
    decreases |subs|
  {
    if subs == [] then Outcome(v, [], false)
    else
      var o := Step(v, subs[0], rel, cliTime);
      if o.crashed then o
      else After(o.sent, Run(o.view, subs[1..], rel, cliTime))
  }

  /** A run advances the sequence number by the number of updates it sent,
      and sends at most one update per sub-packet. */
  lemma {:induction false} RunSeqNo(v: View, subs: seq<SubPacket>, rel: nat, cliTime: seq<byte>)
    requires v.seqNo < 65536 && rel < 65536
    ensures var o := Run(v, subs, rel, cliTime);
            !o.crashed ==> o.view.seqNo == (v.seqNo + |o.sent|) % 65536
    ensures |Run(v, subs, rel, cliTime).sent| <= |subs|
    decreases |subs|
  {
    if subs != [] {
      var o := Step(v, subs[0], rel, cliTime);
      if !o.crashed {
        RunSeqNo(o.view, subs[1..], rel, cliTime);
        if o.sent != [] {
          NextSeq(v.seqNo, |Run(o.view, subs[1..], rel, cliTime).sent|);
        }
      }
    }
  }

  /** The datagrams of the slot updates numbered nums, in order. */
  function Updates(nums: seq<nat>, rel: nat, cliTime: seq<byte>): (r: seq<seq<byte>>)
    requires rel < 65536 && forall k :: 0 <= k < |nums| ==> nums[k] < 65536
    ensures |r| == |nums|
  {
    seq(|nums|, k requires 0 <= k < |nums| => EmptySlotUpdate(nums[k], rel, cliTime))
  }

  /** Sending a's updates and then b's is sending those of a + b. */
  lemma UpdatesAppend(a: seq<nat>, b: seq<nat>, rel: nat, cliTime: seq<byte>)
    requires rel < 65536 && forall k :: 0 <= k < |a| ==> a[k] < 65536
    requires forall k :: 0 <= k < |b| ==> b[k] < 65536
    ensures Updates(a + b, rel, cliTime) == Updates(a, rel, cliTime) + Updates(b, rel, cliTime)
  {
    var l, r := Updates(a + b, rel, cliTime), Updates(a, rel, cliTime) + Updates(b, rel, cliTime);
    forall k | 0 <= k < |a + b|
      ensures l[k] == r[k]
    {
      if k < |a| {
        assert (a + b)[k] == a[k];
      } else {
        assert (a + b)[k] == b[k - |a|];
      }
    }
  }

  /** The reader loop's bookkeeping: a run that has already sent `done`
      and meets s next goes on as the run after s, having also sent what s
      sent; if s panics the run ends there with `done` sent. */
  lemma Advance(whole: Outcome, done: seq<nat>, v: View, s: SubPacket, rest: seq<SubPacket>, rel: nat, cliTime: seq<byte>)
    requires v.seqNo < 65536 && rel < 65536
    requires whole == After(done, Run(v, [s] + rest, rel, cliTime))
    ensures Step(v, s, rel, cliTime).crashed ==> whole.crashed && whole.sent == done
    ensures !Step(v, s, rel, cliTime).crashed ==>
              whole == After(done + Step(v, s, rel, cliTime).sent, Run(Step(v, s, rel, cliTime).view, rest, rel, cliTime))
  {
    assert ([s] + rest)[0] == s && ([s] + rest)[1..] == rest;
  }

  /** Updates sent in two stretches are sent in one. */
  lemma AfterAfter(a: seq<nat>, b: seq<nat>, o: Outcome)
    ensures After(a, After(b, o)) == After(a + b, o)
  {
    assert a + (b + o.sent) == (a + b) + o.sent;
  }

  /** n consecutive sequence numbers from start, wrapping at 2^16. */
  function Numbers(start: nat, n: nat): (r: seq<nat>)
    ensures |r| == n
  {
    seq(n, k => (start + k) % 65536)
  }

  /** Numbering on from a is a, then numbering on from a + 1. */
  lemma NumbersCons(a: nat, n: nat)
    requires a < 65536
    ensures [a] + Numbers((a + 1) % 65536, n) == Numbers(a, n + 1)
  {
    var l, r := [a] + Numbers((a + 1) % 65536, n), Numbers(a, n + 1);
    forall k | 0 <= k < n + 1
      ensures l[k] == r[k]
    {
      if k > 0 {
        NextSeq(a, k - 1);
      }
    }
  }

  /** The slot updates of a run carry consecutive sequence numbers from the
      one the run starts with. */
  lemma {:induction false} RunSequence(v: View, subs: seq<SubPacket>, rel: nat, cliTime: seq<byte>)
    requires v.seqNo < 65536 && rel < 65536
    ensures Run(v, subs, rel, cliTime).sent == Numbers(v.seqNo, |Run(v, subs, rel, cliTime).sent|)
    decreases |subs|
  {
    if subs != [] {
      var o := Step(v, subs[0], rel, cliTime);
      if !o.crashed {
        RunSequence(o.view, subs[1..], rel, cliTime);
        var r := Run(o.view, subs[1..], rel, cliTime);
        if o.sent != [] {
          NumbersCons(v.seqNo, |r.sent|);
        }
      }
    }
  }

  /** Advancing by one and then by k is advancing by k + 1, mod 2^16. */
  lemma NextSeq(a: nat, k: nat)
    requires a < 65536
    ensures ((a + 1) % 65536 + k) % 65536 == (a + k + 1) % 65536
  {
    if a == 65535 {
      assert (a + 1) % 65536 == 0;
      assert (a + k + 1) == k + 65536;
    } else {
      assert (a + 1) % 65536 == a + 1;
    }
  }

  /** The k-th datagram a run sends is the empty slot update numbered
      seqNo + k (mod 2^16). */
  lemma RunUpdates(v: View, subs: seq<SubPacket>, rel: nat, cliTime: seq<byte>, k: nat)
    requires v.seqNo < 65536 && rel < 65536
    requires k < |Run(v, subs, rel, cliTime).sent|
    ensures Updates(Run(v, subs, rel, cliTime).sent, rel, cliTime)[k] == EmptySlotUpdate((v.seqNo + k) % 65536, rel, cliTime)
  {
    var sent := Run(v, subs, rel, cliTime).sent;
    RunSequence(v, subs, rel, cliTime);
    assert sent[k] == Numbers(v.seqNo, |sent|)[k] == (v.seqNo + k) % 65536;
  }

  /** Every datagram of sent is an empty slot update, the k-th numbered
      first + k (mod 2^16). */
  predicate Numbered(sent: seq<seq<byte>>, first: int, rel: nat, cliTime: seq<byte>)
    requires rel < 65536
  {
    forall k :: 0 <= k < |sent| ==> sent[k] == EmptySlotUpdate((first + k) % 65536, rel, cliTime)
  }

  /** The datagrams a run sends are numbered on from the sequence number it
      starts from. */
  lemma RunNumbered(v: View, subs: seq<SubPacket>, rel: nat, cliTime: seq<byte>)
    requires v.seqNo < 65536 && rel < 65536
    ensures Numbered(Updates(Run(v, subs, rel, cliTime).sent, rel, cliTime), v.seqNo, rel, cliTime)
  {
    forall k | 0 <= k < |Run(v, subs, rel, cliTime).sent| {
      RunUpdates(v, subs, rel, cliTime, k);
    }
  }

  /** A run panics exactly when it meets a position sub-packet too short
      for `Update`. */
  lemma {:induction false} RunCrash(v: View, subs: seq<SubPacket>, rel: nat, cliTime: seq<byte>)
    requires v.seqNo < 65536 && rel < 65536
    ensures Run(v, subs, rel, cliTime).crashed <==>
            exists i :: 0 <= i < |subs| && subs[i].ptype == 0x12 && !UpdateSafe(subs[i].body)
    decreases |subs|
  {
    if subs != [] {
      var o := Step(v, subs[0], rel, cliTime);
      RunCrash(o.view, subs[1..], rel, cliTime);
      if !o.crashed {
        if exists i :: 0 <= i < |subs| && subs[i].ptype == 0x12 && !UpdateSafe(subs[i].body) {
          var i :| 0 <= i < |subs| && subs[i].ptype == 0x12 && !UpdateSafe(subs[i].body);
          assert i != 0;
          assert subs[1..][i - 1] == subs[i];
        }
      }
    }
  }

  /** Once ready, a client stays ready: nothing in the loop clears the
      channel, player or position bytes. */
  lemma {:induction false} RunKeepsReady(v: View, subs: seq<SubPacket>, rel: nat, cliTime: seq<byte>)
    requires v.seqNo < 65536 && rel < 65536 && Ready(v)
    ensures Ready(Run(v, subs, rel, cliTime).view)
    decreases |subs|
  {
    if subs != [] {
      var o := Step(v, subs[0], rel, cliTime);
      if !o.crashed {
        RunKeepsReady(o.view, subs[1..], rel, cliTime);
      }
    }
  }

  /** A ready client answers every handled sub-packet with one slot update,
      and a run without a panic where it is ready throughout sends one
      update per handled sub-packet. */
  lemma {:induction false} RunReadyCount(v: View, subs: seq<SubPacket>, rel: nat, cliTime: seq<byte>)
    requires v.seqNo < 65536 && rel < 65536 && Ready(v)
    ensures var o := Run(v, subs, rel, cliTime);
            !o.crashed ==> |o.sent| == HandledCount(subs)
    decreases |subs|
  {
    if subs != [] {
      var o := Step(v, subs[0], rel, cliTime);
      if !o.crashed {
        RunReadyCount(o.view, subs[1..], rel, cliTime);
      }
    }
  }

  /** The number of sub-packets of a handled type. */
  function HandledCount(subs: seq<SubPacket>): (n: nat)
    ensures n <= |subs|
  {
    if subs == [] then 0 else (if Handled(subs[0].ptype) then 1 else 0) + HandledCount(subs[1..])
  }

  /** The last body of type t in subs, or d when there is none. */
  function LastBody(subs: seq<SubPacket>, t: byte, d: Option<seq<byte>>): Option<seq<byte>>
  {
    if subs == [] then d
    else LastBody(subs[1..], t, if subs[0].ptype == t then Some(subs[0].body) else d)
  }

  /** The channel and player bytes after a run are those of the last
      sub-packet of that type: later ones overwrite earlier ones. */
  lemma {:induction false} RunLastWins(v: View, subs: seq<SubPacket>, rel: nat, cliTime: seq<byte>)
    requires v.seqNo < 65536 && rel < 65536
    ensures var o := Run(v, subs, rel, cliTime);
            !o.crashed ==> o.view.chan == LastBody(subs, 0x00, v.chan) &&
                           o.view.player == LastBody(subs, 0x01, v.player) &&
                           o.view.packet == LastBody(subs, 0x12, v.packet)
    decreases |subs|
  {
    if subs != [] {
      var o := Step(v, subs[0], rel, cliTime);
      if !o.crashed {
        RunLastWins(o.view, subs[1..], rel, cliTime);
      }
    }
  }

  /** A payload that is already a whole number of encoded sub-packets is
      read back as exactly those sub-packets. */
  lemma RunEncoded(v: View, subs: seq<SubPacket>, rel: nat, cliTime: seq<byte>)
    requires v.seqNo < 65536 && rel < 65536
    requires forall i :: 0 <= i < |subs| ==> |subs[i].body| < 256
    ensures Run(v, Parse(Encode(subs)), rel, cliTime) == Run(v, subs, rel, cliTime)
  {
    ParseEncode(subs);
  }
}
