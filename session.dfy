/** One connected client of the freeroam server: its handshake state, the
    sub-packets it has sent, its slot table, and the slot updates sent back
    to it.

    Time is an input: `now` is the current instant in milliseconds, taken
    once per datagram, and `RelTime(now)` stands for `getTimeDiff()`.
    `Addr` identity is client identity, so the `client.Addr == c.Addr` test
    is `y == this`. The `instance` back-pointer is replaced by passing the
    current client list (`peers`) and a ghost set `U` of every client the
    operation may touch. */
module Session {
  import opened Bytes
  import opened PosCodec
  import opened Slots
  import opened Tlv
  import opened Wire
  import opened Ranking
  import Diff
  import Demux

  /** `getClosestPlayers`'s filter: y is ready, is not me, and is within 10000 units. */
  predicate Close(me: Client, y: Client)
    reads me, me.carPos, y, y.carPos
  {
    y.IsOk() && y != me && DistSq(me.GetPos(), y.GetPos()) <= MaxDistSq
  }

  /** The clients of cs close to me, in cs's order. */
  function FilterClose(me: Client, cs: seq<Client>): seq<Client>
    reads me, me.carPos, cs, set y | y in cs :: y.carPos
  {
    if cs == [] then []
    else FilterClose(me, cs[..|cs| - 1]) + (if Close(me, cs[|cs| - 1]) then [cs[|cs| - 1]] else [])
  }

  /** A client is kept by the filter exactly when it is listed and close; in
      particular a client never keeps itself. */
  lemma {:induction false} FilterCloseMember(me: Client, cs: seq<Client>, y: Client)
    ensures y in FilterClose(me, cs) <==> y in cs && Close(me, y)
    ensures me !in FilterClose(me, cs)
  {
    if cs != [] {
      var init := cs[..|cs| - 1];
      FilterCloseMember(me, init, y);
      FilterCloseMember(me, init, me);
      assert cs == init + [cs[|cs| - 1]];
    }
  }

  /** Truncated distance from me to y. */
  function Dist(me: Client, y: Client): nat
    reads me, me.carPos, y, y.carPos
  {
    Isqrt(DistSq(me.GetPos(), y.GetPos()))
  }

  class Client {
    var startTime: int
    var cliTime: seq<byte>
    var seqNo: nat
    const carPos: CarPosPacket
    var chanInfo: Option<seq<byte>>
    var playerInfo: Option<seq<byte>>
    var slots: Table<Client>
    var lastPacket: int
    var ping: int

    /** The state every operation keeps: 14 slots, a 16-bit sequence number
        and two client time bytes. */
    predicate Valid()
      reads this`slots, this`seqNo, this`cliTime
    {
      |slots| == SlotCount && seqNo < 65536 && |cliTime| == 2
    }

    /** `newClient(cliTime, ...)` at instant `now`. */
    constructor (time: seq<byte>, now: int)
      requires |time| == 2
      ensures Valid() && fresh(carPos)
      ensures startTime == now && lastPacket == now && cliTime == time && seqNo == 0
      ensures slots == EmptyTable() && chanInfo == None && playerInfo == None && ping == 0
      ensures carPos.packet == None && carPos.pos == Vector2D(0, 0)
    {
      startTime := now;
      cliTime := time;
      seqNo := 0;
      carPos := new CarPosPacket();
      chanInfo := None;
      playerInfo := None;
      slots := EmptyTable();
      lastPacket := now;
      ping := 0;
    }

    /** `getTimeDiff()`: milliseconds since the (re-)handshake, as a uint16. */
    function RelTime(now: int): nat
      reads this`startTime
    {
      Wrap16(now - startTime)
    }

    /** `Active()`: a datagram arrived less than 5 seconds ago. */
    predicate Active(now: int)
      reads this
    {
      now - lastPacket < 5000
    }

    /** `isOk()`: channel, player and position sub-packets have all been received. */
    predicate IsOk()
      reads this, carPos
    {
      chanInfo.Some? && playerInfo.Some? && carPos.Valid()
    }

    function GetPos(): Vector2D
      reads this, carPos
    {
      carPos.Pos()
    }

    /** `replyHandshake()`. Its receiver is a copy, so the sequence number it
        takes is not stored back: the datagram carries `seqNo` and `seqNo` stays. */
    function ReplyHandshake(now: int): (r: seq<byte>)
      requires Valid()
      reads this
      ensures r == Ack(seqNo, RelTime(now), cliTime) && |r| == 11
    {
      TwoByteClientTime(seqNo, RelTime(now), cliTime);
      Ack(seqNo, RelTime(now), cliTime)
    }

    /** `removeSlot(x)`: finds a slot holding x and empties it. */
    method RemoveSlot(x: Client)
      requires Valid()
      modifies this`slots
      ensures slots == RemoveFirst(old(slots), x) && Valid()
    {
      var i := 0;
      while i < |slots| && !Holds(slots[i], x)
        invariant 0 <= i <= |slots|
        invariant forall j :: 0 <= j < i ==> !Holds(slots[j], x)
      {
        i := i + 1;
      }
      var index := if i < |slots| then i else -1;
      assert index == IndexFrom(slots, x, 0);
      if index != -1 {
        slots := slots[index := None];
      }
    }

    /** `addSlot(x)`: collects the empty slots (ascending, as after Go's
        `sort.Ints`), and writes x, flagged just added, into the first of them,
        or into slot 13 when there is none. */
    method AddSlot(x: Client)
      requires Valid()
      modifies this`slots
      ensures slots == Add(old(slots), x) && Valid()
    {
      var suitable: seq<nat> := [];
      var i := 0;
      while i < |slots|
        invariant 0 <= i <= |slots|
        invariant forall k :: 0 <= k < |suitable| ==> suitable[k] < |slots| && slots[suitable[k]] == None
        invariant suitable == [] ==> forall j :: 0 <= j < i ==> slots[j].Some?
        invariant suitable != [] ==> suitable[0] < i && forall j :: 0 <= j < suitable[0] ==> slots[j].Some?
      {
        if slots[i] == None {
          suitable := suitable + [i];
        }
        i := i + 1;
      }
      var index := if |suitable| == 0 then |slots| - 1 else suitable[0];
      assert index == AddIndex(slots, 0);
      slots := slots[index := Some(SlotInfo(true, x))];
    }

    /** The occupants of the slots in index order (`oldPlayers`). */
    method OldPlayers() returns (r: seq<Client>)
      ensures r == Occupants(slots)
    {
      r := [];
      var i := 0;
      while i < |slots|
        invariant 0 <= i <= |slots|
        invariant r == Occupants(slots[..i])
      {
        assert slots[..i + 1][..i] == slots[..i];
        if slots[i].Some? {
          r := r + [slots[i].value.client];
        }
        i := i + 1;
      }
      assert slots[..i] == slots;
    }

    /** The first half of `recalculateSlots(clients)`: the closest players,
        the occupants of the slots (`oldPlayers`) and `ArrayDiff` of the two.
        Both lists only read the state, so they are taken in either order. */
    method SlotDiff(clients: seq<Client>) returns (players: seq<Client>, diff: Diff.ArrayDiffResult<Client>)
      ensures multiset(players) == multiset(FilterClose(this, clients))
      ensures diff.removed == Diff.Minus(Occupants(slots), players)
      ensures diff.added == Diff.Minus(players, Occupants(slots))
    {
      var oldPlayers := OldPlayers();
      players := GetClosestPlayers(clients);
      diff := Diff.ArrayDiff(oldPlayers, players);
    }

    /** `recalculateSlots(clients)` as written. The loop variable of both loops
        shadows the receiver, so each removed occupant y runs `y.removeSlot(y)`
        and each added neighbour y runs `y.addSlot(y)`: every table in U moves
        to its `ShadowedRecalc`. U holds every client whose table may change. */
    method RecalculateSlots(clients: seq<Client>, ghost U: set<Client>)
      requires this in U && (forall y :: y in clients ==> y in U)
      requires forall y :: y in Occupants(slots) ==> y in U
      requires forall z :: z in U ==> z.Valid()
      modifies U`slots
      ensures forall z :: z in U ==> old(z.Valid()) && z.Valid() &&
                                     z.slots == ShadowedRecalc(old(z.slots), z, old(slots), old(multiset(FilterClose(this, clients))))
    {
      ghost var mine := slots;
      ghost var near := FilterClose(this, clients);
      var players, diff := SlotDiff(clients);
      FilterCloseIn(this, clients);
      DiffMembers(mine, players, near);
      RemoveEach(diff.removed, U);
      label Removed:
      AddEach(diff.added, U);
      forall z | z in U
        ensures z.slots == ShadowedRecalc(old(z.slots), z, mine, multiset(near))
      {
        RecalcCompose(old(z.slots), old@Removed(z.slots), z.slots, z, mine, near, players);
      }
    }

    /** The slot-update half of `sendPlayerSlots`: takes a sequence number
        (`getSeq()`, which advances it mod 2^16),
        writes header, the 14 slot blocks and trailer, stamps every occupant's
        position packet and clears the just-added flags. Every block uses the
        time `getTimeDiff() - 15` (mod 2^16). P holds the occupants' position
        packets. */
    method EncodeSlotUpdate(now: int, ghost P: set<CarPosPacket>) returns (out: seq<byte>, crashed: bool)
      requires Valid()
      requires forall j :: 0 <= j < |slots| && slots[j].Some? ==> slots[j].value.client.carPos in P
      modifies this`seqNo, this`slots, P`packet
      ensures Valid() && seqNo == (old(seqNo) + 1) % 65536
      ensures crashed <==> !AllEncodable(old(Snapshot(slots)))
      ensures !crashed ==> out == SlotUpdate(old(seqNo), RelTime(now), cliTime, ShotBlocks(old(Snapshot(slots)), Wrap16(RelTime(now) as int - 15)))
      ensures slots == if crashed then old(slots) else ClearFlags(old(slots))
      ensures !crashed ==> forall c :: c in P ==>
                             if c in Cars(old(slots), SlotCount) then Stamped(c, old(c.packet), Wrap16(RelTime(now) as int - 15))
                             else c.packet == old(c.packet)
    {
      ghost var shots := Snapshot(slots);
      var s := seqNo;
      seqNo := (seqNo + 1) % 65536;
      var rel := RelTime(now);
      var t := Wrap16(rel as int - 15);
      var blocks, cleared;
      blocks, cleared, crashed := EncodeSlots(slots, t, P, shots);
      if crashed {
        return [], true;
      }
      slots := cleared;
      out := SlotUpdate(s, rel, cliTime, blocks);
    }

    /** `recalculateSlots(peers)` in a state where every table holds at most
        its owner: this client's own table is emptied, since it is never near
        itself, and every other table still holds at most its owner. */
    method RecalculateOwnerOnly(peers: seq<Client>, ghost U: set<Client>)
      requires this in U && (forall y :: y in peers ==> y in U) && SelfOnly(U)
      modifies U`slots
      ensures SelfOnly(U) && AllEmpty(slots)
      ensures forall z :: z in U && z != this ==>
                z.slots == ShadowedRecalc(old(z.slots), z, old(slots), old(multiset(FilterClose(this, peers))))
    {
      ghost var near := multiset(FilterClose(this, peers));
      FilterCloseMember(this, peers, this);
      OwnerOnlyOccupants(slots, this);
      RecalculateSlots(peers, U);
      ShadowedRecalcSelf(old(slots), this, near);
      forall z | z in U && z != this
        ensures OwnerOnly(z.slots, z)
      {
        ShadowedRecalcOwnerOnly(old(z.slots), z, old(slots), near);
      }
    }

    /** The slot update of a table without occupants: 14 empty blocks, no
        position packet stamped. */
    method EncodeEmptyUpdate(now: int) returns (out: seq<byte>, crashed: bool)
      requires Valid() && AllEmpty(slots)
      modifies this`seqNo, this`slots
      ensures Valid() && seqNo == (old(seqNo) + 1) % 65536 && slots == old(slots)
      ensures !crashed && out == EmptySlotUpdate(old(seqNo), RelTime(now), cliTime)
    {
      SnapshotEmpty(slots);
      ShotBlocksEmpty(Snapshot(slots), Wrap16(RelTime(now) as int - 15));
      out, crashed := EncodeSlotUpdate(now, {});
    }

    /** `sendPlayerSlots()` with the instance's clients `peers`, in the states
        the server is ever in: every table holds no one but its owner. The
        update then announces 14 empty slots and stamps no position packet. */
    method SendPlayerSlots(peers: seq<Client>, now: int, ghost U: set<Client>) returns (out: seq<byte>, crashed: bool)
      requires this in U && (forall y :: y in peers ==> y in U) && SelfOnly(U)
      modifies U`slots, this`seqNo
      ensures SelfOnly(U) && seqNo == (old(seqNo) + 1) % 65536
      ensures !crashed && AllEmpty(slots)
      ensures out == EmptySlotUpdate(old(seqNo), RelTime(now), cliTime)
      ensures forall z :: z in U && z != this ==>
                z.slots == ShadowedRecalc(old(z.slots), z, old(slots), old(multiset(FilterClose(this, peers))))
    {
      RecalculateOwnerOnly(peers, U);
      out, crashed := EncodeEmptyUpdate(now);
    }

    /** The part of the state a datagram's sub-packets change. */
    function State(): Demux.View
      reads this`chanInfo, this`playerInfo, this`ping, this`seqNo, carPos`packet, carPos`pos
    {
      Demux.View(chanInfo, playerInfo, carPos.packet, carPos.pos, ping, seqNo)
    }

    /** Stores a channel, player or position sub-packet; the last also sets
        the ping to the uint16 difference of `getTimeDiff()` (rel) and the
        body's client time. A position body too short for `Update` is Go's
        index panic. */
    method StoreSub(sub: SubPacket, rel: nat) returns (crashed: bool)
      requires Demux.Handled(sub.ptype) && rel < 65536 && seqNo < 65536
      modifies this`chanInfo, this`playerInfo, this`ping, carPos
      ensures crashed == (sub.ptype == 0x12 && !UpdateSafe(sub.body))
      ensures !crashed ==> State() == Demux.Store(old(State()), sub, rel)
    {
      crashed := false;
      if sub.ptype == 0x00 {
        chanInfo := Some(sub.body);
      } else if sub.ptype == 0x01 {
        playerInfo := Some(sub.body);
      } else {
        if !UpdateSafe(sub.body) {
          return true;
        }
        carPos.Update(sub.body);
        ping := Wrap16(rel - Uint16BE(sub.body[0..2]));
      }
    }

    /** `sendPlayerSlots()` as the reader loop sees it: one empty slot
        update with the next sequence number; nothing else of the
        sub-packet state changes. */
    method SendUpdate(peers: seq<Client>, now: int, ghost U: set<Client>) returns (out: seq<byte>)
      requires this in U && (forall y :: y in peers ==> y in U) && SelfOnly(U)
      modifies U`slots, this`seqNo
      ensures SelfOnly(U) && AllEmpty(slots)
      ensures State() == old(State()).(seqNo := (old(seqNo) + 1) % 65536)
      ensures out == EmptySlotUpdate(old(seqNo), RelTime(now), cliTime)
    {
      var crashed;
      out, crashed := SendPlayerSlots(peers, now, U);
    }

    /** The body of the reader loop for one sub-packet: a handled
        sub-packet is stored and, once the client is ready, answered with
        its slot update. */
    method HandleSub(sub: SubPacket, now: int, peers: seq<Client>, ghost U: set<Client>) returns (sent: seq<seq<byte>>, crashed: bool)
      requires this in U && (forall y :: y in peers ==> y in U) && SelfOnly(U)
      modifies this`chanInfo, this`playerInfo, this`ping, this`seqNo, carPos, U`slots
      ensures crashed == Demux.Step(old(State()), sub, RelTime(now), cliTime).crashed
      ensures !crashed ==> SelfOnly(U) && State() == Demux.Step(old(State()), sub, RelTime(now), cliTime).view
      ensures !crashed ==> sent == Demux.Updates(Demux.Step(old(State()), sub, RelTime(now), cliTime).sent, RelTime(now), cliTime)
      ensures !crashed ==> if sent == [] then slots == old(slots) else AllEmpty(slots)
    {
      sent := [];
      if !Demux.Handled(sub.ptype) {
        return [], false;
      }
      crashed := StoreSub(sub, RelTime(now));
      if crashed {
        return;
      }
      if IsOk() {
        var out := SendUpdate(peers, now, U);
        sent := [out];
      }
    }

    /** One turn of the reader loop at offset pos: reads a sub-packet,
        handles it and appends what it sends to `sent`. `whole` is the run
        over all of the payload, `done` the sequence numbers sent so far,
        v the sub-packet state and subs the sub-packets still to read; the
        run still to go after this turn is the run over what is left. */
    method ReadTurn(d: seq<byte>, pos: nat, now: int, peers: seq<Client>, sent: seq<seq<byte>>, ghost U: set<Client>,
                    ghost whole: Demux.Outcome, ghost done: seq<nat>, ghost v: Demux.View, ghost rel: nat)
      returns (sent': seq<seq<byte>>, crashed: bool, next: nat, ghost done': seq<nat>)
      requires pos < |d| && this in U && (forall y :: y in peers ==> y in U) && SelfOnly(U)
      requires v == State() && rel == RelTime(now)
      requires whole == Demux.After(done, Demux.Run(v, Parse(d[pos..]), rel, cliTime))
      requires (forall k :: 0 <= k < |done| ==> done[k] < 65536) && sent == Demux.Updates(done, rel, cliTime)
      modifies this`chanInfo, this`playerInfo, this`ping, this`seqNo, carPos, U`slots
      ensures pos < next <= |d|
      ensures crashed ==> whole.crashed && whole.sent == done && sent' == sent
      ensures !crashed ==> SelfOnly(U) && (forall k :: 0 <= k < |done'| ==> done'[k] < 65536) &&
                           sent' == Demux.Updates(done', rel, cliTime) &&
                           whole == Demux.After(done', Demux.Run(State(), Parse(d[next..]), rel, cliTime))
      ensures !crashed ==> |sent'| >= |sent| && if |sent'| == |sent| then slots == old(slots) else AllEmpty(slots)
    {
      var sub;
      sub, next := ReadSubPacket(d, pos);
      ghost var nums := Demux.Step(v, sub, rel, cliTime).sent;
      Demux.Advance(whole, done, v, sub, Parse(d[next..]), rel, cliTime);
      var out;
      out, crashed := HandleSub(sub, now, peers, U);
      if crashed {
        return sent, true, next, done;
      }
      Demux.UpdatesAppend(done, nums, rel, cliTime);
      done' := done + nums;
      sent' := sent + out;
    }

    /** The reader loop of `processPacket` over the payload d: every
        sub-packet in turn, until the data is exhausted or Go panics. */
    method ReadPayload(d: seq<byte>, now: int, peers: seq<Client>, ghost U: set<Client>) returns (sent: seq<seq<byte>>, crashed: bool)
      requires this in U && (forall y :: y in peers ==> y in U) && SelfOnly(U)
      modifies this`chanInfo, this`playerInfo, this`ping, this`seqNo, carPos, U`slots
      ensures crashed == Demux.Run(old(State()), Parse(d), RelTime(now), cliTime).crashed
      ensures !crashed ==> SelfOnly(U) && State() == Demux.Run(old(State()), Parse(d), RelTime(now), cliTime).view
      ensures sent == Demux.Updates(Demux.Run(old(State()), Parse(d), RelTime(now), cliTime).sent, RelTime(now), cliTime)
      ensures !crashed ==> if sent == [] then slots == old(slots) else AllEmpty(slots)
    {
      ghost var rel := RelTime(now);
      ghost var whole := Demux.Run(State(), Parse(d), rel, cliTime);
      ghost var done: seq<nat> := [];
      var pos := 0;
      sent := [];
      crashed := false;
      while pos < |d|
        invariant 0 <= pos <= |d| && SelfOnly(U)
        invariant whole == Demux.After(done, Demux.Run(State(), Parse(d[pos..]), rel, cliTime))
        invariant (forall k :: 0 <= k < |done| ==> done[k] < 65536) && sent == Demux.Updates(done, rel, cliTime)
        invariant if sent == [] then slots == old(slots) else AllEmpty(slots)
        decreases |d| - pos
      {
        var c;
        sent, c, pos, done := ReadTurn(d, pos, now, peers, sent, U, whole, done, State(), rel);
        if c {
          return sent, true;
        }
      }
      assert d[pos..] == [] && done + [] == done;
    }

    /** The re-handshake branch of `processPacket`: a new session with the
        client time bytes at offsets 52..53 and everything stored dropped;
        the ping is kept. */
    method Restart(packet: seq<byte>, now: int, ghost U: set<Client>)
      requires Demux.IsHandshake(packet) && this in U && SelfOnly(U)
      modifies this`startTime, this`cliTime, this`seqNo, this`slots, this`chanInfo, this`playerInfo, this`lastPacket, carPos
      ensures SelfOnly(U)
      ensures startTime == now && lastPacket == now && cliTime == packet[52..54] && slots == EmptyTable()
      ensures State() == Demux.View(None, None, None, Vector2D(0, 0), old(ping), 0)
    {
      startTime := now;
      cliTime := packet[52..54];
      seqNo := 0;
      slots := EmptyTable();
      carPos.Reset();
      chanInfo := None;
      playerInfo := None;
      lastPacket := startTime;
    }

    /** `processPacket(packet)` at instant now, with the instance's clients
        peers. A handshake restarts the session; a datagram of at most 22
        bytes only counts as a sign of life; any other is read as
        sub-packets between a 16-byte header and a 5-byte trailer, and
        yields the datagrams the fold over them sends. */
    method ProcessPacket(packet: seq<byte>, now: int, peers: seq<Client>, ghost U: set<Client>) returns (sent: seq<seq<byte>>, crashed: bool)
      requires this in U && (forall y :: y in peers ==> y in U) && SelfOnly(U)
      modifies this`startTime, this`cliTime, this`seqNo, this`slots, this`chanInfo, this`playerInfo, this`lastPacket, this`ping, carPos, U`slots
      ensures !crashed ==> SelfOnly(U)
      ensures Processed(packet, now, sent, crashed)
    {
      lastPacket := now;
      if Demux.IsHandshake(packet) {
        Restart(packet, now, U);
        return [], false;
      }
      if |packet| <= 22 {
        return [], false;
      }
      sent, crashed := ReadPayload(Demux.Payload(packet), now, peers, U);
    }

    /** What `processPacket(packet)` at instant now does to this client and
        sends: a handshake restarts the session and sends nothing; a
        datagram of at most 22 bytes changes nothing but the time of the
        last packet; any other is the fold over its sub-packets, from the
        state before, with the relative time and client time bytes of the
        unchanged session. */
    twostate predicate Processed(packet: seq<byte>, now: int, sent: seq<seq<byte>>, crashed: bool)
      requires old(seqNo) < 65536
      reads this, carPos
    {
      && lastPacket == now
      && (Demux.IsHandshake(packet) ==>
            !crashed && sent == [] && startTime == now && cliTime == packet[52..54] && slots == EmptyTable() &&
            State() == Demux.View(None, None, None, Vector2D(0, 0), old(ping), 0))
      && (!Demux.IsHandshake(packet) ==> startTime == old(startTime) && cliTime == old(cliTime))
      && (!Demux.IsHandshake(packet) && |packet| <= 22 ==>
            !crashed && sent == [] && State() == old(State()) && slots == old(slots))
      && (!Demux.IsHandshake(packet) && |packet| > 22 ==>
            crashed == Demux.Run(old(State()), Parse(Demux.Payload(packet)), RelTime(now), cliTime).crashed &&
            sent == Demux.Updates(Demux.Run(old(State()), Parse(Demux.Payload(packet)), RelTime(now), cliTime).sent, RelTime(now), cliTime) &&
            (!crashed ==> State() == Demux.Run(old(State()), Parse(Demux.Payload(packet)), RelTime(now), cliTime).view) &&
            (!crashed ==> if sent == [] then slots == old(slots) else AllEmpty(slots)))
    }

    /** The first loop of `getClosestPlayers`: the close clients with their
        truncated distances, in list order. */
    method CloseEntries(clients: seq<Client>) returns (close: seq<SortInfo<Client>>)
      ensures ClientsOf(close) == FilterClose(this, clients)
      ensures LengthsAreDistances(this, close)
    {
      close := [];
      var i := 0;
      while i < |clients|
        invariant 0 <= i <= |clients|
        invariant ClientsOf(close) == FilterClose(this, clients[..i])
        invariant LengthsAreDistances(this, close)
      {
        CollectStep(this, clients, i, close);
        var y := clients[i];
        if y.IsOk() && y != this && DistSq(GetPos(), y.GetPos()) <= MaxDistSq {
          close := close + [SortInfo(y, Dist(this, y))];
        }
        i := i + 1;
      }
      assert clients[..i] == clients;
    }

    /** `getClosestPlayers(clients)`: the close clients, sorted by truncated
        distance. */
    method GetClosestPlayers(clients: seq<Client>) returns (r: seq<Client>)
      ensures multiset(r) == multiset(FilterClose(this, clients))
      ensures SortedByDist(this, r)
    {
      var close := CloseEntries(clients);
      var sorted := SortByLength(close);
      SortKeepsDistances(this, close);
      r := ClientsOf(sorted);
    }
  }

  /** Every client of U is valid and holds no one but itself: the state the
      server starts in and keeps. */
  ghost predicate SelfOnly(U: set<Client>)
    reads U`slots, U`seqNo, U`cliTime
  {
    forall z :: z in U ==> z.Valid() && OwnerOnly(z.slots, z)
  }

  /** One step of the collecting loop keeps both of its invariants. */
  lemma CollectStep(me: Client, cs: seq<Client>, i: nat, close: seq<SortInfo<Client>>)
    requires i < |cs|
    requires ClientsOf(close) == FilterClose(me, cs[..i])
    requires LengthsAreDistances(me, close)
    ensures Close(me, cs[i]) ==> ClientsOf(close + [SortInfo(cs[i], Dist(me, cs[i]))]) == FilterClose(me, cs[..i + 1])
    ensures Close(me, cs[i]) ==> LengthsAreDistances(me, close + [SortInfo(cs[i], Dist(me, cs[i]))])
    ensures !Close(me, cs[i]) ==> ClientsOf(close) == FilterClose(me, cs[..i + 1])
  {
    FilterCloseStep(me, cs, i);
    ClientsOfSnoc(close, SortInfo(cs[i], Dist(me, cs[i])));
  }

  /** The clients are in non-decreasing truncated distance from me. */
  predicate SortedByDist(me: Client, r: seq<Client>)
    reads me, me.carPos, r, set y | y in r :: y.carPos
  {
    forall i, j :: 0 <= i < j < |r| ==> Dist(me, r[i]) <= Dist(me, r[j])
  }

  /** Each entry's length is the truncated distance from me to its client. */
  predicate LengthsAreDistances(me: Client, s: seq<SortInfo<Client>>)
    reads me, me.carPos, set k | 0 <= k < |s| :: s[k].client, set k | 0 <= k < |s| :: s[k].client.carPos
  {
    forall k :: 0 <= k < |s| ==> s[k].length == Dist(me, s[k].client)
  }

  lemma FilterCloseStep(me: Client, cs: seq<Client>, i: nat)
    requires i < |cs|
    ensures FilterClose(me, cs[..i + 1]) == FilterClose(me, cs[..i]) + (if Close(me, cs[i]) then [cs[i]] else [])
  {
    assert cs[..i + 1][..i] == cs[..i];
  }

  lemma ClientsOfSnoc<C>(s: seq<SortInfo<C>>, x: SortInfo<C>)
    ensures ClientsOf(s + [x]) == ClientsOf(s) + [x.client]
  {
  }

  /** Sorting by length keeps lengths tied to distances, so the sorted clients
      are ordered by distance and are a permutation of the unsorted ones. */
  lemma SortKeepsDistances(me: Client, s: seq<SortInfo<Client>>)
    requires LengthsAreDistances(me, s)
    ensures multiset(ClientsOf(SortByLength(s))) == multiset(ClientsOf(s))
    ensures SortedByDist(me, ClientsOf(SortByLength(s)))
  {
    var sorted := SortByLength(s);
    SortSpec(s);
    ClientsOfSort(s);
    forall k | 0 <= k < |sorted|
      ensures sorted[k].length == Dist(me, sorted[k].client)
    {
      assert sorted[k] in multiset(s);
    }
  }

  /** How often `ArrayDiff(oldPlayers, players)` lists a client as removed
      and as added. */
  lemma DiffCounts<C>(mine: Table<C>, players: seq<C>, z: C)
    ensures multiset(Diff.Minus(Occupants(mine), players))[z] == if z in players then 0 else CountIn(mine, z)
    ensures multiset(Diff.Minus(players, Occupants(mine)))[z] == if CountIn(mine, z) > 0 then 0 else multiset(players)[z]
  {
    Diff.MinusCount(Occupants(mine), players, z);
    Diff.MinusCount(players, Occupants(mine), z);
    OccupantsCount(mine, z);
  }

  /** The removal loop of `recalculateSlots`: each y of ys runs `y.removeSlot(y)`. */
  method RemoveEach(ys: seq<Client>, ghost U: set<Client>)
    requires forall y :: y in ys ==> y in U
    requires forall z :: z in U ==> z.Valid()
    modifies U`slots
    ensures forall z :: z in U ==> z.Valid() && z.slots == RemoveN(old(z.slots), z, multiset(ys)[z])
  {
    var i := 0;
    while i < |ys|
      invariant 0 <= i <= |ys|
      invariant forall z :: z in U ==> z.Valid() && z.slots == RemoveN(old(z.slots), z, multiset(ys[..i])[z])
    {
      var y := ys[i];
      CountSnoc(ys, i);
      y.RemoveSlot(y);
      i := i + 1;
    }
    assert ys[..i] == ys;
  }

  /** The addition loop of `recalculateSlots`: each y of ys runs `y.addSlot(y)`. */
  method AddEach(ys: seq<Client>, ghost U: set<Client>)
    requires forall y :: y in ys ==> y in U
    requires forall z :: z in U ==> z.Valid()
    modifies U`slots
    ensures forall z :: z in U ==> old(z.Valid()) && z.Valid() && z.slots == AddN(old(z.slots), z, multiset(ys)[z])
  {
    var i := 0;
    while i < |ys|
      invariant 0 <= i <= |ys|
      invariant forall z :: z in U ==> old(z.Valid()) && z.Valid() && z.slots == AddN(old(z.slots), z, multiset(ys[..i])[z])
    {
      var y := ys[i];
      CountSnoc(ys, i);
      y.AddSlot(y);
      i := i + 1;
    }
    assert ys[..i] == ys;
  }

  /** Extending a prefix by one element raises that element's count by one. */
  lemma CountSnoc<T>(ys: seq<T>, i: nat)
    requires i < |ys|
    ensures forall z :: multiset(ys[..i + 1])[z] == multiset(ys[..i])[z] + (if z == ys[i] then 1 else 0)
  {
    assert ys[..i + 1] == ys[..i] + [ys[i]];
  }

  /** What `SlotDiff` promises about one client z, from the sorted players
      being a permutation of the filtered clients `near`. */
  lemma DiffFacts<C>(mine: Table<C>, players: seq<C>, near: seq<C>, z: C)
    requires multiset(players) == multiset(near)
    ensures z in Diff.Minus(Occupants(mine), players) ==> z in Occupants(mine)
    ensures z in Diff.Minus(players, Occupants(mine)) ==> z in near
    ensures multiset(Diff.Minus(Occupants(mine), players))[z] == (if z in near then 0 else CountIn(mine, z))
    ensures multiset(Diff.Minus(players, Occupants(mine)))[z] == (if CountIn(mine, z) > 0 then 0 else multiset(near)[z])
  {
    Diff.Membership(Occupants(mine), players, z);
    Diff.Membership(players, Occupants(mine), z);
    assert z in players <==> z in multiset(near);
    DiffCounts(mine, players, z);
  }

  /** Removing, then adding, each client as often as the diff lists it moves
      a table to its `ShadowedRecalc`. */
  lemma RecalcCompose<C>(t0: Table<C>, t1: Table<C>, t2: Table<C>, z: C, mine: Table<C>, near: seq<C>, players: seq<C>)
    requires |t0| >= 1 && multiset(players) == multiset(near)
    requires t1 == RemoveN(t0, z, multiset(Diff.Minus(Occupants(mine), players))[z])
    requires t2 == AddN(t1, z, multiset(Diff.Minus(players, Occupants(mine)))[z])
    ensures t2 == ShadowedRecalc(t0, z, mine, multiset(near))
  {
    DiffFacts(mine, players, near, z);
  }

  /** The diff removes only occupants and adds only filtered clients. */
  lemma DiffMembers<C>(mine: Table<C>, players: seq<C>, near: seq<C>)
    requires multiset(players) == multiset(near)
    ensures forall z :: z in Diff.Minus(Occupants(mine), players) ==> z in Occupants(mine)
    ensures forall z :: z in Diff.Minus(players, Occupants(mine)) ==> z in near
  {
    forall z {
      DiffFacts(mine, players, near, z);
    }
  }

  /** The filter keeps only listed clients. */
  lemma FilterCloseIn(me: Client, cs: seq<Client>)
    ensures forall y :: y in FilterClose(me, cs) ==> y in cs
  {
    forall y | y in FilterClose(me, cs) {
      FilterCloseMember(me, cs, y);
    }
  }

  /** What the slot loop of `sendPlayerSlots` reads of one slot: nothing for
      an empty slot, else the just-added flag and the occupant's channel
      information, player information and position packet. */
  datatype Shot = NoShot | Shot(justAdded: bool, chan: Option<seq<byte>>, player: Option<seq<byte>>, packet: Option<seq<byte>>)

  /** Go can encode the slot: it is empty, or the occupant's position packet
      exists and holds the two bytes `Packet(t)` overwrites. */
  predicate Encodable(s: Shot)
  {
    s.Shot? ==> s.packet.Some? && |s.packet.value| >= 2
  }

  predicate AllEncodable(ss: seq<Shot>)
  {
    forall j :: 0 <= j < |ss| ==> Encodable(ss[j])
  }

  /** The block written for an occupied slot once the occupant's position
      packet p carries time t: `getFullSlotPacket(t)` when the occupant was
      just added, `getFullPosPacket(t)` otherwise. */
  function SlotBlock(justAdded: bool, chan: Option<seq<byte>>, player: Option<seq<byte>>, p: seq<byte>, t: nat): (r: seq<byte>)
    requires |p| >= 2 && t < 65536
    ensures justAdded ==> |r| == 3 + |BytesOf(chan)| + 2 + |BytesOf(player)| + 2 + |p| + 1
    ensures !justAdded ==> |r| == 3 + |p| + 1
  {
    if justAdded then FullBlock(BytesOf(chan), BytesOf(player), Stamp(p, t)) else PosBlock(Stamp(p, t))
  }

  /** A packet already stamped with t gives the same block, so the blocks of
      one update do not depend on which slots share an occupant. */
  lemma SlotBlockStamped(justAdded: bool, chan: Option<seq<byte>>, player: Option<seq<byte>>, p: seq<byte>, t: nat)
    requires |p| >= 2 && t < 65536
    ensures SlotBlock(justAdded, chan, player, Stamp(p, t), t) == SlotBlock(justAdded, chan, player, p, t)
  {
    StampStamp(p, t, t);
  }

  /** The block for one slot. */
  function ShotBlock(s: Shot, t: nat): seq<byte>
    requires t < 65536 && Encodable(s)
  {
    if s.NoShot? then EmptyBlock else SlotBlock(s.justAdded, s.chan, s.player, s.packet.value, t)
  }

  /** The blocks of a table, in slot order. */
  function ShotBlocks(ss: seq<Shot>, t: nat): seq<byte>
    requires t < 65536 && AllEncodable(ss)
  {
    if ss == [] then [] else ShotBlocks(ss[..|ss| - 1], t) + ShotBlock(ss[|ss| - 1], t)
  }

  /** One more slot appends its block. */
  lemma ShotBlocksSnoc(ss: seq<Shot>, i: nat, t: nat)
    requires i < |ss| && t < 65536 && AllEncodable(ss[..i]) && Encodable(ss[i])
    ensures AllEncodable(ss[..i + 1])
    ensures ShotBlocks(ss[..i + 1], t) == ShotBlocks(ss[..i], t) + ShotBlock(ss[i], t)
  {
    assert ss[..i + 1][..i] == ss[..i];
  }

  /** The slot as read after its occupant's packet was stamped with t. */
  function Restamped(s: Shot, t: nat): (r: Shot)
    requires t < 65536 && Encodable(s)
    ensures Encodable(r)
  {
    if s.Shot? then s.(packet := Some(Stamp(s.packet.value, t))) else s
  }

  /** A slot whose occupant was already stamped gives the same block. */
  lemma ShotBlockRestamped(s: Shot, t: nat)
    requires t < 65536 && Encodable(s)
    ensures ShotBlock(Restamped(s, t), t) == ShotBlock(s, t)
  {
    if s.Shot? {
      SlotBlockStamped(s.justAdded, s.chan, s.player, s.packet.value, t);
    }
  }

  /** Empty slots are always encodable, as empty blocks. */
  lemma {:induction false} ShotBlocksEmpty(ss: seq<Shot>, t: nat)
    requires t < 65536 && forall j :: 0 <= j < |ss| ==> ss[j] == NoShot
    ensures AllEncodable(ss) && ShotBlocks(ss, t) == EmptyBlocks(|ss|)
  {
    if ss != [] {
      ShotBlocksEmpty(ss[..|ss| - 1], t);
      EmptyBlocksSnoc(|ss| - 1);
    }
  }

  function ShotOf(e: Option<SlotInfo<Client>>): (s: Shot)
    reads (if e.Some? then {e.value.client} else {})`chanInfo, (if e.Some? then {e.value.client} else {})`playerInfo
    reads (if e.Some? then {e.value.client.carPos} else {})`packet
    ensures s.NoShot? <==> e.None?
  {
    if e.None? then NoShot
    else Shot(e.value.justAdded, e.value.client.chanInfo, e.value.client.playerInfo, e.value.client.carPos.packet)
  }

  /** What the slot loop reads of every slot of tab. */
  function Snapshot(tab: Table<Client>): (r: seq<Shot>)
    reads (set e | e in tab && e.Some? :: e.value.client)`chanInfo, (set e | e in tab && e.Some? :: e.value.client)`playerInfo
    reads (set e | e in tab && e.Some? :: e.value.client.carPos)`packet
    ensures |r| == |tab| && forall j :: 0 <= j < |tab| ==> r[j] == ShotOf(tab[j])
  {
    if tab == [] then [] else Snapshot(tab[..|tab| - 1]) + [ShotOf(tab[|tab| - 1])]
  }

  /** An empty table reads as empty slots only. */
  lemma SnapshotEmpty(tab: Table<Client>)
    requires AllEmpty(tab)
    ensures forall j :: 0 <= j < |tab| ==> Snapshot(tab)[j] == NoShot
  {
  }

  /** c's packet is p0 stamped with t. */
  predicate Stamped(c: CarPosPacket, p0: Option<seq<byte>>, t: nat)
    reads c
  {
    p0.Some? && |p0.value| >= 2 && t < 65536 && c.packet == Some(Stamp(p0.value, t))
  }

  /** One iteration of the slot loop of `sendPlayerSlots` on an occupied slot:
      its block, stamping the occupant's position packet with t. Go panics
      when that packet is missing or shorter than two bytes. */
  method EncodeOccupant(info: SlotInfo<Client>, t: nat) returns (block: seq<byte>, crashed: bool)
    requires t < 65536
    modifies info.client.carPos`packet
    ensures crashed <==> !old(Encodable(ShotOf(Some(info))))
    ensures !crashed ==> block == old(ShotBlock(ShotOf(Some(info)), t))
    ensures !crashed ==> Stamped(info.client.carPos, old(info.client.carPos.packet), t)
  {
    var y := info.client;
    if y.carPos.packet.None? || |y.carPos.packet.value| < 2 {
      return [], true;
    }
    var p := y.carPos.Packet(t);
    if info.justAdded {
      block := FullBlock(BytesOf(y.chanInfo), BytesOf(y.playerInfo), p);
    } else {
      block := PosBlock(p);
    }
    crashed := false;
  }

  /** One iteration of the slot loop, on a slot that reads as shot or, when
      its occupant was stamped at an earlier slot, as shot restamped. */
  method EncodeSlot(e: Option<SlotInfo<Client>>, ghost shot: Shot, t: nat) returns (block: seq<byte>, crashed: bool)
    requires t < 65536
    requires ShotOf(e) == shot || (Encodable(shot) && ShotOf(e) == Restamped(shot, t))
    modifies (if e.Some? then {e.value.client.carPos} else {})`packet
    ensures crashed <==> !Encodable(shot)
    ensures !crashed ==> block == ShotBlock(shot, t)
    ensures !crashed && e.Some? ==> Stamped(e.value.client.carPos, shot.packet, t)
  {
    if e.None? {
      return EmptyBlock, false;
    }
    block, crashed := EncodeOccupant(e.value, t);
    if !crashed {
      StampStamp(shot.packet.value, t, t);
      ShotBlockRestamped(shot, t);
    }
  }

  /** The position objects of the occupants of the first i slots. */
  ghost function Cars(tab: Table<Client>, i: nat): set<CarPosPacket>
    requires i <= |tab|
  {
    set j | 0 <= j < i && tab[j].Some? :: tab[j].value.client.carPos
  }

  lemma CarsSnoc(tab: Table<Client>, i: nat)
    requires i < |tab|
    ensures Cars(tab, i + 1) == Cars(tab, i) + (if tab[i].Some? then {tab[i].value.client.carPos} else {})
  {
  }

  /** One turn of the slot loop over table tab at slot i, where orig holds
      the position packets as they were before the loop and shots the slots
      as they read then: the block of slot i is appended and its occupant's
      packet stamped. */
  method EncodeNext(tab: Table<Client>, i: nat, t: nat, ghost P: set<CarPosPacket>,
                    ghost orig: map<CarPosPacket, Option<seq<byte>>>, ghost shots: seq<Shot>, blocks: seq<byte>)
    returns (blocks': seq<byte>, crashed: bool)
    requires t < 65536 && i < |tab| == |shots| && P <= orig.Keys
    requires forall j :: 0 <= j < |tab| && tab[j].Some? ==> tab[j].value.client.carPos in P
    requires tab[i].Some? ==> shots[i] == Shot(tab[i].value.justAdded, tab[i].value.client.chanInfo, tab[i].value.client.playerInfo, orig[tab[i].value.client.carPos])
    requires tab[i].None? ==> shots[i] == NoShot
    requires AllEncodable(shots[..i]) && blocks == ShotBlocks(shots[..i], t)
    requires forall c :: c in P ==> if c in Cars(tab, i) then Stamped(c, orig[c], t) else c.packet == orig[c]
    modifies P`packet
    ensures crashed <==> !Encodable(shots[i])
    ensures !crashed ==> AllEncodable(shots[..i + 1]) && blocks' == ShotBlocks(shots[..i + 1], t)
    ensures !crashed ==> forall c :: c in P ==> if c in Cars(tab, i + 1) then Stamped(c, orig[c], t) else c.packet == orig[c]
  {
    var block;
    block, crashed := EncodeSlot(tab[i], shots[i], t);
    if crashed {
      return [], true;
    }
    CarsSnoc(tab, i);
    ShotBlocksSnoc(shots, i, t);
    blocks' := blocks + block;
  }

  /** The slot loop of `sendPlayerSlots` over table tab: the blocks in slot
      order, the table with its just-added flags cleared, each occupant's
      position packet stamped with t. P holds the occupants' position packets. */
  method EncodeSlots(tab: Table<Client>, t: nat, ghost P: set<CarPosPacket>, ghost shots: seq<Shot>)
    returns (blocks: seq<byte>, cleared: Table<Client>, crashed: bool)
    requires t < 65536 && shots == Snapshot(tab)
    requires forall j :: 0 <= j < |tab| && tab[j].Some? ==> tab[j].value.client.carPos in P
    modifies P`packet
    ensures crashed <==> !AllEncodable(shots)
    ensures !crashed ==> blocks == ShotBlocks(shots, t) && cleared == ClearFlags(tab)
    ensures !crashed ==> forall c :: c in P ==> if c in Cars(tab, |tab|) then Stamped(c, old(c.packet), t) else c.packet == old(c.packet)
  {
    ghost var orig := map c | c in P :: c.packet;
    blocks := [];
    var i := 0;
    while i < |tab|
      invariant 0 <= i <= |tab| == |shots|
      invariant forall j :: 0 <= j < |tab| && tab[j].Some? ==>
                  shots[j] == Shot(tab[j].value.justAdded, tab[j].value.client.chanInfo, tab[j].value.client.playerInfo, orig[tab[j].value.client.carPos])
      invariant forall j :: 0 <= j < |tab| && tab[j].None? ==> shots[j] == NoShot
      invariant AllEncodable(shots[..i]) && blocks == ShotBlocks(shots[..i], t)
      invariant forall c :: c in P ==> if c in Cars(tab, i) then Stamped(c, orig[c], t) else c.packet == orig[c]
    {
      var bad;
      blocks, bad := EncodeNext(tab, i, t, P, orig, shots, blocks);
      if bad {
        assert !Encodable(shots[i]);
        return [], [], true;
      }
      i := i + 1;
    }
    assert shots[..i] == shots;
    cleared := ClearFlags(tab);
    crashed := false;
  }
}
