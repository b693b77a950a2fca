/** The server instance: the clients by address, the datagram dispatch of
    the read loop and the once-a-second sweep of inactive clients.

    The socket, the mutex and the two goroutines are not modelled: each
    operation is one critical section, and the datagram, its sender's
    address and the instant `now` are inputs; the datagrams the server
    would write back to the sender are outputs. The ghost set `universe`
    holds every client the instance has ever created: removed clients stay
    in it, since other tables could still refer to them. */
module Registry {
  import opened Bytes
  import opened Slots
  import opened Wire
  import opened Tlv
  import Demux
  import opened PosCodec
  import opened Session

  class Instance {
    var clients: map<seq<char>, Client>
    ghost var universe: set<Client>

    /** Every client is in the universe, and every table of the universe
        holds no one but its owner; no two clients share a position
        packet. */
    ghost predicate Valid()
      reads this, universe`slots, universe`seqNo, universe`cliTime
    {
      && clients.Values <= universe
      && SelfOnly(universe)
      && forall y, z :: y in universe && z in universe && y != z ==> y.carPos != z.carPos
    }

    /** `NewInstance`: no clients yet. */
    constructor ()
      ensures Valid() && clients == map[] && universe == {}
    {
      clients := map[];
      universe := {};
    }

    /** The loop at the head of `sendPlayerSlots` that lists the instance's
        clients, in one of the orders Go's map iteration may take. */
    method Peers() returns (peers: seq<Client>)
      ensures |peers| == |clients.Keys|
      ensures forall y :: y in peers <==> y in clients.Values
    {
      peers := [];
      var todo := clients.Keys;
      while todo != {}
        invariant todo <= clients.Keys
        invariant |peers| == |clients.Keys| - |todo|
        invariant forall y :: y in peers ==> y in clients.Values
        invariant forall k :: k in clients && k !in todo ==> clients[k] in peers
        decreases |todo|
      {
        var k :| k in todo;
        peers := peers + [clients[k]];
        todo := todo - {k};
      }
    }

    /** One turn of `RunPacketRead` for a datagram from addr. An unknown
        sender is registered only by a handshake, which is answered with
        the acknowledgement, and an unknown sender's other datagrams change
        nothing; a known sender's datagram goes to its `processPacket`,
        whose slot updates are the replies, and leaves every other client
        as it was but for its slot table. */
    method HandleDatagram(addr: seq<char>, data: seq<byte>, now: int) returns (replies: seq<seq<byte>>, crashed: bool)
      requires Valid()
      modifies this`clients, this`universe
      modifies universe`startTime, universe`cliTime, universe`seqNo, universe`slots, universe`chanInfo, universe`playerInfo, universe`lastPacket, universe`ping
      modifies set y | y in universe :: y.carPos
      ensures !crashed ==> Valid()
      ensures addr !in old(clients) && !Demux.IsHandshake(data) ==>
                !crashed && replies == [] && unchanged(this) && unchanged(universe) &&
                unchanged(set y | y in universe :: y.carPos)
      ensures addr !in old(clients) && Demux.IsHandshake(data) ==>
                !crashed && addr in clients && fresh(clients[addr]) &&
                clients == old(clients)[addr := clients[addr]] && universe == old(universe) + {clients[addr]} &&
                unchanged(old(universe)) && unchanged(set y | y in old(universe) :: y.carPos) &&
                clients[addr].startTime == now && clients[addr].lastPacket == now && clients[addr].cliTime == data[52..54] &&
                clients[addr].slots == EmptyTable() && clients[addr].State() == Demux.View(None, None, None, Vector2D(0, 0), 0, 0) &&
                replies == [Ack(0, 0, data[52..54])]
      ensures addr in old(clients) ==>
                clients == old(clients) && universe == old(universe) && old(clients[addr].seqNo) < 65536 &&
                clients[addr].Processed(data, now, replies, crashed) &&
                (!Demux.IsHandshake(data) ==>
                   Demux.Numbered(replies, old(clients[addr].seqNo), clients[addr].RelTime(now), clients[addr].cliTime) &&
                   (!crashed ==> clients[addr].seqNo == (old(clients[addr].seqNo) + |replies|) % 65536)) &&
                forall y :: y in universe && y != clients[addr] ==>
                  unchanged(y`startTime, y`cliTime, y`seqNo, y`chanInfo, y`playerInfo, y`lastPacket, y`ping, y.carPos)
    {
      if addr !in clients {
        if !Demux.IsHandshake(data) {
          return [], false;
        }
        var reply := Register(addr, data, now);
        return [reply], false;
      }
      var c := clients[addr];
      var peers := Peers();
      ghost var s := c.seqNo;
      replies, crashed := Dispatch(c, data, now, peers);
      assert s == old(clients[addr].seqNo);
    }

    /** `newClient` for a handshake from a new address, stored under that
        address, and its `replyHandshake`: sequence number 0 (the copy's
        increment is lost) and relative time 0. */
    method Register(addr: seq<char>, data: seq<byte>, now: int) returns (reply: seq<byte>)
      requires Valid() && addr !in clients && Demux.IsHandshake(data)
      modifies this`clients, this`universe
      ensures Valid() && addr in clients && fresh(clients[addr])
      ensures clients == old(clients)[addr := clients[addr]] && universe == old(universe) + {clients[addr]}
      ensures clients[addr].startTime == now && clients[addr].lastPacket == now && clients[addr].cliTime == data[52..54]
      ensures clients[addr].slots == EmptyTable() && clients[addr].State() == Demux.View(None, None, None, Vector2D(0, 0), 0, 0)
      ensures reply == Ack(0, 0, data[52..54])
    {
      var c := new Client(data[52..54], now);
      clients := clients[addr := c];
      universe := universe + {c};
      reply := c.ReplyHandshake(now);
    }

    /** A known client's datagram: its `processPacket` with the instance's
        clients. Whatever it sends are empty slot updates with consecutive
        sequence numbers, and unless it crashes the client's sequence
        number ends past the last of them. */
    method Dispatch(c: Client, data: seq<byte>, now: int, peers: seq<Client>) returns (replies: seq<seq<byte>>, crashed: bool)
      requires Valid() && c in universe && forall y :: y in peers ==> y in universe
      modifies c`startTime, c`cliTime, c`seqNo, c`slots, c`chanInfo, c`playerInfo, c`lastPacket, c`ping, c.carPos, universe`slots
      ensures !crashed ==> SelfOnly(universe)
      ensures c.Processed(data, now, replies, crashed)
      ensures !Demux.IsHandshake(data) ==> Demux.Numbered(replies, old(c.seqNo), c.RelTime(now), c.cliTime)
      ensures !Demux.IsHandshake(data) && !crashed ==> c.seqNo == (old(c.seqNo) + |replies|) % 65536
    {
      ghost var v := c.State();
      replies, crashed := c.ProcessPacket(data, now, peers, universe);
      if !Demux.IsHandshake(data) && |data| > 22 {
        ghost var rel, cliTime := c.RelTime(now), c.cliTime;
        Demux.RunNumbered(v, Parse(Demux.Payload(data)), rel, cliTime);
        Demux.RunSeqNo(v, Parse(Demux.Payload(data)), rel, cliTime);
      }
    }

    /** One turn of `RunTimer`: collects the keys of the inactive clients
        and deletes them. */
    method Sweep(now: int)
      requires Valid()
      modifies this`clients
      ensures Valid() && clients == Swept(old(clients), now)
    {
      var remove := Inactive(now);
      Delete(remove);
      assert clients == Swept(old(clients), now);
    }

    /** The first loop of `RunTimer`: the keys of the inactive clients, in
        map iteration order. */
    method Inactive(now: int) returns (remove: seq<seq<char>>)
      ensures forall k :: k in remove <==> k in clients && !clients[k].Active(now)
    {
      remove := [];
      var todo := clients.Keys;
      while todo != {}
        invariant todo <= clients.Keys
        invariant forall k :: k in remove <==> k in clients && k !in todo && !clients[k].Active(now)
        decreases |todo|
      {
        var k :| k in todo;
        if !clients[k].Active(now) {
          remove := remove + [k];
        }
        todo := todo - {k};
      }
    }

    /** The second loop of `RunTimer`: deletes every key of remove. */
    method Delete(remove: seq<seq<char>>)
      modifies this`clients
      ensures clients == old(clients) - set k | k in remove
    {
      var i := 0;
      while i < |remove|
        invariant 0 <= i <= |remove|
        invariant clients == old(clients) - set j | 0 <= j < i :: remove[j]
      {
        clients := clients - {remove[i]};
        i := i + 1;
      }
      assert (set j | 0 <= j < i :: remove[j]) == set k | k in remove;
    }
  }

  /** The clients a sweep at instant now keeps: the active ones. */
  ghost function Swept(m: map<seq<char>, Client>, now: int): (r: map<seq<char>, Client>)
    reads m.Values
  {
    map k | k in m && m[k].Active(now) :: m[k]
  }

  /** Sweeping twice at the same instant removes nothing more. */
  lemma SweptIdempotent(m: map<seq<char>, Client>, now: int)
    ensures Swept(Swept(m, now), now) == Swept(m, now)
  {
  }

  /** A sweep keeps exactly the clients heard from in the last 5 seconds,
      unchanged. */
  lemma SweptKeeps(m: map<seq<char>, Client>, now: int)
    ensures forall k :: k in Swept(m, now) <==> k in m && now - m[k].lastPacket < 5000
    ensures forall k :: k in Swept(m, now) ==> Swept(m, now)[k] == m[k]
  {
  }

  /** A later sweep keeps no client an earlier one would have removed. */
  lemma SweptLater(m: map<seq<char>, Client>, now: int, later: int)
    requires now <= later
    ensures Swept(m, later).Keys <= Swept(m, now).Keys
  {
  }
}
