# go-freeroam core in Dafny

A model of the freeroam server of go-freeroam: a UDP server that keeps a
session per client address, reads each client's type-length-value
sub-packets (channel info, player info, car position), and answers every
handled sub-packet with a slot update. A slot update lists, in 14 slots, the
nearby players the client should see.

The model follows the four Go files of the core.

- `posCodec.dfy` (`packet.go`): the position sub-packet. The class
  `CarPosPacket` keeps the raw packet and the decoded position. `Update`
  stores a packet and decodes X and Y when the flying bit is set. `Packet(t)`
  stamps a big-endian time into bytes 0-1 in place. `GetX`, `GetY` and
  `IsLowY` are the bit-level decoders, and `BitMask` is the mask loop.
  `BitMask` is proved to compute `Mask(n)`, the closed form 2^n - 1, and
  the decoders, which are functions, mask with `Mask(17)` and `Mask(18)`.
- `bytes.dfy` holds the bit arithmetic the decoders need: Go's `&` and `|`
  on naturals, and big-endian 16-bit reads and writes.
- `diff.dfy` (`diff.go`): `has` and `ArrayDiff` as methods with loops,
  proved against the functions `Common` and `Minus`.
- `slots.dfy`, `ranking.dfy`, `wire.dfy`, `tlv.dfy`, `demux.dfy` and
  `session.dfy` (`client.go`). The class `Client` holds the session fields:
  the 14-entry slot table (`Table`, a sequence of optional slots), the
  sequence number, the channel and player blobs, the position packet, the
  ping and the timestamps.
  - `slots.dfy` specifies `addSlot` and `removeSlot` on tables.
  - `ranking.dfy` has the distance and the sort of `getClosestPlayers`.
  - `wire.dfy` has the byte layouts of the acknowledgement, the slot-update
    header and the two slot blocks.
  - `tlv.dfy` parses a payload into sub-packets the way the `bytes.Reader`
    loop reads them.
  - `demux.dfy` specifies what a whole payload does to the client's state.
  - `session.dfy` has the `Client` methods themselves: `processPacket`,
    `sendPlayerSlots`, `recalculateSlots`, `getClosestPlayers`, `addSlot`
    and `removeSlot`.
- `registry.dfy` (`instance.go`): the class `Instance`, holding the map from
  address to client. It models one datagram step of `RunPacketRead` and one
  sweep of `RunTimer`. Its invariant also says that no two clients share a
  position packet (each `newClient` makes its own), so a datagram that
  changes its sender's position leaves every other client's alone.

Time is an input. Each operation receives the instant `now` in
milliseconds. `getTimeDiff()` is `(now - startTime) mod 2^16`. Sending a
datagram is returning its bytes. A Go panic is the result flag `crashed`:
either a position sub-packet too short to decode, or encoding an occupant
that has no position packet.

### The shadowed receiver in `recalculateSlots`

In `recalculateSlots` (`client.go:216-221`), the range variable `c` shadows
the receiver. Each removed neighbour `y` therefore runs `y.removeSlot(y)` on
its own table, and each added neighbour runs `y.addSlot(y)` on its own table.
`ShadowedRecalc` states this effect. `RecalculateSlots` is proved to do
exactly that to every client's table.

A consequence is proved from this: once every table holds no one but its
owner (`OwnerOnly`), every table keeps that property (`SelfOnly` over the
set of clients). Every session starts with empty tables. So in every state
the server reaches, the receiver's own table is emptied, and every slot
update is the one announcing 14 empty slots (`EmptySlotUpdate`).
`SendPlayerSlots`, the reader loop and the registry step are stated for
these reachable states. `EncodeSlotUpdate` and `EncodeSlots` are proved for
any table.

## Model

| member | source | states |
|---|---|---|
| Bytes.PutUint16BE | freeroam/packet.go:21-22 | `binary.BigEndian.PutUint16` gives two bytes that read back as the value |
| Bytes.PutUint16BEOfUint16BE | freeroam/packet.go:69 | writing the big-endian value of two bytes gives those two bytes back |
| Bytes.Wrap16 | freeroam/client.go:135 | the uint16 subtraction of the ping lies in 0..65535 |
| Bytes.Zeros | freeroam/client.go:121 | `make([]byte, plen)`: plen bytes, all zero |
| PosCodec.BitMask | freeroam/packet.go:73-79 | the OR loop gives `Mask(n)`: 2^n - 1 for 0 <= n <= 32 (0 for n <= 0, all 32 bits above), the mask `getY` and `getX` apply |
| PosCodec.Flying | freeroam/packet.go:30 | flying is bit 3 of byte 2 |
| PosCodec.IsLowY | freeroam/packet.go:68-71 | low-Y mode holds exactly when byte 3 < 7, or byte 3 = 7 and byte 4 <= 149 |
| PosCodec.LowYBoundary | freeroam/packet.go:68-71 | low-Y holds iff the big-endian u16 of bytes 3-4 is <= 1941: 1941 is low, 1942 is high |
| PosCodec.GetYValue | freeroam/packet.go:43-51 | Y is below 2^17; in low-Y mode it is bits from bytes 3, 4 and the top 5 bits of byte 5, and it is even; otherwise it uses the top 6 bits of byte 5 |
| PosCodec.GetYLow | freeroam/packet.go:45-50 | with the 0xf8 mask, Y = (b3 mod 8)·2^14 + b4·64 + (b5 div 8)·2 |
| PosCodec.GetYHigh | freeroam/packet.go:47-50 | with the 0xfc mask, Y = (b3 mod 8)·2^14 + b4·64 + b5 div 4 |
| PosCodec.GetXValue | freeroam/packet.go:53-66 | X is below 2^18 and is the masked bytes 7-9 shifted by 5 (low Y) or 4 (high Y) |
| PosCodec.GetXLow | freeroam/packet.go:56-59 | masks 0x7f / 0xe0 and shift 5: X = (b7 mod 128)·2048 + b8·8 + b9 div 32 |
| PosCodec.GetXHigh | freeroam/packet.go:60-64 | masks 0x3f / 0xf0 and shift 4: X = (b7 mod 64)·4096 + b8·16 + b9 div 16 |
| PosCodec.Stamp | freeroam/packet.go:20-26 | the stamped packet keeps its length, reads t in bytes 0-1 and keeps every other byte |
| PosCodec.StampStamp | freeroam/packet.go:20-26 | stamping twice is stamping once with the later time, so stamping again with the same t changes nothing |
| PosCodec.StampKeepsPosition | freeroam/packet.go:20-26 | stamping the time does not change the flying bit, the Y mode, X or Y |
| PosCodec.CarPosPacket.constructor | freeroam/packet.go:7-10 | the zero value: no packet, position (0, 0) |
| PosCodec.CarPosPacket.Packet | freeroam/packet.go:20-26 | the stored packet becomes the stamped one, and that is returned |
| PosCodec.CarPosPacket.Reset | freeroam/client.go:101 | `c.carPos = CarPosPacket{}`: no packet, position (0, 0), not valid |
| PosCodec.CarPosPacket.Update | freeroam/packet.go:28-35 | stores the packet, after which `Valid()` holds; the position becomes (X, Y) when flying and is otherwise unchanged |
| Diff.Has | freeroam/diff.go:35-42 | true iff v occurs in a |
| Diff.ArrayDiff | freeroam/diff.go:14-33 | Kept = new filtered by "in old", Added = new filtered by "not in old", Removed = old filtered by "not in new", each in its list's order with duplicates kept |
| Diff.Partition | freeroam/diff.go:20-26 | every element of new lands in exactly one of Kept and Added: \|Kept\| + \|Added\| = \|new\|, and the multisets add up |
| Diff.CommonCount | freeroam/diff.go:20-26 | Kept holds each x of old as often as new does, and nothing else |
| Diff.MinusCount | freeroam/diff.go:27-31 | Removed holds each x outside new as often as old does, and nothing else |
| Diff.Membership | freeroam/diff.go:20-31 | x is kept iff it is in both lists; x is added or removed iff it is in one list and not the other |
| Diff.InOrder | freeroam/diff.go:20-31 | Kept, Added and Removed are subsequences of their source list |
| Diff.SelfDiff | freeroam/diff.go:14-33 | ArrayDiff(x, x) keeps x and adds and removes nothing |
| Diff.EmptySide | freeroam/diff.go:14-33 | ArrayDiff([], n) adds n; ArrayDiff(o, []) removes o |
| Ranking.IsqrtSpec | freeroam/client.go:150-155 | `int(distance)` is the largest r with r·r <= dx²+dy² (`DistSq`) |
| Ranking.IsqrtMono | freeroam/client.go:159 | truncating the distance preserves its order |
| Ranking.InsertSorted | freeroam/client.go:159 | inserting into a list sorted by `Length` keeps it sorted |
| Ranking.InsertPerm | freeroam/client.go:159 | inserting adds exactly the one entry |
| Ranking.SortSpec | freeroam/client.go:159 | the sort's result is non-decreasing by `Length` and is a permutation of its input |
| Ranking.ClientsOf | freeroam/client.go:160-164 | the copy loop yields the entries' clients, in order |
| Ranking.ClientsOfSort | freeroam/client.go:159-164 | sorting permutes the clients too |
| Slots.EmptyTable | freeroam/client.go:32-35 | 14 slots, all empty |
| Slots.IndexFrom | freeroam/client.go:168-175 | the index lambda of `removeSlot` finds a slot holding x, before which no slot holds x, or gives -1 when none does |
| Slots.AddIndex | freeroam/client.go:183-199 | the index lambda of `addSlot` gives the lowest empty slot, or the last index (13) when all are taken |
| Slots.RemoveFirstSpec | freeroam/client.go:167-180 | `removeSlot(x)` leaves the table as it was when x is absent, and otherwise empties one slot that held x and nothing else; x's count drops by one |
| Slots.AddSpec | freeroam/client.go:182-205 | `addSlot(x)` writes x, flagged just added, into the lowest empty slot or into slot 13 when none is empty; every other slot is unchanged |
| Slots.CountInClear | freeroam/client.go:178 | emptying a slot lowers only its occupant's count, by one |
| Slots.RemoveNAll | freeroam/client.go:216-218 | removing x as often as it occurs empties exactly x's slots |
| Slots.ClearFlags | freeroam/client.go:251 | after the slot loop every slot keeps its occupant and none is flagged just added |
| Slots.ClearFlagsKeeps | freeroam/client.go:243-256 | clearing the flags keeps which slots are occupied, and by whom |
| Slots.ClearFlagsCount | freeroam/client.go:251 | clearing the flags keeps every client's count |
| Slots.OccupantsCount | freeroam/client.go:209-214 | `oldPlayers` lists each client once per slot it holds |
| Slots.OccupantsHold | freeroam/client.go:209-214 | a client is in `oldPlayers` iff some slot holds it |
| Slots.ShadowedRecalc | freeroam/client.go:207-222 | the shadowed recalculation keeps a table's size |
| Slots.ShadowedRecalcCases | freeroam/client.go:207-222 | a client z the receiver does not show is added to z's own table once per time it is near; a shown client that is still near keeps its table; a shown client no longer near is removed from its own table once per slot it held |
| Slots.ShadowedRecalcOwnerOnly | freeroam/client.go:207-222 | a table that holds no one but its owner keeps doing so |
| Slots.ShadowedRecalcSelf | freeroam/client.go:207-222 | the receiver's own table, holding at most the receiver, ends up empty, since the receiver is never near itself |
| Slots.ShadowedRecalcOther | freeroam/client.go:207-222 | the recalculation never raises the count of a client other than the table's owner |
| Slots.OwnerOnlyRemoveN | freeroam/client.go:216-218 | removing the owner from its own table keeps it owner-only |
| Slots.OwnerOnlyAddN | freeroam/client.go:219-221 | adding the owner to its own table keeps it owner-only |
| Slots.OwnerOnlyClearAll | freeroam/client.go:216-218 | an owner-only table with the owner removed is empty |
| Wire.Ack | freeroam/client.go:75-83 | the handshake reply: seq (big-endian), 0x01, time, cliTime, then 01 01 01 01 |
| Wire.Header | freeroam/client.go:236-242 | the slot-update header: seq, 0x02, time, cliTime, seq again, then ff ff 00 |
| Wire.FullBlock | freeroam/client.go:280-295 | `getFullSlotPacket`: 00 00 22, chan, 01 41, player, 12 1a, the position packet, ff |
| Wire.PosBlock | freeroam/client.go:269-278 | `getFullPosPacket`: 00 12 1a, the position packet, ff |
| Wire.BlockSizes | freeroam/client.go:269-295 | with 34-, 65- and 26-byte blobs a full block is 133 bytes and a position block 30 |
| Wire.SlotUpdate | freeroam/client.go:236-258 | the slot update is the header, the blocks in slot order, then 01 01 01 01 |
| Wire.EmptySlotUpdate | freeroam/client.go:236-258 | an update of 14 empty slots is 42 + \|cliTime\| bytes |
| Wire.EmptyBlocksSnoc | freeroam/client.go:246-247 | each further empty slot appends ff ff |
| Wire.TwoByteClientTime | freeroam/client.go:236-241 | with a 2-byte cliTime the ack is 11 bytes, seq sits at offsets 0 and 7 of the header, and an empty update is 44 bytes |
| Tlv.Available | freeroam/client.go:119-122 | the body bytes the reader actually holds never exceed the declared length or the data |
| Tlv.Head | freeroam/client.go:115-122 | the sub-packet read has the type byte and a body of exactly the declared length, 0 when the length byte is missing |
| Tlv.Consumed | freeroam/client.go:115-122 | each reader turn consumes at least one byte and at most what is left |
| Tlv.ReadSubPacket | freeroam/client.go:115-122 | one reader turn yields the head sub-packet and moves past it; the rest parses as the remaining sub-packets |
| Tlv.ParseEncode | freeroam/client.go:113-123 | the reader loop gives back the sub-packets of well-framed data |
| Tlv.Truncated | freeroam/client.go:119-123 | a trailing body cut short is still yielded, zero-padded to its declared length |
| Tlv.HeadTruncated | freeroam/client.go:121-122 | `Read` into the zeroed buffer keeps the short body and pads it, consuming all that is left |
| Tlv.LoneType | freeroam/client.go:115-119 | a lone trailing type byte yields a sub-packet with an empty body |
| Tlv.ParseStep | freeroam/client.go:114-123 | the parse splits at each sub-packet boundary |
| Demux.Payload | freeroam/client.go:112 | the TLV data is bytes 16 up to len-5 |
| Demux.Store | freeroam/client.go:125-137 | 0x00 replaces the channel blob; 0x01 replaces the player blob; 0x12 stores the position packet, keeps both blobs and sets a ping in 0..65535; the sequence number is unchanged |
| Demux.Step | freeroam/client.go:124-140 | a turn sends nothing and keeps the sequence number, or sends one update numbered with the current one and advances it mod 2^16 |
| Demux.Run | freeroam/client.go:114-141 | the sequence number and every update's number stay below 2^16 |
| Demux.RunSeqNo | freeroam/client.go:138-140 | a run that does not panic advances the sequence number once per update sent, mod 2^16, and sends at most one update per sub-packet |
| Demux.RunSequence | freeroam/client.go:236 | the updates of one datagram carry consecutive sequence numbers from the one the client had |
| Demux.RunNumbered | freeroam/client.go:138-140 | the datagrams of a run are the empty slot updates numbered seq, seq + 1, ... mod 2^16 |
| Demux.RunUpdates | freeroam/client.go:236-258 | the k-th update of a datagram is the empty slot update numbered seq + k mod 2^16 |
| Demux.Updates | freeroam/client.go:138-140 | one datagram per update sent |
| Demux.UpdatesAppend | freeroam/client.go:114-141 | the updates of two stretches of the loop are the updates of the two, concatenated |
| Demux.Advance | freeroam/client.go:114-141 | the loop's bookkeeping: a run that meets s next either panics at s, with what it sent so far, or goes on as the run after s |
| Demux.AfterAfter | freeroam/client.go:114-141 | updates sent in two stretches add up |
| Demux.Numbers | freeroam/client.go:69-73 | n sequence numbers from `getSeq` |
| Demux.NumbersCons | freeroam/client.go:69-73 | numbering on from a is a, then numbering on from a + 1 mod 2^16 |
| Demux.RunCrash | freeroam/client.go:133 | a datagram panics exactly when one of its position sub-packets is shorter than 3 bytes, or than 10 bytes with the flying bit set (`Update`'s indexing) |
| Demux.RunKeepsReady | freeroam/client.go:138 | a ready client (`isOk()`) stays ready |
| Demux.RunReadyCount | freeroam/client.go:124-140 | a ready client that does not panic sends one update per handled sub-packet |
| Demux.HandledCount | freeroam/client.go:124-137 | at most one handled sub-packet per sub-packet |
| Demux.RunLastWins | freeroam/client.go:126-133 | the channel blob, the player blob and the position packet are each the body of the last sub-packet of their type, or unchanged when there is none |
| Demux.RunEncoded | freeroam/client.go:113-141 | processing the framed bytes of some sub-packets does what processing those sub-packets does |
| Session.FilterCloseMember | freeroam/client.go:146-158 | a client is kept iff it is listed, ready, not the receiver and at distance <= 10000; the receiver is never kept |
| Session.Client.constructor | freeroam/client.go:31-48 | `newClient`: start and last-packet time now, the given cliTime, seq 0, 14 empty slots, no blobs, an empty position packet |
| Session.Client.ReplyHandshake | freeroam/client.go:75-83 | the reply is the 11-byte ack with the current seq and time |
| Session.Client.RemoveSlot | freeroam/client.go:167-180 | the table becomes `RemoveFirst` of the old one, which `Slots.RemoveFirstSpec` describes |
| Session.Client.AddSlot | freeroam/client.go:182-205 | the table becomes `Add` of the old one, which `Slots.AddSpec` describes |
| Session.Client.OldPlayers | freeroam/client.go:209-214 | the occupants of the slots, in slot order |
| Session.Client.CloseEntries | freeroam/client.go:145-158 | the filter loop keeps exactly the close clients in order, each with its truncated distance |
| Session.Client.GetClosestPlayers | freeroam/client.go:144-165 | the result is a permutation of the close clients, sorted by non-decreasing distance |
| Session.Client.SlotDiff | freeroam/client.go:208-215 | the players are a permutation of the close clients; removed and added are the `ArrayDiff` of the occupants and the players |
| Session.Client.RecalculateSlots | freeroam/client.go:207-222 | as written: the table of every client involved becomes its `ShadowedRecalc`; only tables change |
| Session.Client.RecalculateOwnerOnly | freeroam/client.go:207-222 | in owner-only states the receiver's table ends up empty and every table stays owner-only |
| Session.Client.EncodeSlotUpdate | freeroam/client.go:236-258 | seq advances by one; the update is the header with the old seq, the 14 slot blocks with time - 15 and the trailer; every occupant's position packet is stamped and no other changes; the flags are cleared; it panics exactly when an occupant has no position packet of 2 bytes or more |
| Session.Client.EncodeEmptyUpdate | freeroam/client.go:236-258 | with every slot empty the update is the 14-empty-slot update with the old seq |
| Session.Client.SendPlayerSlots | freeroam/client.go:224-259 | in owner-only states: seq advances by one, the update announces 14 empty slots, and every other table changes as `ShadowedRecalc` says |
| Session.Client.StoreSub | freeroam/client.go:125-137 | the switch changes the client state as `Demux.Store` says, and panics exactly on a short position body |
| Session.Client.SendUpdate | freeroam/client.go:138-140 | `sendPlayerSlots` from the reader loop: the state changes only in seq, and the update is the empty one with the old seq |
| Session.Client.HandleSub | freeroam/client.go:124-140 | one sub-packet changes the state and sends as `Demux.Step` says |
| Session.Client.ReadTurn | freeroam/client.go:114-140 | one reader turn keeps the loop's invariant: what is left to do is the run over the rest of the data |
| Session.Client.ReadPayload | freeroam/client.go:112-141 | the reader loop ends in the state `Demux.Run` gives and sends its updates, or panics exactly when `Demux.Run` does |
| Session.Client.Restart | freeroam/client.go:91-105 | re-hello: start and last-packet time now, cliTime from bytes 52-53, seq 0, 14 empty slots, no blobs, an empty position packet |
| Session.Client.ProcessPacket | freeroam/client.go:89-142 | `Processed`: the last-packet time is now; a handshake (58 bytes, byte 2 = 6) resets the session and sends nothing; any other datagram keeps the start time and client time bytes; a short one (<= 22 bytes) sends nothing and changes nothing else; a longer one sends the updates of `Demux.Run` over bytes 16..len-5, panics exactly when the run does, and otherwise ends in the run's state |
| Session.SortKeepsDistances | freeroam/client.go:159 | the sorted list is a permutation of the close clients, ordered by distance |
| Session.DiffCounts | freeroam/client.go:215 | removed holds each shown client that is no longer near, once per slot; added holds each near client not shown, once per time it is listed |
| Session.RemoveEach | freeroam/client.go:216-218 | each removed y runs removeSlot on its own table |
| Session.AddEach | freeroam/client.go:219-221 | each added y runs addSlot on its own table |
| Session.RecalcCompose | freeroam/client.go:215-221 | the two loops together give `ShadowedRecalc` |
| Session.SlotBlock | freeroam/client.go:246-255 | a just-added slot gives a full block and any other occupied slot a position block, of the lengths `getFullSlotPacket`/`getFullPosPacket` give |
| Session.SlotBlockStamped | freeroam/client.go:250-253 | a packet already stamped with t gives the same block |
| Session.ShotBlocksEmpty | freeroam/client.go:246-247 | a table of empty slots encodes as 14 × ff ff |
| Session.EncodeOccupant | freeroam/client.go:249-254 | an occupied slot gives its block and stamps the occupant's packet, or panics when that packet is missing or shorter than 2 bytes |
| Session.EncodeSlot | freeroam/client.go:244-255 | one slot's block, whether or not its occupant was stamped at an earlier slot |
| Session.EncodeNext | freeroam/client.go:243-256 | one turn of the slot loop appends the slot's block and stamps its occupant, and nothing else |
| Session.EncodeSlots | freeroam/client.go:243-256 | the blocks in slot order, the flags cleared, every occupant stamped and no other position packet changed; it panics exactly when some occupant cannot be encoded |
| Registry.Instance.constructor | freeroam/instance.go:26-36 | `NewInstance`: no clients |
| Registry.Instance.Peers | freeroam/client.go:225-232 | the snapshot lists the registry's clients, one entry per address |
| Registry.Instance.HandleDatagram | freeroam/instance.go:50-64 | an unknown sender's non-handshake datagram sends nothing and changes no field of the registry or of any client; an unknown sender's handshake adds exactly one fresh client under that address (start and last-packet time now, cliTime from bytes 52-53, seq 0, 14 empty slots, no blobs, an empty position) and sends the 11-byte ack with seq 0 and time 0, leaving every other client untouched; a known sender's datagram leaves the registry alone, changes its client as `processPacket` does (`Processed`), replies with empty slot updates numbered on from the old seq, advances the seq by their number unless it panics, and changes nothing of any other client but its slot table |
| Registry.Instance.Register | freeroam/instance.go:55-56 | the new client is stored under the address in its `newClient` state, and the ack goes out with seq 0, since `replyHandshake` increments a copy |
| Registry.Instance.Dispatch | freeroam/instance.go:63 | the known client's `processPacket`, changing only that client, its position packet and the slot tables: its new state and replies are as `Processed` says; the replies are empty slot updates numbered on from the old seq, and unless it panics the seq ends advanced by their number |
| Registry.Instance.Sweep | freeroam/instance.go:73-86 | the registry becomes exactly the active entries it had, untouched |
| Registry.Instance.Inactive | freeroam/instance.go:73-83 | the collected keys are exactly those of inactive clients |
| Registry.Instance.Delete | freeroam/instance.go:84-86 | the listed keys are deleted and no others |
| Registry.SweptKeeps | freeroam/client.go:85-87 | a sweep keeps exactly the clients heard from less than 5 seconds ago, with their values unchanged |
| Registry.SweptIdempotent | freeroam/instance.go:73-86 | a second sweep at the same instant removes nothing |
| Registry.SweptLater | freeroam/instance.go:73-86 | a later sweep keeps no client an earlier one removed |

## Left out

- `main.go` is not part of this model: the process entry, the signal wait and the debug endpoint are I/O only.
- `internal/vec.go` computes distances in `float64` with `math.Sqrt`. The model uses integer positions, dx²+dy² <= 10^8 for the radius test, and the integer square root for `int(distance)`. Float rounding is not modelled.
- The socket, `readPacket`, `WriteToUDP`, the goroutines, the mutex and `time.Tick` are not modelled. Each datagram step and each sweep is one atomic operation. Sent datagrams are returned values, and the reused `bytes.Buffer`s are fresh sequences.
- `time.Now()` is the input `now`, one instant per operation. `getTimeDiff()` is `(now - startTime) mod 2^16` in whole milliseconds; the float seconds and the float-to-uint16 conversion are not modelled.
- `fmt.Printf` logging is left out.
- Go's map iteration order is not modelled. The slot map `Slots` is read in index order 0..13. The snapshot of the registry's clients (`Registry.Instance.Peers`) and the inactive keys (`Registry.Instance.Inactive`) are taken in an arbitrary order.
- Registry.Instance.Peers: the snapshot is taken once per datagram. Go re-enumerates the map before every `sendPlayerSlots`; the model uses the same order for every send of one datagram.
- Ranking.SortByLength: `sort.Sort` is modelled by an insertion sort. Only sortedness and permutation are claimed; the order among equal distances is not.
- The state after a panic is not described. `crashed` reports that Go would have panicked, and contracts speak of the new state only when it did not.
- Session.Client.SendPlayerSlots, Session.Client.ReadPayload, Session.Client.ProcessPacket, Registry.Instance.Dispatch and Registry.Instance.HandleDatagram: stated only for reachable states, where every table holds at most its owner. A state with another client in a table is never reached, since `recalculateSlots` as written only ever puts a client in its own table. `EncodeSlotUpdate` and `EncodeSlots` are proved for any table.
- Session.Client.ProcessPacket, Registry.Instance.Dispatch and Registry.Instance.HandleDatagram: other clients' tables are described only through `SelfOnly`, the fact that they still hold at most their owner. Their exact new contents are given by `Session.Client.SendPlayerSlots` for a single send. Every other field of the other clients is stated unchanged.
- Demux.Store: `Ping` is `int(uint16 difference)`, modelled as the difference mod 2^16.
- `getSeq` (client.go:69-73) is inlined where it is called: post-increment of the sequence number mod 2^16.
- `clone` (packet.go:37-41) is the identity on sequences; Dafny sequences are values, so copying is implicit.
- `GetPos`, `isOk`, `Valid`, `Pos` and `Active` are accessors and predicates without contracts of their own. They are used in the contracts of the members above.
- The `JustAdded` flags are cleared in the model after the slot loop, as one table update (`Slots.ClearFlags`), not slot by slot during it. No reader sees the difference, since the loop reads each slot once.
- The field `Addr` and the comparison `client.Addr == c.Addr` are modelled by object identity of clients. Within one registry each address has one client.

Two points about the code as written:

- A full slot block is 133 bytes and a position block 30 bytes with the blob sizes the client sends (34, 65 and 26 bytes), because the type and size bytes and the slot markers are written too.
- A truncated trailing sub-packet is not dropped. It is zero-padded to its declared length and still applied.
