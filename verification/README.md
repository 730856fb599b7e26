# EnkiNet, modelled and proved

EnkiNet is a small networking layer for games: a bit and byte stream, a host with clients that share a
scenegraph of entities, remote procedure calls routed by ownership, client IDs and sessions, and signals
with connections. This project models those parts in Dafny and proves what they promise.

| files | part |
|---|---|
| `Bits.dfy`, `PacketStream.dfy`, `Packet.dfy` | the packet buffer: bits by address, what each stream operation does, and the class that does it in place |
| `Quantise.dfy`, `Codec.dfy`, `Fields.dfy` | compressed floats over the reals; any list of fields written and read back |
| `Transport.dfy`, `Packing.dfy`, `Messages.dfy`, `Wire.dfy` | sending, relaying and clearing a packet; how tightly bit fields pack; entity and RPC messages; the bits and bytes these become |
| `ServerSessions.dfy`, `SessionOrder.dfy`, `ServerHost.dfy` | client IDs, the event queue and sessions, as a machine, in what order, and as the server object |
| `Signals.dfy`, `SignalHistory.dfy`, `SignalLifetimes.dfy` | signals and connections, as classes and over whole histories; how long slots stay |
| `Rpc.dfy`, `RpcRuns.dfy` | who executes an entity RPC, in any scenes and in those that runs lead to |
| `Entity.dfy`, `SceneTree.dfy`, `Termination.dfy` | creating trees of entities, and when that ends |
| `Scenes.dfy`, `HostScenes.dfy`, `Scenegraph.dfy`, `OrphanCascade.dfy` | scenes and messages; what single operations do to them; the host's scenegraph object; repeated updates |
| `Replication.dfy`, `ClientScenes.dfy`, `History.dfy`, `Ordering.dfy` | host and clients over whole runs; what clients have in the end; why entities are lost; in what order they are sent |
| `Ownership.dfy`, `LocalIDs.dfy`, `Mastership.dfy` | whose entities are, and which a creation replaces; local ones; who takes itself for the master |

The objects of the source that change in place (`Packet`, `ServerHost`, `Signal`, `Connection`,
`Scenegraph`, the RPC routing) are classes whose methods have the source's branches and loops. Each
method is proved equal to functions on the object's state, and the theorems are about those functions. (For
signals these are the functions on one signal; which connection object stands for which slot is the history's.)

Main results:

- Any list of bit fields, raw values, strings, vectors and quantised floats arrives cut to the bits really moved, and
  unchanged if and only if every value fits them (`Codec.ListReceived`, `Codec.DeliveredExactly`), in the same packet object
  (`Fields.RoundTripInObject`), after transport (`Transport.TransportSurvival`) or relayed (`Transport.RelaySurvival`),
  over-consuming branch included; and which bits and bytes are sent for it (`Wire.BitsOnWire`, `Wire.ListOnWire`).
- Apart from IDs that one side has changed silently, a client differs from the host, after any run, in exactly those its
  snapshot missed and nobody has mentioned since (`Replication.DiffersExact`, `Replication.ConvergenceExact`); late joiners
  converge in clean runs (`Replication.LateJoinersConverge`), after which the whole of their networked scenes is the host's
  live one (`ClientScenes.CleanRunsCatchUp`), and there are runs in which they do not.
- Repeated updates keep exactly the entities whose nearest ancestors are intact, and stop at the largest
  closed set, within height plus one updates (`OrphanCascade.AfterUpdates`, `Fixpoint`, `HeightBound`,
  `GoesExactlyAt`).
- Every deletion broadcast, in any run, was called for on the host or requested by the owner, or a chain of missing parents
  leads to an entity so deleted, to one that marked itself, or to one created without its parent
  (`History.DeletionAuthority`). The last does not happen if every creation names a parent that is there
  (`History.DeletionAsked`), and does if one names a parent that has never been (`History.DeletionUnasked`).
- Exactly when creations, and then snapshots, keep children before parents, and exactly when a creation replaces an
  entity that is there (`Ordering.CreationOrderExact`, `Ordering.SnapshotChildrenFirst`, `Ownership.ReplacementExact`,
  and for local ones `LocalIDs.LocalReplacementExact`).
- A tree of entities is numbered in pre-order and announced in post-order, each node once
  (`SceneTree.CreateBuilds`), and exactly when creating it ends (`Termination.EndsExactly`).
- Client IDs are conserved, sessions well formed, and a recycled ID is quiet (`ServerSessions`); IDs are given out again in
  the order in which their clients were seen to leave, and no event is lost or overtaken (`SessionOrder.IdsInOrder`,
  `SessionOrder.EventsInOrder`).
- A networked entity that is only ever created for one owner has at most one master, every peer asking its own copy
  (`Mastership.OneMaster`); a request for the ID of another's entity makes two (`Mastership.ReplacementSplits`).
- An entity RPC is executed by exactly the documented peers that share the entity, each once (`Rpc.DeliveryExact`), and after
  clean runs by all of them (`RpcRuns.DeliveryInRuns`).
- A signal calls exactly the functions not yet disconnected, in order, after any history (`SignalHistory`), and a function
  stays connected until somebody lets go of its slot (`SignalLifetimes.StaysConnected`).

Where the code and its comments disagree, the model follows the code:

- The bounds check of `readBits` lets a read start whose last byte lies one past the buffer: `PacketStream.GuardGap`
  says exactly when. Reads of what was written never meet it.
- A compressed float with a power of two of steps needs one code more than its bits have: `Quantise.TopCodeFits`,
  `Codec.QuantisedExactly`, `Codec.TopOfRangeLost`.
- `Connection::operator bool` stays true on copies of a connection that has been disconnected:
  `SignalHistory.UsableIsNotConnected`, `SignalHistory.CopyOutlivesSlot`.
- The snapshot for a new client includes entities marked for removal (`Replication.SnapshotExact`), and local ones, which
  overwrite the client's own (`Replication.SnapshotScene`, `Replication.LocalOverwritten`).
- The server's own deletions include those that `update` makes of orphans: `History.DeletionsBroadcast`.
- An entity may mark itself for removal, which at the host tells no client: `Replication.SelfMarkDiverges`.
- The server checks neither the ID nor the parent a client asks for: `Ownership.UnaskedDeletion`,
  `Ownership.ParentSentFirst`, `Ownership.OwnerOusted`, `Mastership.TwoMasters`.

## Model

| member | source | states |
|---|---|---|
| Bits.PutBitsAt | src/EnkiNet/Networking/Packet.cpp:84-100 | storing bits sets the addressed bits to those of the value and leaves every other bit of the buffer alone |
| Bits.GetAfterPut | src/EnkiNet/Networking/Packet.cpp:171-189 | bits stored are read back, cut to the number moved, from any buffer that agrees on them |
| Bits.DecodeEncodeLE | src/EnkiNet/Networking/Packet.hpp:182-196 | an arithmetic value copied out and in again is unchanged |
| PacketStream.HeaderRoundTrip | src/EnkiNet/Networking/Packet.cpp:33-43 | the header copied to the front of a packet is the one copied back |
| PacketStream.GuardGap | src/EnkiNet/Networking/Packet.cpp:153-169 | a read passes the guard and still runs past the end exactly when it needs one byte more than there is; it succeeds exactly when it needs no more |
| PacketStream.GuardGapReached | src/EnkiNet/Networking/Packet.cpp:164-169 | it happens: up to eight bits read from a packet that holds its header only come from past its end |
| PacketClass.WriteRun | src/EnkiNet/Networking/Packet.cpp:84-100 | the inner loop of writeBits continues the transfer of bits to consecutive addresses |
| PacketClass.ReadRun | src/EnkiNet/Networking/Packet.cpp:171-189 | the inner loop of readBits continues the transfer of bits into the word |
| PacketClass.Packet.constructor | src/EnkiNet/Networking/Packet.cpp:21-31 | a new packet holds its header, both cursors behind it |
| PacketClass.Packet.FromBytes | src/EnkiNet/Networking/Packet.cpp:33-43 | a packet made of received bytes has their header and the whole of them written |
| PacketClass.Packet.WriteAcross | src/EnkiNet/Networking/Packet.cpp:116-140 | the three-branch loop ends, stays inside the resized buffer, and stores exactly the bits of the span at consecutive addresses, also when bits_left goes negative |
| PacketClass.Packet.WriteBits | src/EnkiNet/Networking/Packet.cpp:57-141 | the packet after writeBits, and when it throws |
| PacketClass.Packet.ReadAcross | src/EnkiNet/Networking/Packet.cpp:191-215 | the three-branch loop of readBits returns the bits of the span and ends behind them |
| PacketClass.Packet.ReadBits | src/EnkiNet/Networking/Packet.cpp:143-218 | the value and the packet after readBits, and when it throws |
| PacketClass.Packet.WriteCompressedFloat | src/EnkiNet/Networking/Packet.cpp:220-231 | the code of the value goes through writeBits, fits an int and never throws |
| PacketClass.Packet.ReadCompressedFloat | src/EnkiNet/Networking/Packet.cpp:233-244 | the code read is decoded |
| PacketClass.Packet.Serialize | src/EnkiNet/Networking/Packet.hpp:251-271 | the packet after serialize, padding doubled when it has to grow |
| PacketClass.Packet.Deserialize | src/EnkiNet/Networking/Packet.hpp:273-295 | the bytes read, the packet after it, and when it throws |
| PacketClass.Packet.WriteText | src/EnkiNet/Networking/Packet.cpp:307-312 | a string is its length and its characters |
| PacketClass.Packet.ReadText | src/EnkiNet/Networking/Packet.cpp:314-321 | the string read, the packet after it, and when it throws |
| PacketClass.Packet.WriteVector | src/EnkiNet/Networking/Packet.hpp:198-204 | a vector is its count and its elements; an empty one throws after the count |
| PacketClass.Packet.ReadVector | src/EnkiNet/Networking/Packet.hpp:206-214 | the elements read, the packet after it, and when it throws |
| PacketClass.Packet.ResetReadPosition | src/EnkiNet/Networking/Packet.cpp:246-250 | the reader is back behind the header, all else as it was |
| PacketClass.Packet.Clear | src/EnkiNet/Networking/Packet.cpp:252-260 | the buffer is empty while both cursors stand behind a header |
| PacketClass.Packet.SetHeader | src/EnkiNet/Networking/Packet.cpp:267-271 | header kept, and stamped on what there is of the buffer |
| Codec.FieldPreserves | src/EnkiNet/Networking/Packet.cpp:73-140 | no later write, growth of the buffer included, changes a bit written before it |
| Codec.CarriedExact | src/EnkiNet/Networking/Packet.cpp:119-126 | a bit transfer is exact for all ints at 32 bits and otherwise exactly for values that fit the bits really moved |
| Codec.OffsetRoundTrip | src/EnkiNet/Networking/Packet.cpp:57-218 | a reader in step with the writer, under any two offsets, finds the bits moved where its own offset says and zeros elsewhere, and stays in step, over-consumption included |
| Codec.OffsetExact | src/EnkiNet/Networking/Packet.cpp:86-99 | under one offset a value is delivered exactly if all its bits are among those moved |
| Codec.SerializeRoundTrip | src/EnkiNet/Networking/Packet.hpp:251-295 | deserialize inverts serialize and stays in step |
| Codec.FieldRoundTrip | src/EnkiNet/Networking/Packet.hpp:182-214 | every kind of field is delivered, writer and reader in step |
| Codec.VectorRoundTrip | src/EnkiNet/Networking/Packet.hpp:198-214 | a vector that is not empty is read back, count and elements, reader and writer in step |
| Codec.DoneExactly | src/EnkiNet/Networking/Packet.hpp:257-261 | writing a list throws exactly if there is an empty vector in it |
| Codec.ListReceived | src/EnkiNet/Networking/Packet.cpp:57-321 | whatever list can be written, no read of it throws, each value arrives cut to the bits moved where it was written, and the reader ends where the writer did |
| Codec.DeliveredExactly | src/EnkiNet/Networking/Packet.cpp:119-126 | a list arrives unchanged if and only if every value fits the bits really moved at its cursor |
| Codec.RoundTrip | src/EnkiNet/Networking/Packet.cpp:57-321 | any list of fields that fit the bits asked for is read back from any buffer that holds the bits written for it; nothing throws and the reader ends where the writer did |
| Codec.RoundTripInPlace | src/EnkiNet/Networking/Packet.cpp:57-250 | the same in one packet, whatever was written before |
| Codec.ReceivedInPlace | src/EnkiNet/Networking/Packet.cpp:57-250 | the same for any list that can be written, each value as received where it was written |
| Codec.QuantisedNear | src/EnkiNet/Networking/Packet.cpp:220-244 | of a list that fits, each quantised value is read within half a step, at most half the resolution, of its clamped source |
| Codec.QuantisedExactly | src/EnkiNet/Networking/Packet.cpp:220-244 | a quantised value arrives as its nearest code exactly when the code fits the bits moved |
| Codec.TopOfRangeLost | src/EnkiNet/Networking/Packet.cpp:224-230 | with a power of two of steps, from a byte boundary, the maximum arrives as the minimum |
| Codec.CanDeserializeExactly | src/EnkiNet/Networking/Packet.hpp:297-311 | canDeserialize is true exactly when reading those types does not throw |
| Fields.PutFields | src/EnkiNet/Networking/Packet.hpp:134-148 | a chain of writes on the object is the list written, up to the first that throws |
| Fields.TakeFields | src/EnkiNet/Networking/Packet.hpp:134-151 | a chain of reads on the object is the list read |
| Fields.RoundTripInObject | src/EnkiNet/Networking/Packet.cpp:57-321 | on the object: a list throws exactly if it holds an empty vector; otherwise, rewound, each value is read as received where it was written, cursors equal, and all unchanged if and only if all fit |
| Quantise.TopCodeFits | src/EnkiNet/Networking/Packet.cpp:224-225 | the largest code fits the chosen width exactly when the number of steps is no power of two |
| Quantise.CodeRange | src/EnkiNet/Networking/Packet.cpp:227-228 | codes run from 0 to the number of steps |
| Quantise.DecodeNear | src/EnkiNet/Networking/Packet.cpp:220-244 | what is decoded is within half a step, at most half the resolution, of the clamped value |
| Quantise.EndpointsExact | src/EnkiNet/Networking/Packet.cpp:227-243 | both bounds are coded and decoded exactly |
| Quantise.CodeOfDecode | src/EnkiNet/Networking/Packet.cpp:220-244 | coding a decoded value gives the same code |
| Quantise.TieRoundsUp | src/EnkiNet/Networking/Packet.cpp:227-228 | a value half-way between two codes gets the upper one |
| Transport.AtMostOneStray | src/EnkiNet/Networking/Packet.cpp:119-125 | a packet sends at most one byte that is not in its vector, and none of its bits are used |
| Transport.SentAgrees | src/EnkiNet/Networking/ServerHost.cpp:97-107 | the bytes sent hold every bit written behind the header |
| Transport.HeaderArrives | src/EnkiNet/Networking/ClientStandard.cpp:83-93 | the receiver finds the header stamped when sending |
| Transport.TransportSurvival | src/EnkiNet/Networking/ServerHost.cpp:97-113 | whatever list can be written to a new or cleared packet, the receiver finds the header it was sent with and each value as received where it was written: all unchanged if and only if all fit the bits really moved |
| Transport.FaithfulSurvives | src/EnkiNet/Networking/ClientStandard.cpp:83-93 | in particular a list whose values fit the bits asked for arrives unchanged |
| Transport.SentExactly | src/EnkiNet/Networking/ServerHost.cpp:97-107 | as many bytes go out as the writer has begun, and they are the first of the buffer |
| Transport.SentWhole | src/EnkiNet/Networking/Packet.cpp:33-43 | a new packet sends its header only, and a received one all that was received |
| Transport.StampExact | src/EnkiNet/Networking/Packet.cpp:267-271 | stamping a header puts it on the front of the buffer, as far as that goes, and changes neither the rest nor any cursor |
| Transport.RelayExact | src/EnkiNet/Networking/ServerHost.cpp:158-171 | a packet received, stamped anew and sent on goes out as it came in but for the header |
| Transport.RelaySurvival | src/EnkiNet/Networking/ServerHost.cpp:158-171 | whatever list was written to a packet, the receiver of a relayed one reads just what the relay would have read |
| Transport.ClearedExact | src/EnkiNet/Networking/Packet.cpp:252-265 | a cleared packet keeps its header, nothing can be read from it, and isEmpty is false of it |
| Transport.ClearedLikeNew | src/EnkiNet/Networking/Packet.cpp:252-260 | whatever is written to a cleared packet arrives as from a new one |
| Transport.ClearedHeaderZero | src/EnkiNet/Networking/Packet.cpp:252-260 | but zeros stand where its header was, until one is stamped |
| Packing.PackingBound | src/EnkiNet/Networking/Packet.cpp:116-140 | k fields use their total width or up to six bits more for every other field, and exactly the total when no field is narrower than the free tail it starts in |
| Packing.PackingBoundTight | src/EnkiNet/Networking/Packet.cpp:116-140 | single bits from a byte boundary reach the bound |
| Packing.WriteAllPacks | src/EnkiNet/Networking/Packet.cpp:57-82 | writing the fields leaves the write cursor where the bound is about |
| Wire.LittleEndian | src/EnkiNet/Networking/Packet.hpp:182-196 | byte i of a number is its digit of weight 256 to the i |
| Wire.TwosComplement | src/EnkiNet/Entity.hpp:45-63 | the bits sent for a signed number are those of its two's complement |
| Wire.ListOnWire | src/EnkiNet/Networking/Packet.hpp:198-271 | raw values, strings and vectors stand in the buffer one behind the other, from the next whole byte on, strings and vectors behind their lengths; what was in front stays |
| Wire.InfoOnWire | src/EnkiNet/Entity.hpp:45-53 | the bytes of an entity info: ID, owner, type, name, parent |
| Wire.BitsOnWire | src/EnkiNet/Networking/Packet.cpp:57-140 | writeBits puts the bits of the value, lowest first, behind those written before, fills a byte it finds begun, leaves all other bits alone, and grows the vector no further than the bits asked for need |
| Wire.ByteOnWire | src/EnkiNet/Networking/Packet.cpp:84-100 | eight bits behind whole bytes are one more byte, the number modulo 256 |
| Wire.BitsOffWire | src/EnkiNet/Networking/Packet.cpp:143-218 | exactly when readBits throws or succeeds, which bits it then takes, and where it ends |
| Wire.GrowsByDoubling | src/EnkiNet/Networking/Packet.hpp:251-271 | serialize leaves the size of a vector that is large enough and else doubles what it needs |
| Wire.EmptyVectorLeavesCount | src/EnkiNet/Networking/Packet.hpp:198-214 | writing an empty vector throws with its count in the packet already, and reading that count throws again |
| Wire.ThrowsLeave | src/EnkiNet/Networking/Packet.hpp:273-295 | a read of bytes that throws leaves the packet as it was, but for a length it may have read |
| Wire.BitThrowsLeave | src/EnkiNet/Networking/Packet.cpp:57-70 | a read or write of bits that throws leaves the place it stands at |
| Messages.Int32RoundTrip | src/EnkiNet/Entity.hpp:45-63 | a signed ID is sent and read back |
| Messages.InfoRoundTrip | src/EnkiNet/Entity.hpp:45-63 | an entity info sent anywhere in a packet is decoded to itself |
| Messages.WriteInfo | src/EnkiNet/Entity.hpp:45-53 | the operator writes the five fields and does not throw |
| Messages.FillPacketReverses | src/EnkiNet/Networking/RPCManager.hpp:311-322 | the recursion writes the arguments from last to first |
| Messages.ArgumentsRoundTrip | src/EnkiNet/Networking/RPC.hpp:100-112 | read from the last parameter to the first, the arguments arrive in the order of the call |
| Messages.LeftToRightReverses | src/EnkiNet/Networking/RPC.hpp:105-111 | read from the first parameter to the last they arrive reversed |
| Messages.RpcRoundTrip | src/EnkiNet/Networking/RPCManager.hpp:232-255 | an entity RPC packet delivers info, name and all arguments |
| Messages.HeadOf | src/EnkiNet/Scenegraph.cpp:54-59 | the front of a message is read as if written alone, and the rest behind it |
| Messages.CreationRoundTrip | src/EnkiNet/Scenegraph.cpp:405-412 | a creation message delivers the info, and a spawn packet, however it came about, that reads just like the original |
| Messages.SpawnReads | src/EnkiNet/Networking/Packet.cpp:293-305 | a packet rebuilt from the whole buffer of another gives the same values, exceptions and cursors when read, and has its header if that is stamped |
| Messages.SpawnDelivers | src/EnkiNet/Networking/Packet.cpp:293-305 | in particular it delivers what was written to the other from its start |
| ServerSessions.StepKeepsInv | src/EnkiNet/Networking/ServerHost.cpp:14-95 | every step of transport, network thread and game thread keeps IDs conserved and sessions well formed |
| ServerSessions.IdsConserved | src/EnkiNet/Networking/ServerHost.cpp:182-197 | after any run every issued ID is in exactly one place: assigned, pending or free; the host's is never issued; as many are issued as were ever out at once |
| ServerSessions.EmittedSessions | src/EnkiNet/Networking/Server.cpp:17-29 | after any run the events emitted for an ID are sessions: an event is emitted in an open session exactly when it is no CONNECTED |
| ServerSessions.SessionsOrdered | src/EnkiNet/Networking/ServerHost.cpp:52-95 | the same for any sound trace |
| ServerSessions.RecycledIdIsQuiet | src/EnkiNet/Networking/ServerHost.cpp:26-34 | nothing of the last session of a free ID is left in any queue |
| SessionOrder.IdsInOrder | src/EnkiNet/Networking/ServerHost.cpp:182-197 | after any run the IDs given out for the first time are 2, 3, 4 and so on, and those given out again, followed by the free ones, are those whose DISCONNECTED has been emitted, in that order |
| SessionOrder.GivenInOrder | src/EnkiNet/Networking/ServerHost.cpp:182-197 | while nothing is emitted, whoever comes and goes, connecting peers get first the free IDs in order and then the next new ones |
| SessionOrder.EventsInOrder | src/EnkiNet/Networking/Server.cpp:17-29 | nothing that the peers do is lost, repeated or overtaken on its way through the two queues |
| SessionOrder.KeepsID | src/EnkiNet/Networking/ServerHost.cpp:14-24 | a peer keeps its ID while it is connected |
| SessionOrder.LearnsID | src/EnkiNet/Networking/ClientStandard.cpp:58-62 | a client knows its ID from its CLIENT_INITIALIZED on, and no sooner |
| SessionOrder.PeakIsMost | src/EnkiNet/Networking/ServerHost.cpp:182-197 | as many IDs are issued in a run as were ever out at once in it |
| ServerHostClass.ConsumeAllMoves | src/EnkiNet/Networking/ServerHost.cpp:92-94 | consuming moves all captured events to the queue in order and changes nothing else but the connected clients |
| ServerHostClass.EmitAllMoves | src/EnkiNet/Networking/Server.cpp:17-22 | draining emits the queue in order and frees exactly the IDs that left |
| ServerHostClass.AllConnected | src/EnkiNet/Networking/ServerHost.cpp:52-95 | with nothing left to consume, connected clients are exactly the peers |
| ServerHostClass.ServerHost.GetNextUID | src/EnkiNet/Networking/ServerHost.cpp:182-197 | the ID handed out and the allocator after it |
| ServerHostClass.ServerHost.ClientInit | src/EnkiNet/Networking/ServerHost.cpp:14-24 | the connecting step of the machine |
| ServerHostClass.ServerHost.PushPacket | src/EnkiNet/Networking/Server.cpp:25-29 | the packet is last in the queue |
| ServerHostClass.ServerHost.ProcessPackets | src/EnkiNet/Networking/ServerHost.cpp:52-95 | all captured events become queued packets; the invariant holds and all peers are connected |
| ServerHostClass.ServerHost.OnPacketReceived | src/EnkiNet/Networking/ServerHost.cpp:26-34 | the ID of a client that left is free |
| ServerHostClass.ServerHost.Update | src/EnkiNet/Networking/Server.cpp:5-23 | the whole queue is emitted in order, and the invariant holds |
| Signals.Signal.Connect | src/EnkiNet/Signals/Signal.hpp:39-49 | the new slot is last, under the next slot ID, and the connection stands for it |
| Signals.Signal.Disconnect | src/EnkiNet/Signals/Signal.hpp:82-107 | true exactly when the slot was there; then it alone is gone and the connection reset |
| Signals.Signal.EraseMatching | src/EnkiNet/Signals/Signal.hpp:94-104 | the pass erases the one match, though it resets the connection it compares with |
| Signals.Signal.Emit | src/EnkiNet/Signals/Signal.hpp:110-120 | the functions of all slots are called in order |
| Signals.Signal.Destroy | src/EnkiNet/Signals/Signal.hpp:122-133 | a signal that is gone has no slots, and connections to it count as expired |
| Signals.Connection.Disconnect | src/EnkiNet/Signals/Connection.cpp:13-22 | works exactly when the signal lives and has the slot |
| Signals.Connection.MoveAssign | src/EnkiNet/Signals/Connection.cpp:38-52 | nothing for the same connection; otherwise the old slot goes and the new one is taken over |
| SignalHistory.StepKeepsInv | src/EnkiNet/Signals/Signal.hpp:39-107 | over any number of signals, every step keeps the slots of each equal to those made and not disconnected, numbered in order, and connections within them |
| SignalHistory.EmitExact | src/EnkiNet/Signals/Signal.hpp:109-120 | after any history emit walks through exactly the slots connected to that signal and not disconnected, in order |
| SignalHistory.DisconnectOnce | src/EnkiNet/Signals/Connection.hpp:45-47 | disconnecting works exactly once, whichever copy is used and whenever |
| SignalHistory.UsableIsNotConnected | src/EnkiNet/Signals/Connection.cpp:8-11 | a connection that tests true is connected exactly when no copy has disconnected it |
| SignalHistory.CopyOutlivesSlot | src/EnkiNet/Signals/Connection.hpp:35-36 | a copy tests true after its slot is gone |
| SignalHistory.AssignFreshExact | src/EnkiNet/Signals/Connection.cpp:38-52 | making a connection, assigning it to a managed one and destroying the temporary comes to disconnecting the managed one, from whatever signal, and giving it the new slot |
| SignalHistory.OnlyLastStays | src/EnkiNet/Signals/Connection.cpp:38-52 | of fresh connections, of one signal or several, assigned one after another to a managed one only the last slot stays |
| SignalHistory.AssignTemporary | src/EnkiNet/Signals/Connection.cpp:33-52 | an assigned temporary's slot survives its destruction exactly when the two were different connections |
| SignalLifetimes.SlotsKept | src/EnkiNet/Signals/Connection.hpp:24-25 | a step that does not disconnect, assign, or destroy a managed connection or the signal leaves every slot in its place, and only connecting adds one |
| SignalLifetimes.SlotExact | src/EnkiNet/Signals/Connection.cpp:13-52 | exactly which slots a living signal has after any step |
| SignalLifetimes.StaysConnected | src/EnkiNet/Signals/Connection.cpp:33-52 | after any history of a living signal a slot is still there if and only if no connection that then stood for it was disconnected, destroyed as a managed one, or assigned another |
| SignalLifetimes.HandlesExact | src/EnkiNet/Signals/Connection.cpp:24-52 | what copies, moved and default-constructed connections stand for; destroying a plain one changes no other |
| SignalLifetimes.DestroyedExpires | src/EnkiNet/Signals/Signal.hpp:122-133 | once a signal is destroyed no connection to it is usable |
| Rpc.Cluster.SendPacketToOneClient | src/EnkiNet/Networking/ServerHost.cpp:97-113 | who executes what is sent to one client, the host's own included |
| Rpc.Cluster.SendPacketToAllExceptOneClient | src/EnkiNet/Networking/ServerHost.cpp:158-180 | who executes what is sent to all but one |
| Rpc.Cluster.Receive | src/EnkiNet/Scenegraph.cpp:214-241 | a peer executes an RPC exactly when its idea of the entity is the sender's |
| Rpc.Cluster.OnServerRpc | src/EnkiNet/Scenegraph.cpp:74-142 | the server's routing by type, owner and sender |
| Rpc.Cluster.Call | src/EnkiNet/Networking/RPCManager.hpp:218-256 | a call sends, executes, or both |
| Rpc.RpcInfoDocumented | src/EnkiNet/Networking/RPCManager.cpp:52-97 | the caller executes exactly when it is documented to, and sends whenever anybody else is |
| Rpc.RoutedCount | src/EnkiNet/Scenegraph.cpp:80-141 | of the other peers exactly the documented ones that share the entity execute it, once |
| Rpc.DeliveryExact | src/EnkiNet/Networking/RPC.hpp:11-39 | for networked entities, whatever the scenes hold, how often each peer executes an RPC: once or not at all, and exactly when |
| Rpc.LocalDeliveryExact | src/EnkiNet/Networking/RPCManager.hpp:232-255 | the same for local entities, which every peer owns: what the caller executes, and what the server still routes |
| Rpc.DeliveryAsDocumented | src/EnkiNet/Networking/RPC.hpp:11-39 | with the entity shared by all, exactly the documented peers, each once |
| RpcRuns.AllAgree | src/EnkiNet/Scenegraph.cpp:172-256 | after a run that was clean for every client, with nothing on its way, all peers agree about every live networked entity of the host's |
| RpcRuns.DeliveryInRuns | src/EnkiNet/Networking/RPC.hpp:11-39 | so an RPC on such an entity is executed by exactly the documented peers, each once |
| SceneTree.CreateBuilds | src/EnkiNet/Scenegraph.cpp:365-428 | creating an entity unfolds the whole tree of its type, under a chosen ID or the next one, the rest numbered in pre-order from the next ID, announced in post-order, all of one owner |
| SceneTree.PreOrderCounts | src/EnkiNet/Scenegraph.cpp:381-389 | in pre-order the IDs of any subtree are consecutive from its root's |
| SceneTree.OrdersPermute | src/EnkiNet/Scenegraph.cpp:386-412 | the announcement holds every node exactly once |
| SceneTree.TreeAnnounces | src/EnkiNet/Scenegraph.cpp:386-412 | IDs are distinct and an interval, parents have smaller IDs and are announced after all their children |
| Termination.EndsExactly | src/EnkiNet/Scenegraph.cpp:365-389 | creating an entity ends if and only if it is not created at all, or its type does not reach, through children that are created, a type that is its own descendant |
| Termination.NeverEnds | src/EnkiNet/Scenegraph.cpp:386-389 | otherwise there is for every n a chain of n calls nested in one another |
| Termination.RunIsCreate | src/EnkiNet/Scenegraph.cpp:365-428 | under a rank, running the calls to a sufficient depth gives what Create says |
| Termination.CoveredExactly | src/EnkiNet/Scenegraph.hpp:162-187 | every graph of child types has a rank that covers exactly the creations that end |
| Termination.SelfChild | src/EnkiNet/Scenegraph.cpp:369-389 | a type registered as its own child ends exactly if that child has no name |
| ScenegraphClass.Scenegraph.RegisterEntityChildren | src/EnkiNet/Scenegraph.hpp:162-187 | the children are kept exactly when there are any and all their types are registered |
| ScenegraphClass.Scenegraph.CreateEntity | src/EnkiNet/Scenegraph.cpp:339-363 | when it fails, and the new entity with the ID it got |
| ScenegraphClass.Scenegraph.OnClientPacket | src/EnkiNet/Scenegraph.cpp:172-185 | what any message does to a client: what cannot be created is ignored, what has no ID becomes local; and when the source follows a null pointer |
| ScenegraphClass.Scenegraph.CreateNetworkedEntity | src/EnkiNet/Scenegraph.cpp:365-428 | what is announced, in which order, the IDs used, and the host's scene after it |
| ScenegraphClass.Scenegraph.CreateEach | src/EnkiNet/Scenegraph.cpp:386-389 | the loop over the child types announces their trees one after another |
| ScenegraphClass.Scenegraph.DeleteEntity | src/EnkiNet/Scenegraph.cpp:468-488 | local entities are marked, networked ones deleted by broadcast |
| ScenegraphClass.Scenegraph.Update | src/EnkiNet/Scenegraph.cpp:290-312 | exactly the marked and the orphans go, deletions are broadcast for networked orphans, and the others are updated |
| ScenegraphClass.Scenegraph.SendAllNetworkedEntitiesToClient | src/EnkiNet/Scenegraph.cpp:430-456 | the snapshot is the whole map from the highest ID down |
| ScenegraphClass.Scenegraph.OnCreationRequest | src/EnkiNet/Scenegraph.cpp:54-60 | the sender becomes the owner of what it asks for, which is created and broadcast |
| ScenegraphClass.Scenegraph.OnConnected | src/EnkiNet/Scenegraph.cpp:65-68 | the client that has connected is sent the snapshot |
| ScenegraphClass.Scenegraph.OnDeletionRequest | src/EnkiNet/Scenegraph.cpp:143-166 | a deletion is broadcast exactly if the entity exists and the sender owns it |
| Scenes.LiveHandlesAll | src/EnkiNet/Scenegraph.cpp:172-256 | the live networked entities after messages depend on those before only |
| Scenes.SweptAll | src/EnkiNet/Scenegraph.cpp:290-312 | marking orphans one by one and erasing the marked is what update is said to do |
| HostScenes.RefusedExact | src/EnkiNet/Scenegraph.cpp:365-379 | what has no name, no type or an unregistered one leaves the host as it was, IDs included; a creation is announced exactly if it is valid and networking enabled |
| HostScenes.RefusedChild | src/EnkiNet/Scenegraph.cpp:386-389 | a child type that cannot be created uses up no ID |
| HostScenes.OwnerNamed | src/EnkiNet/Scenegraph.cpp:391-401 | everything announced belongs to the one named, or to the host's client, whose ID is 1 |
| HostScenes.NotReadySilent | src/EnkiNet/Scenegraph.cpp:403-427 | before networking is enabled nothing is sent and no networked entity comes, goes or changes, but marked ones are erased |
| HostScenes.ArriveExact | src/EnkiNet/Scenegraph.cpp:172-256 | the whole state of a client after any message, told by what is in its scene before and after |
| HostScenes.DeletionsAscend | src/EnkiNet/Scenegraph.cpp:292-306 | an update broadcasts deletions in the order of the IDs |
| HostScenes.DeleteErases | src/EnkiNet/Scenegraph.cpp:468-488 | what is deleted or marks itself is gone after the next update, and all else is as it would be without that |
| HostScenes.RequestErases | src/EnkiNet/Scenegraph.cpp:143-166 | the same for a deletion its owner asks for, and nothing at all for one anybody else does |
| OrphanCascade.AfterUpdates | src/EnkiNet/Scenegraph.cpp:290-312 | exactly what is left after k updates, unchanged |
| OrphanCascade.SettledIsClosed | src/EnkiNet/Scenegraph.cpp:294-311 | an update changes nothing exactly when all are unmarked and no one's parent is missing |
| OrphanCascade.SettledIsLargest | src/EnkiNet/Scenegraph.cpp:290-312 | where updates stop is the largest parent-closed set of unmarked entities |
| OrphanCascade.Fixpoint | src/EnkiNet/Scenegraph.cpp:290-312 | as many updates as there are entities reach it, from any scene |
| OrphanCascade.HeightBound | src/EnkiNet/Scenegraph.cpp:290-312 | height plus one updates reach it in a forest |
| OrphanCascade.GoesExactlyAt | src/EnkiNet/Scenegraph.cpp:296-305 | an entity n levels below its nearest marked ancestor goes in update n + 1 |
| OrphanCascade.OneUpdate | src/EnkiNet/Scenegraph.cpp:292-306 | one deletion is broadcast for each networked orphan, none for others, and no entity whose parent is absent is updated |
| OrphanCascade.UpdatedExact | src/EnkiNet/Scenegraph.cpp:292-300 | entities are updated in order of their IDs, each once |
| Replication.HostStepLive | src/EnkiNet/Scenegraph.cpp:290-488 | apart from silent changes the host's live networked entities change exactly as its broadcasts say |
| Replication.SnapshotLive | src/EnkiNet/Scenegraph.cpp:430-456 | a snapshot puts all the host's networked entities over whatever a client will have had before |
| Replication.SnapshotScene | src/EnkiNet/Scenegraph.cpp:180-185 | after a snapshot a client's entity is the host's, unmarked, exactly if the host has one under its ID, local ones included; all others are untouched |
| Replication.SnapshotExact | src/EnkiNet/Scenegraph.cpp:65-68 | a snapshot leaves differing exactly the networked entities that were marked, and those that only the client had |
| Replication.StepExact | src/EnkiNet/Scenegraph.cpp:242-256 | in any other step an ID differs between client and host exactly if it did and is not mentioned, unless one side changes it silently |
| Replication.MarkExact | src/EnkiNet/Entity.hpp:128-130 | an entity that marks itself at the host differs exactly for the clients that will have it; at a client exactly if the host has it and no message on its way hides it |
| Replication.LocalExact | src/EnkiNet/Scenegraph.cpp:339-363 | createEntity under a networked ID tells nobody: it differs exactly where the other side has not just that entity |
| Replication.RunExact | src/EnkiNet/Scenegraph.cpp:242-256 | over any run, from any state, an ID not changed silently differs in the end exactly if it did and has not been mentioned since |
| Replication.DiffersExact | src/EnkiNet/Scenegraph.cpp:430-456 | after a snapshot and any run, an ID not changed silently differs if and only if the snapshot missed it and it has not been mentioned since |
| Replication.RunConverges | src/EnkiNet/Scenegraph.cpp:172-256 | from any state a client has converged in the end if and only if all that differed has been mentioned |
| Replication.ConvergenceExact | src/EnkiNet/Scenegraph.cpp:430-456 | a client converges if and only if all the snapshot missed has been mentioned since |
| Replication.LateJoinersConverge | src/EnkiNet/Scenegraph.cpp:65-68 | after every run that was clean for it, a client whose CONNECTED was handled ends with exactly the host's live networked entities |
| Replication.MarkedAtSnapshot | src/EnkiNet/Scenegraph.cpp:434-453 | a run in which a client does not converge |
| Replication.SelfMarkDiverges | src/EnkiNet/Entity.hpp:128-130 | from any state, an entity that marks itself at the host is gone there after an update and stays with its clients |
| Replication.LocalOverwritten | src/EnkiNet/Scenegraph.cpp:434-453 | a run in which a client's own local entity is overwritten by the host's |
| ClientScenes.ClientUpdateExact | src/EnkiNet/Scenegraph.cpp:290-312 | a client's update erases exactly what is marked and its local orphans, and changes nothing else anywhere |
| ClientScenes.DeliverExact | src/EnkiNet/Scenegraph.cpp:172-256 | what the next message does to the client it reaches: one entity put there unmarked, or marked if it is there |
| ClientScenes.HostStepReaches | src/EnkiNet/Networking/ServerHost.cpp:158-180 | whatever the host does changes no client's scene, and puts what is broadcast behind what is on its way to each |
| ClientScenes.MarkErases | src/EnkiNet/Entity.hpp:128-130 | an entity marked at a client is gone after its next update |
| ClientScenes.CatchesUp | src/EnkiNet/Scenegraph.cpp:290-312 | from any state, once all on its way has arrived and it has updated, a client has just the networked entities it was bound to have, and none that is marked |
| ClientScenes.CleanRunsCatchUp | src/EnkiNet/Scenegraph.cpp:172-256 | after every run that was clean for it, a client that catches up has in its whole networked scene exactly the host's live entities |
| ClientScenes.CaughtUpExact | src/EnkiNet/Scenegraph.cpp:172-256 | from any state, it has exactly those if and only if it converges |
| History.StepKeepsInv | src/EnkiNet/Scenegraph.cpp:290-488 | every step, whatever it names, keeps the explanation of every entity, every missing parent and every loss |
| History.StepExplained | src/EnkiNet/Scenegraph.cpp:290-488 | what any step of the host can do to any ID: create it, ask for its deletion, or, in an update, lose it marked or orphaned |
| History.Reachable | src/EnkiNet/Scenegraph.cpp:290-488 | in every reachable state each entity is as last created, a missing parent was missing when named or was lost for a cause, and whatever was created lives or was lost for a cause |
| History.DeletionsBroadcast | src/EnkiNet/Scenegraph.cpp:143-166 | exactly which deletions each step broadcasts |
| History.DeletionAuthority | src/EnkiNet/Scenegraph.cpp:143-166 | after any run, a deletion broadcast was called for on the host or asked by the owner, or is of an orphan from which a chain of parents leads to one so deleted, to one that marked itself, or to one created without its parent |
| History.DeletionAsked | src/EnkiNet/Scenegraph.cpp:296-305 | if every creation named a parent that was there, every deletion broadcast was asked for or goes back to one that was (called for, requested by the owner, or an entity marking itself), and nothing else explains it |
| History.DeletionUnasked | src/EnkiNet/Scenegraph.cpp:296-305 | otherwise, if the parent named has never been, the next update deletes the entity and no cause of that ends in anybody asking |
| History.MessagesHandled | src/EnkiNet/Scenegraph.cpp:172-256 | whatever is on its way to a client with the host's types it can create, and its handlers do just what Handle says |
| Ordering.CreationChildrenFirst | src/EnkiNet/Entity.hpp:79-81 | a creation announces every entity before its parent if and only if its ID is none of those issued for its children and it names neither itself nor one of them as its parent |
| Ordering.CreationOrderExact | src/EnkiNet/Scenegraph.cpp:381-389 | a creation keeps all parents' IDs smaller if and only if its ID is above its parent's and, if chosen and followed by children, not above the next free one |
| Ordering.StepOrderExact | src/EnkiNet/Scenegraph.cpp:365-428 | the same for every step of the host |
| Ordering.SnapshotChildrenFirst | src/EnkiNet/Scenegraph.cpp:434-453 | a snapshot sends networked entities before their parents if and only if those parents that are there have smaller IDs |
| Ordering.OrderedSnapshots | src/EnkiNet/Scenegraph.cpp:434-453 | after every run of creations that keep the order, snapshots send children first |
| Ownership.RequesterOwns | src/EnkiNet/Scenegraph.cpp:54-60 | all that is created on a client's request, children included, is owned by that client |
| Ownership.StepOwnersExact | src/EnkiNet/Scenegraph.cpp:391-401 | every networked entity keeps an owner if and only if the step is not a createEntity under a networked ID without one |
| Ownership.RunKeepsOwners | src/EnkiNet/Scenegraph.cpp:391-401 | after every run without such a step every networked entity of the host's has an owner |
| Ownership.ReplacementExact | src/EnkiNet/Scenegraph.cpp:381-384 | a creation replaces an entity if and only if its chosen ID is taken, or one of those it is issued is, and that was chosen in an earlier step |
| Ownership.RequesterTakesOver | src/EnkiNet/Scenegraph.cpp:54-60 | a client that chooses the ID of an entity replaces it and owns what it put there |
| Ownership.UnaskedDeletion | src/EnkiNet/Scenegraph.cpp:296-305 | a request whose parent does not exist: the entity is deleted though nobody asked |
| Ownership.ParentSentFirst | src/EnkiNet/Scenegraph.cpp:381-384 | a request for an ID below its parent's: the snapshot sends the parent first |
| Ownership.OwnerOusted | src/EnkiNet/Scenegraph.cpp:54-60 | a request for the ID of another's entity: it changes owner |
| LocalIDs.LocalPutInto | src/EnkiNet/Scenegraph.cpp:353-363 | a local entity gets the next local ID, which is then used up; all else stays |
| LocalIDs.RunKeepsLocals | src/EnkiNet/Scenegraph.cpp:353-356 | in every run the n-th local entity gets the ID -n, and what is there under one still to come was chosen in an earlier step |
| LocalIDs.LocalIDsFall | src/EnkiNet/Scenegraph.cpp:353-356 | no two local entities of a run get the same ID |
| LocalIDs.LocalReplacementExact | src/EnkiNet/Scenegraph.cpp:353-363 | after any run a new local entity is put under -n, adds one entity or replaces one exactly if that ID is taken, which then an earlier step chose, and all others stay |
| LocalIDs.LocalsKeepApart | src/EnkiNet/Scenegraph.cpp:353-356 | from any state, n local entities get n IDs in a row and are all there in the end |
| Mastership.StepKeepsOwner | src/EnkiNet/Entity.hpp:104-120 | every step that names one owner for an ID keeps that owner in every copy, and in everything on its way |
| Mastership.OneMaster | src/EnkiNet/Entity.hpp:104-120 | if a networked entity is only ever created, brought or made for one owner, at most one connected peer answers isOwner, each from its own copy, and it is that owner |
| Mastership.OwnerClaims | src/EnkiNet/Networking/ClientStandard.cpp:58-62 | an owner that has converged and been told its ID answers isOwner |
| Mastership.ReplacementSplits | src/EnkiNet/Scenegraph.cpp:54-60 | whoever asks for the ID of an entity makes a second master, from any state: the requester by its copy, and the old owner by its own until the creation arrives there |
| Mastership.TwoMasters | src/EnkiNet/Scenegraph.cpp:54-60 | a run after which two connected clients answer isOwner for the same entity |

## Left out

- Sockets, threads, mutexes and timers: channels are reliable and in order, steps are atomic, timestamps arbitrary values.
- IEEE rounding and the floating-point logarithm of compressed floats: the arithmetic is over the reals, the width an integer logarithm.
- Byte order and sizes of the platform: numbers are little-endian, `std::size_t` has 64 bits, `PacketHeader` has three bytes of padding.
- Failed allocations, and wrap-around of cursors, slot counters, client IDs and entity IDs.
- `std::array` operators: `operator>>` reads as many bytes as there are elements, which is not what was written for elements of more than one byte.
- Bit offsets that would shift past bit 31, negative widths and offsets, and received packets shorter than a header: the source leaves them undefined or unchecked.
- PacketClass.Packet.ReadBits: not for reads that pass the guard and run past the buffer, whose result C++ leaves undefined; GuardGap says which those are.
- PacketClass.Packet.Clear: the copy of the header into the emptied vector is not visible in the model, because it is outside the vector.
- ScenegraphClass.Scenegraph.RegisterEntityChildren: the source goes on iterating over a vector it has just emptied; the model stops there.
- ScenegraphClass.Scenegraph.CreateNetworkedEntity: the host's branch only; on a pure client children are expanded with the ID 0 of their parent, and that is not modelled. Creations that do not end have no result to state; Termination says which those are.
- ScenegraphClass.Scenegraph.Update: entity callbacks do nothing but be counted; callbacks that create or delete entities are not modelled.
- ScenegraphClass.Scenegraph.SendAllNetworkedEntitiesToClient: the payload of serializeOnConnection is not modelled.
- Replication.LateJoinersConverge: client and host have the same types registered, and networking enabled when messages arrive.
- Peers without a client, as on a dedicated server, which own the entities of nobody.
- Data packets of type DISCONNECTED forged by a client, the packetsReceived statistics, and the standard server, which repeats the host's allocator and routing without a client of its own.
- Connecting to or disconnecting from a signal while it emits, and the empty function, for which connect throws.
- Global and class RPCs, callUnsafe, and their catch-all handlers: the same encoding without routing.
- Entity updates on network ticks: relayed to all but the sender, with payloads the entities define.
- Drawing, input, logging, NetworkManager start and stop, and the find functions.
