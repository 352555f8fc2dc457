# Verification of adb-go

Models of the parts of adb-go whose correctness cannot be seen from one function, with proofs
in Dafny. `dafny verify dfyconfig.toml` checks everything.

## What is modelled

**Messages and the wire** (`Bytes`, `Framing`, `Transport`, `SharedWire`). The ADB message
format as a bijection between message lists and byte strings; the loops that read and write
messages over a transport whose reads and writes may all be short; and any number of goroutines
calling `writeMessage` on one connection, where a step takes the lock, writes one piece, or
releases the lock.

**Streams** (`Streams`, `Multiplexer`, `ReaderCrash`, `StreamHistory`, `RemoteIdentity`,
`UndisturbedSteps`). `Streams` holds the `Stream` and
`Connection` objects, each method proved against a function on the stream's fields.
`Multiplexer` is the concurrent system: one reader goroutine and any number of goroutines that
open, read and close streams. A step is one critical section, one channel operation or one
transport read, and every list of steps is a run. `dataCh` is a bounded queue. A send on a
channel that has been closed is an explicit crashed outcome; `ReaderCrash` says when it happens.
`StreamHistory` is about the order of events over a run: when reads end and why, and whether the
open result comes before the close. `RemoteIdentity` says which remote ID a stream has and which
open result it has sent once it is closed. `UndisturbedSteps` ties the steps to the methods: run
without interference, the steps of a message, a close or a read do what the method does.

**Handshake** (`Handshake`). The AUTH exchange against any peer.

**Server registries** (`EndpointTable`, `ForwardRegistry`, `ForwardInterleavings`,
`ReverseRegistry`, `ReverseInterleavings`). Each registry is given twice: as an object with one
method per critical section, and as a transition system over all requests in flight, because
`create` releases the lock between its two critical sections. Both use the functions of
`EndpointTable`.

**Forwarding sessions** (`ForwardSession`, `ReverseSession`). The shutdown protocols: closed
flag, active set, wait group and snapshot-then-close, in every interleaving with bridges that
start, copy and end. The closers of connection number *n* are named by *n*; which of them have
been closed is part of the state.

**Parsers, printers and transfers** (`UsbDescriptors`, `SyncTransfer`, `PullOverStream`,
`Properties`, `ShellQuoting`). The one-pass USB descriptor scan against a two-stage specification; file push
and pull against a decoder on the device's side, and a pull over a multiplexed stream against
what the peer sent; the property listing against its parser; and
shell quoting against a POSIX lexer (sections 2.2 and 2.3 of the Shell Command Language).

**Public keys** (`Montgomery`, `Base64`, `PublicKey`). The Android RSA key: what its two
Montgomery constants make a device compute, and the round trip of the payload. Base64 is
section 4 of RFC 4648.

## What the proofs found

- A stream that is closed from outside while the reader handles a WRTE message for it makes the
  reader send on a closed channel, which is a panic (`protocol/stream.go:188`).
  `ReaderCrash.CrashIsReachable` gives the run, `Multiplexer.CrashCondition` the exact condition,
  and `ReaderCrash.NoCrashWithoutOutsideClose` shows that a peer alone cannot cause it.
- `Open` can return a closed stream without an error: a `Connection.Close` between the reader's
  lookup of an OKAY and its `establish` closes the stream, and the reader then sends nil first
  (`protocol/stream.go:177-202`). `StreamHistory.ClosedStreamOpens` gives the run;
  `OpenResultOrder` says exactly when nil is sent, and `NilMeansOpenedFirst` that without such a
  close it means what it should.
- A forward `create` whose listen fails is not always without effect: the entry it was to
  replace is already gone (`ForwardInterleavings.FailedCreateRemovesForward`).
  `FailedCreateIsNoOp` says exactly when it has none.
- The branch of forward `create` that finds its fresh endpoint taken would register a closed
  listener (`ConflictRegistersClosedListener`). While no two open listeners share an address the
  branch is unreachable (`RegistryAlwaysRight`).
- A degraded reverse never becomes listening again: the branch that would do so asks for an
  empty error text, and a registered degraded entry always has one
  (`ReverseInterleavings.DegradedForGood`).
- After `Reverse.Close` the bridge count can be too low, because `removeBridge` also counts down
  for a bridge that `addBridge` turned away (`ReverseSession.CountMayFallBehind`). It is the
  number of registered bridges less those late removals, never below zero (`CountExactly`), so it
  is right exactly while there has been none or no registered bridge is left
  (`CountRightExactly`); before Close there is none.
- A message cut just behind its header is reported as a plain end of file, like one cut before
  its first byte (`Framing.ProperPrefixFails`).
- The descriptor scan indexes out of range on a descriptor of length one, and only then
  (`UsbDescriptors.PanicsExactly`).

## Model

| member | source | states |
|---|---|---|
| Bytes.Le32RoundTrip | protocol/message.go:99-104 | a 32-bit word survives being written and read as little-endian bytes |
| Bytes.FromLe32RoundTrip | protocol/message.go:69-74 | four bytes survive being read and written as a 32-bit word |
| Bytes.Le32Layout | protocol/message.go:99-104 | a word is its four bytes with the lowest first |
| Framing.DecodeOfEncode | protocol/message.go:63-110 | reading a written message gives it back and leaves the rest of the input untouched, exactly when the payload is shorter than 2^32 bytes |
| Framing.AcceptedIsEncoding | protocol/message.go:63-94 | whatever ReadMessage accepts is byte for byte what WriteMessage emits for the result |
| Framing.ProperPrefixFails | protocol/message.go:63-94 | every proper prefix of a message is rejected, with a plain end of file exactly before the first byte and right behind the header |
| Framing.DecodeAllOfEncodeAll | protocol/message.go:63-110 | a written list of messages is read back whole, whatever bytes follow |
| Framing.DecodeAllIsEncoding | protocol/message.go:63-110 | the messages read from any input re-encode to exactly the bytes consumed, and reading stopped at a failing message |
| Framing.EncodeAllInjective | protocol/message.go:97-110 | two different message lists never share an encoding |
| Framing.MessageLayout | protocol/message.go:97-110 | an encoded message is command, arg0, arg1, length modulo 2^32, checksum and magic, four bytes each, and the payload |
| Framing.ChecksumOfParts | protocol/message.go:49-55 | the checksum of a payload is the sum of the checksums of its parts modulo 2^32 |
| Framing.ChecksumOfByte | protocol/message.go:49-55 | the checksum of one byte is the byte, and that of none is zero |
| Framing.MagicReversesBits | protocol/message.go:58-60 | each byte of the magic word is the complement of the command's |
| Framing.CommandsAreNames | protocol/message.go:97-110 | on the wire the six commands are their names in ASCII |
| Transport.WriteFull | protocol/message.go:112-124 | with any short writes, success means everything went out in order and failure that a prefix did; a write without progress is reported |
| Transport.ReadFull | protocol/message.go:63-84 | with any short reads, exactly n bytes are consumed on success, and the two kinds of end of file are told apart |
| Transport.ComputeChecksum | protocol/message.go:49-55 | the wrapping loop computes the byte sum modulo 2^32 |
| Transport.PutUint32 | protocol/message.go:99-104 | exactly four header bytes change, to the word's little-endian form |
| Transport.WriteMessage | protocol/message.go:97-110 | success emits exactly one encoded message, failure a prefix of one |
| Transport.ReadMessage | protocol/message.go:63-94 | unless the transport breaks, result and remaining input are those of the decoder, however the input is cut into reads |
| SharedWire.WireAlwaysDecodes | protocol/stream.go:204-208 | for any number of writers, interleavings, short writes and failures, the wire decodes to the completed messages, a merge that keeps each writer's order; every completed message belongs to a writer; outside a locked write and before a failure the wire decodes to nothing else |
| SharedWire.AllSent | protocol/stream.go:204-208 | when all calls have returned without failing, every writer's messages are on the wire, each once and in order |
| SharedWire.WriteAlone | protocol/stream.go:204-208 | an undisturbed call puts its message on the wire, whole, and releases the lock |
| Streams.EstablishedMeaning | protocol/stream.go:177-184 | establishing gives a stream without remote ID the peer's, keeps any other, and sends nil when no open result was sent; nothing else changes |
| Streams.ClosedMeaning | protocol/stream.go:191-202 | closing an open stream leaves the error and sends it when no open result was sent; a closed one is unchanged |
| Streams.EstablishedWrites | protocol/stream.go:145-184 | a stream that is opened and established by the peer writes WRTE messages to the ID the peer named; before that and after a close it writes none |
| Streams.NulIsTrimmed | protocol/stream.go:42-53 | a handler registered for a name is found by an OPEN of the name with its NUL |
| Streams.Stream.SendOpenResult | protocol/stream.go:183-183 | the open result is sent once; later results are dropped |
| Streams.Stream.Establish | protocol/stream.go:177-184 | a zero remote ID becomes the peer's and a nonzero one is never overwritten; the open result nil is sent if none was |
| Streams.Stream.Receive | protocol/stream.go:186-189 | a payload is queued last; on a closed stream the send panics and on a full queue it waits |
| Streams.Stream.CloseWithError | protocol/stream.go:191-202 | only the first close sets the error, and a stream that never opened gets that error as its open result |
| Streams.Stream.Read | protocol/stream.go:105-142 | data comes from the front of the unread bytes as long as there are any; an end is reported only when none are left and the stream is closed |
| Streams.Stream.Write | protocol/stream.go:145-162 | refused exactly on a closed or unestablished stream; otherwise one WRTE message of the whole slice, or a prefix of one when the transport fails |
| Streams.Connection.HandleOpen | protocol/stream.go:41-57 | a handler is stored for the service without its trailing NUL and the reader is started, whose earlier failure is reported; a nil handler removes the service |
| Streams.Connection.StartReader | protocol/stream.go:210-222 | the reader is started once, and its failure is reported to later callers |
| Streams.Connection.RemoveOpenHandler | protocol/stream.go:60-65 | the service is no longer registered, whether or not it was named with its NUL |
| Streams.Connection.NewStreamLocked | protocol/stream.go:306-320 | the next local ID, wrapping at 2^32, names a fresh open stream in the map |
| Streams.Connection.NewAcceptedStream | protocol/stream.go:298-304 | an accepted stream has its open result nil already sent |
| Streams.Connection.RemoveStream | protocol/stream.go:328-332 | the ID leaves the map and no stream changes |
| Streams.Connection.CloseStream | protocol/stream.go:334-342 | the stream is taken out of the map and closed; a second close of the ID finds nothing |
| Streams.Connection.CloseAllStreams | protocol/stream.go:344-352 | the map ends up empty and every stream that was in it is closed with the error |
| Streams.Connection.Close | protocol/stream.go:165-175 | CLSE goes out exactly from an open established stream; whatever stream is stored under the ID is closed and leaves the map |
| Streams.Connection.HandleStreamMessage | protocol/stream.go:238-268 | only the stream named by arg1 changes: OKAY and WRTE establish it, WRTE is acknowledged and queued, CLSE closes it with the error and open result that belong to its remote ID; an unknown ID has no effect |
| Streams.Connection.HandlePeerOpen | protocol/stream.go:270-284 | without a handler the peer gets CLSE and nothing is created; with one the accepted stream is acknowledged, and after a failed acknowledgement the stream is out of the map and closed with the error |
| Multiplexer.Always | protocol/stream.go:105-352 | every step of every interleaving keeps the invariant of the multiplexer |
| Multiplexer.ReadsFollowThePeer | protocol/stream.go:105-142 | returned bytes, buffer, the chunk Read holds and the queue make up the accepted bytes, and these are a prefix of what the peer sent to that local ID since the stream exists |
| Multiplexer.NothingLostWhileOpen | protocol/stream.go:238-256 | while the stream is in the map and no message for it is being handled, nothing sent to it is missing |
| Multiplexer.ClosedAtMostOnce | protocol/stream.go:306-352 | each stream's closeWithError takes effect and is called at most once, and every stream in the map is open and stored under its own ID |
| Multiplexer.OpenResultSentOnce | protocol/stream.go:177-202 | openCh gets at most one value over any run, nil exactly when the reader or an acceptance sent it rather than a closer; local IDs are distinct and nonzero over the first 2^32-1 streams |
| Multiplexer.IdentityIsStable | protocol/stream.go:177-184 | over any run a stream keeps its local ID, a nonzero remote ID and being closed |
| Multiplexer.CrashCondition | protocol/stream.go:186-189 | the reader crashes in exactly the states where it delivers to a stream that is already closed, and then a local close or shutdown closed it |
| ReaderCrash.NoCrashWithoutOutsideClose | protocol/stream.go:238-268 | without calls of Stream.Close or Connection.Close the reader never crashes, whatever the peer sends |
| ReaderCrash.CrashIsReachable | protocol/stream.go:186-202 | one WRTE message and one Close between its lookup and its delivery crash the reader |
| StreamHistory.AlwaysRefused | protocol/stream.go:256-267 | a CLSE is taken as a refusal only on a stream that has no remote ID and never gets one |
| StreamHistory.EndsAfterDraining | protocol/stream.go:105-142 | an end is reported only after every accepted byte, then repeats forever, and is io.EOF exactly when the close that came first was a peer's CLSE on a stream with a nonzero remote ID |
| StreamHistory.OpenResultOrder | protocol/stream.go:177-202 | the open result is nil exactly when establishment or acceptance precedes closing, or when an outside close marked the stream between the reader's lookup and its openOnce and the reader's openOnce ran first; never both |
| StreamHistory.NilMeansOpenedFirst | protocol/stream.go:177-202 | without a Stream.Close or Connection.Close it is nil exactly when establishment or acceptance precedes closing |
| StreamHistory.ClosedStreamOpens | protocol/stream.go:91-96 | for every OKAY to the first stream, a run in which the connection is closed after the lookup and Open is then given nil for a closed stream |
| RemoteIdentity.RemoteIDIsFirst | protocol/stream.go:177-182 | in every run a stream's remote ID is the first nonzero one of the ID in the OPEN it was accepted for and the sender IDs of the OKAY and WRTE messages it was looked up for |
| RemoteIdentity.RemoteIDInWords | protocol/stream.go:177-182 | so an accepted stream keeps its OPEN's ID, and one a caller opened has the first nonzero sender ID, and has one as soon as there is one |
| RemoteIdentity.FirstNonzeroIsFirst | protocol/stream.go:179-181 | first means that all before it are zero |
| RemoteIdentity.AlwaysClosedSent | protocol/stream.go:191-202 | in every run a closed stream without a close call in progress has its open result |
| RemoteIdentity.ClosedHasResult | protocol/stream.go:91-96 | that is exactly one value: nil when it came first or late, and otherwise closed pipe for a caller's close and device closed for a refusal or a shutdown; after a peer's CLSE on an established stream it is nil |
| RemoteIdentity.CloseStepsAlone | protocol/stream.go:191-202 | undisturbed, the two steps of a close leave the stream that closeWithError leaves |
| UndisturbedSteps.MessageAlone | protocol/stream.go:244-255 | undisturbed, the reader's steps on an OKAY or WRTE do what handleStreamMessage does |
| UndisturbedSteps.CloseMessageAlone | protocol/stream.go:256-267 | undisturbed, its steps on a CLSE take the stream out of the map and close it with the right error, and the reader goes on |
| UndisturbedSteps.StreamCloseAlone | protocol/stream.go:165-175 | undisturbed, the steps of Stream.Close take the stream out of the map and close it with io.ErrClosedPipe |
| UndisturbedSteps.OpenAlone | protocol/stream.go:278-320 | undisturbed, the reader's steps on an OPEN with a handler add an accepted stream under the next ID |
| UndisturbedSteps.UnhandledAlone | protocol/stream.go:244-276 | an OPEN without a handler and a message for a missing stream change no stream |
| UndisturbedSteps.RefusedAckAlone | protocol/stream.go:279-282 | undisturbed, a failed acknowledgement closes the accepted stream with its error and takes it out of the map |
| UndisturbedSteps.ShutdownAlone | protocol/stream.go:227-233 | a failed reader and a closed connection take every stream out of the map to be closed as shut down, and the failed reader stops |
| UndisturbedSteps.NewStreamAlone | protocol/stream.go:84-89 | a stream a caller opens gets the next ID without a remote one, and leaves the map when its OPEN cannot be sent |
| UndisturbedSteps.ReadAlone | protocol/stream.go:105-142 | from every state a Read alone returns data from the front, reports the end of a drained closed stream, or waits on an empty open one |
| Handshake.SignersBound | protocol/connection.go:147-162 | there are at most as many signers as credentials |
| Handshake.SignersAreSignable | protocol/connection.go:147-162 | the plan's signers are exactly the signable credentials in order |
| Handshake.FirstKeyIsFirst | protocol/connection.go:164-176 | the key offered is the first nonempty one, and none when there is none |
| Handshake.RepliesOnTheWire | protocol/connection.go:160-173 | a reply is an AUTH message of type 2 with the signature or 3 with the key |
| Handshake.Progress.NextAuthReply | protocol/connection.go:147-179 | the next signer answers, after the last one the first nonempty public key is offered once, then there is no reply; the number of possible replies goes down |
| Handshake.ReadResponses | protocol/connection.go:113-145 | against any peer the replies are a prefix of the fixed plan, at most one more than there are credentials, and the outcome is that of the first response that does not continue it |
| EndpointTable.InsertConsistent | internal/server/forward_registry.go:95-96 | registering a new ID and a new key keeps the two indexes inverse to each other |
| EndpointTable.RemoveConsistent | internal/server/forward_registry.go:169-170 | removing an entry from both indexes keeps them inverse and makes the table smaller by one |
| EndpointTable.SameSize | internal/server/forward_registry.go:16-21 | inverse indexes have the same size and name the same IDs |
| EndpointTable.IdsDiffer | internal/server/forward_registry.go:178-183 | different counter values give different IDs, and none is empty |
| EndpointTable.ActiveOfAny | internal/server/forward_registry.go:111-125 | the sum of active connections does not depend on the map's iteration order |
| EndpointTable.DiagnosticsAddUp | internal/server/forward_registry.go:111-125 | listening and degraded entries add up to the total |
| EndpointTable.CompletedTakesOver | internal/server/forward_registry.go:85-98 | a create that gets through holds its endpoint alone, its predecessor is gone and all others are untouched |
| EndpointTable.FreedIsFree | internal/server/forward_registry.go:57-59 | freeing an endpoint removes the entry that holds it and no other |
| EndpointTable.DigitsAreDecimal | internal/server/forward_registry.go:182-182 | an ID's digits are the counter in decimal, without leading zeros |
| ForwardRegistry.Registry.RemoveLocked | internal/server/forward_registry.go:168-176 | the entry leaves both indexes and is stopped; its listener and its connections are closed and nothing else is |
| ForwardRegistry.Registry.NextForwardID | internal/server/forward_registry.go:178-183 | the counter advances, wrapping as a uint64, and names the ID |
| ForwardRegistry.Registry.BeginCreate | internal/server/forward_registry.go:51-60 | a norebind create that finds its endpoint taken is refused without effect; any other removes what it finds and closes its listener and connections, and nothing else |
| ForwardRegistry.Registry.FinishCreate | internal/server/forward_registry.go:85-98 | the three outcomes of the second section, with what is registered and which listeners are closed |
| ForwardRegistry.Registry.RemoveOne | internal/server/forward_registry.go:127-151 | exactly one selector is accepted, exactly the entry it names goes, and exactly its listener and connections are closed |
| ForwardRegistry.Registry.RemoveAll | internal/server/forward_registry.go:153-162 | the count is exact, both indexes end up empty, every entry is stopped and its listener closed |
| ForwardRegistry.Registry.AddActive | internal/server/forward_registry.go:234-239 | the count follows the set, in the table only when the entry is registered |
| ForwardRegistry.Registry.RemoveActive | internal/server/forward_registry.go:241-246 | the count follows the set, in the table only when the entry is registered |
| ForwardRegistry.Registry.RecordError | internal/server/forward_registry.go:248-253 | the entry is degraded with the message even when it is no longer registered |
| ForwardRegistry.Registry.RecordSuccess | internal/server/forward_registry.go:255-260 | the entry is listening without an error |
| ForwardRegistry.Registry.Diagnose | internal/server/forward_registry.go:111-125 | one pass yields the exact counts of the table |
| ForwardInterleavings.RegistryAlwaysRight | internal/server/forward_registry.go:46-99 | in every interleaving the indexes are inverse bijections, every registered entry's listener is open and bound to its own endpoint, no two open listeners share one, the conflict branch has not run, and the diagnostics add up |
| ForwardInterleavings.NothingLeaks | internal/server/forward_registry.go:46-99 | in every interleaving an open listener is registered or in the hands of a running create |
| ForwardInterleavings.SecondRegisters | internal/server/forward_registry.go:85-98 | in every run a create that comes to its second section registers its entry with its listener open, and touches no other |
| ForwardInterleavings.RecordsAreRecorded | internal/server/forward_registry.go:234-260 | what is recorded about a registered entry is on that entry and on no other |
| ForwardInterleavings.IdsNeverReused | internal/server/forward_registry.go:178-183 | over a whole run no ID is registered twice, every live ID is one of those, and "" is none |
| ForwardInterleavings.UsedOnlyGrows | internal/server/forward_registry.go:95-96 | the record of registered numbers only grows, so never-reused covers the past |
| ForwardInterleavings.NorebindKeepsEntries | internal/server/forward_registry.go:51-94 | neither section of a norebind create removes or changes an entry |
| ForwardInterleavings.FailedCreateIsNoOp | internal/server/forward_registry.go:51-65 | with any requests in between, a create whose listen fails leaves the table as it was exactly when its endpoint was free or it asked for norebind; the failure itself changes nothing |
| ForwardInterleavings.FailedCreateRemovesForward | internal/server/forward_registry.go:51-65 | a run in which a failing create removes the forward it was to replace |
| ForwardInterleavings.FirstIsBeginCreate | internal/server/forward_registry.go:51-60 | the first step of a create does what the method does to table and listeners |
| ForwardInterleavings.SecondIsFinishCreate | internal/server/forward_registry.go:85-98 | the last step of a create does what the method does to table and listeners |
| ForwardInterleavings.RemoveByKeyIsRemove | internal/server/forward_registry.go:127-151 | so does a removal by endpoint |
| ForwardInterleavings.ConflictRegistersClosedListener | internal/server/forward_registry.go:87-96 | without the promise about addresses, the entry registered has an open listener exactly when its endpoint was not taken |
| ReverseRegistry.Registry.RemoveLocked | internal/server/reverse_registry.go:181-197 | the entry leaves both indexes, its context is cancelled, its session and client are closed, nothing else is, and a failed cleanup is recorded on the removed entry with its text |
| ReverseRegistry.Registry.NextReverseID | internal/server/reverse_registry.go:199-204 | the counter advances, wrapping as a uint64, and names the ID |
| ReverseRegistry.Registry.BeginCreate | internal/server/reverse_registry.go:36-45 | a norebind create that finds its endpoint taken is refused without effect; any other shuts down what it finds, and nothing else |
| ReverseRegistry.Registry.FinishCreate | internal/server/reverse_registry.go:99-113 | with norebind a newcomer that lost the race is shut down and the table kept; otherwise it replaces the entry it finds; no other session is touched |
| ReverseRegistry.Registry.RemoveOne | internal/server/reverse_registry.go:142-166 | exactly one selector is accepted, exactly the entry it names goes, and exactly its session, client and context are shut down |
| ReverseRegistry.Registry.RemoveAll | internal/server/reverse_registry.go:168-177 | the count is exact, both indexes end up empty and every session is closed |
| ReverseRegistry.Registry.RecordActive | internal/server/reverse_registry.go:206-216 | only a registered entry is updated, and becomes listening again only when degraded with an empty error text |
| ReverseRegistry.Registry.RecordError | internal/server/reverse_registry.go:218-226 | only a registered entry is degraded |
| ReverseRegistry.Registry.Diagnose | internal/server/reverse_registry.go:126-140 | one pass yields the exact counts of the table |
| ReverseInterleavings.RegistryAlwaysRight | internal/server/reverse_registry.go:31-114 | in every interleaving the indexes are inverse bijections, registered entries have open sessions of their own, an open session is registered or held by a running create, and the diagnostics add up |
| ReverseInterleavings.RecordsAreRecorded | internal/server/reverse_registry.go:206-226 | what is recorded about a registered entry is on that entry and on no other |
| ReverseInterleavings.IdsNeverReused | internal/server/reverse_registry.go:199-204 | over a whole run no ID is registered twice, every live ID is one of those, and "" is none |
| ReverseInterleavings.NorebindKeepsEntries | internal/server/reverse_registry.go:36-110 | neither section of a norebind create removes or changes an entry |
| ReverseInterleavings.RaceDecided | internal/server/reverse_registry.go:99-113 | of two creates racing for one endpoint, the newcomer is refused and its session closed under norebind; otherwise it holds the endpoint, the other entry is gone, and all others are untouched |
| ReverseInterleavings.DegradedForGood | internal/server/reverse_registry.go:206-226 | a degraded entry stays degraded for as long as it is registered |
| ReverseInterleavings.FirstIsBeginCreate | internal/server/reverse_registry.go:36-45 | the first step of a create does what the method does to table and sessions |
| ReverseInterleavings.SecondIsFinishCreate | internal/server/reverse_registry.go:99-113 | the last step of a create does what the method does to table and sessions |
| ReverseInterleavings.RemoveByKeyIsRemove | internal/server/reverse_registry.go:142-166 | so does a removal by endpoint |
| ForwardSession.Forward.Close | client/forward.go:55-83 | a first Close closes the listener and every registered closer; a later one does nothing |
| ForwardSession.Forward.AddActive | client/forward.go:189-197 | a closer is registered, or closed at once when the session is closed |
| ForwardSession.Forward.RemoveActive | client/forward.go:199-203 | exactly the one closer leaves the active set |
| ForwardSession.Always | client/forward.go:55-209 | every step of every interleaving keeps the invariant of the shutdown protocol |
| ForwardSession.ClosedMeansClosed | client/forward.go:55-83 | once the first Close has returned, every closer whose addActive has completed is closed, racing ones included, and so is the listener |
| ForwardSession.ClosedForGood | client/forward.go:55-83 | and it stays so over every continuation of the run |
| ForwardSession.OpenMeansRegistered | client/forward.go:189-203 | before a Close, an added closer is registered until its own bridge has closed it |
| ForwardSession.DoneMeansDrained | client/forward.go:149-151 | the value on done is sent once, when no bridge runs, both ends of every bridge are closed and nothing is registered |
| ForwardSession.NoBridgeAfterwards | client/forward.go:134-152 | after the first Close has returned or done has a value no bridge starts and no further value is sent |
| ForwardSession.ErrorMeansUnwanted | client/forward.go:136-148 | the accept loop reports an error exactly when accepting failed before anyone cancelled or closed |
| ForwardSession.BridgesRunOut | client/forward.go:154-187 | every step of a bridge brings the wait group nearer to zero, and once accepting has stopped no other step takes that back |
| ForwardSession.DoneStaysReachable | client/forward.go:149-187 | from every reachable state in which accepting has ended, the bridges' own steps lead to the value on done |
| ForwardSession.CloseAlone | client/forward.go:55-83 | in any snapshot order the steps of an undisturbed Close do what the method does |
| ForwardSession.BridgeAlone | client/forward.go:146-165 | on an open forward an accepted connection whose service opens comes to be copied, both ends registered |
| ForwardSession.BridgeEndsAlone | client/forward.go:166-187 | a bridge whose copies have ended closes both ends, unregisters them and leaves the wait group |
| ReverseSession.Reverse.BeginClose | client/reverse.go:121-134 | only the first Close gets the active set as its snapshot |
| ReverseSession.Reverse.StartBridge | client/reverse.go:272-281 | the wait group goes up exactly on an open session; on a closed one the stream is closed |
| ReverseSession.Reverse.AddBridge | client/reverse.go:320-336 | both ends are registered and counted, or both are closed and nothing is counted |
| ReverseSession.Reverse.RemoveBridge | client/reverse.go:338-349 | both ends leave the set and the count goes down, never below zero |
| ReverseSession.Always | client/reverse.go:113-355 | every step of every interleaving keeps the invariant of the shutdown protocol |
| ReverseSession.ClosedMeansQuiet | client/reverse.go:113-153 | when the first Close has returned no bridge runs, every stream the device opened and every connection dialled for one is closed, and nothing is registered |
| ReverseSession.NoBridgeOnceClosed | client/reverse.go:272-281 | whatever runs after closed is set was running then, so the wait covers all bridges |
| ReverseSession.WaitsForClosedEnds | client/reverse.go:136-147 | when the first Close waits, every end whose addBridge has completed is closed |
| ReverseSession.CountIsRight | client/reverse.go:320-349 | until Close the active count is the number of registered bridges, with exactly their ends in the set; afterwards it is at most that |
| ReverseSession.CountExactly | client/reverse.go:320-349 | in every run the active count is the number of registered bridges less the late removals so far, never below zero, and there is none before Close |
| ReverseSession.CountRightExactly | client/reverse.go:320-349 | the count is right exactly while no late bridge has been taken off it or no registered bridge is left |
| ReverseSession.AddBridgeAlone | client/reverse.go:320-336 | undisturbed, the steps of addBridge do what the method does: one on an open session, three on a closed one |
| ReverseSession.StepsAreSections | client/reverse.go:121-134 | offering, removing a bridge and beginning Close are one step each, with the effect of the method |
| ReverseSession.BridgeAlone | client/reverse.go:272-296 | on an open session an offered stream whose dial succeeds comes to be copied, both ends registered and counted |
| ReverseSession.BridgeEndsAlone | client/reverse.go:297-318 | a registered bridge whose copies have ended closes both ends, is no longer counted and leaves the wait group |
| ReverseSession.CloseNextAlone | client/reverse.go:139-141 | the first Close closes the ends of its snapshot one by one, in any order |
| ReverseSession.CloseTail | client/reverse.go:143-152 | with no bridge running it then puts the outcome of removing the reverse on done |
| ReverseSession.CountMayFallBehind | client/reverse.go:338-349 | a run in which the count is zero while a registered bridge still copies |
| ReverseSession.DoneOnce | client/reverse.go:147-152 | done gets one value, from the first Close, and always has room for it |
| ReverseSession.BridgesRunOut | client/reverse.go:283-318 | once closed, every step of a bridge brings the wait group nearer to zero and no other step, new offers included, takes that back |
| ReverseSession.CloseCanReturn | client/reverse.go:147-152 | from every reachable state in which the first Close waits, the bridges' own steps let it return |
| UsbDescriptors.SplitIsFlat | internal/usb/descriptor.go:57-67 | an accepted input is the concatenation of the descriptors found |
| UsbDescriptors.SplitOfFlat | internal/usb/descriptor.go:57-67 | every concatenation of well-formed descriptors is cut into just those |
| UsbDescriptors.SplitFailsAt | internal/usb/descriptor.go:58-72 | cutting fails with an error exactly when well-formed descriptors are followed by one with that fault |
| UsbDescriptors.ParsedOfDescriptors | internal/usb/descriptor.go:29-100 | the specification on the bytes of any list of descriptors is its interface blocks' candidates |
| UsbDescriptors.PanicsExactly | internal/usb/descriptor.go:66-67 | the scan indexes out of range exactly when well-formed descriptors are followed by a length byte of one |
| UsbDescriptors.EndpointBits | internal/usb/descriptor.go:120-133 | a bulk endpoint is one with transfer type binary 10, and an IN endpoint one with the highest address bit |
| UsbDescriptors.LastBulkIsLast | internal/usb/descriptor.go:83-92 | a block's address of one direction is that of its last bulk endpoint of that direction |
| UsbDescriptors.LastDeviceIsLast | internal/usb/descriptor.go:69-74 | the IDs are those of the last device descriptor |
| UsbDescriptors.AdbInterfaceIsFound | internal/usb/descriptor.go:57-99 | a device, a configuration, an interface of class 0xff, subclass 0x42, protocol 1 and a bulk endpoint each way, whatever their other bytes, give exactly the candidate whose fields stand in them |
| UsbDescriptors.CandidatesOpenable | internal/usb/bulk_linux.go:113-124 | every candidate has nonzero endpoints of the right directions, so it passes the validation exactly when a path was given |
| UsbDescriptors.FlushCompletes | internal/usb/descriptor.go:38-55 | flush adds exactly what the running block contributes in the specification |
| UsbDescriptors.ScannedStep | internal/usb/descriptor.go:66-95 | one descriptor takes the scan's state to the one the specification has for the longer list |
| UsbDescriptors.Consume | internal/usb/descriptor.go:68-93 | the switch changes vendor, product, builder and candidates as the scan's step does |
| UsbDescriptors.ParseADBCandidates | internal/usb/descriptor.go:29-100 | the one-pass scan returns what the two-stage specification says: interface blocks up to the next interface or configuration descriptor, their last bulk endpoints, and the IDs of the last device descriptor before the block's end |
| SyncTransfer.WriteSyncRequest | client/sync.go:240-247 | exactly one record goes out on success and a prefix of it on failure |
| SyncTransfer.WriteSyncHeader | client/sync.go:249-253 | exactly one header goes out on success and a prefix of it on failure |
| SyncTransfer.WriteSyncHeaderTo | client/sync.go:269-272 | the buffer holds the ID and the little-endian size |
| SyncTransfer.RecordLayout | client/sync.go:240-247 | a record is four bytes of ID, the size with its lowest byte first, and the payload |
| SyncTransfer.NamesAreText | client/sync.go:13-19 | the IDs and the mode are their names in ASCII |
| SyncTransfer.ReadSyncHeader | client/sync.go:274-280 | the next eight bytes are consumed as ID and size, however they arrive |
| SyncTransfer.RecordsRoundTrip | client/sync.go:195-217 | DATA records and DONE decode to the joined chunks and the time, with the rest untouched |
| SyncTransfer.PushRoundTrip | client/sync.go:186-217 | a device reads path, mode 420, content and the file's time back (0 before the epoch, modulo 2^32), whatever the chunks, exactly when the path with its mode fits 32 bits |
| SyncTransfer.PushedFileArrives | client/sync.go:186-217 | however the source was read, the device gets the file |
| SyncTransfer.PushFile | client/sync.go:149-238 | with any short reads and writes, the file is sent as chunks of 1 to 4096 bytes in order, a failure has sent a prefix of that, and the outcome is the device's response; without a fault of source or transport all of it is sent and the response read |
| SyncTransfer.PushChunks | client/sync.go:195-209 | the DATA loop sends what it has read, all of the file on success |
| SyncTransfer.OkayIsSuccess | client/sync.go:226-228 | a push succeeds exactly when the answer has eight bytes and starts with OKAY |
| SyncTransfer.FailIsRemote | client/sync.go:229-234 | a FAIL record makes a push fail with its message, and cut short with the end of file |
| SyncTransfer.OtherAnswers | client/sync.go:219-237 | any other answer fails by its ID, and a cut header by where it is cut |
| SyncTransfer.PullOfRecords | client/sync.go:107-133 | DATA records and DONE make a pull succeed with exactly the joined payloads |
| SyncTransfer.SuccessIsRecords | client/sync.go:107-133 | and nothing else makes it succeed |
| SyncTransfer.PullFails | client/sync.go:134-139 | records followed by FAIL leave what they held and fail with the message |
| SyncTransfer.CreatedByDataOrDone | client/sync.go:85-105 | the destination is created exactly when the first record is DATA or DONE |
| SyncTransfer.CopyN | client/sync.go:121-123 | exactly size bytes are copied; an early end has copied all there was, unless the transport or the file system interfered |
| SyncTransfer.PullRecords | client/sync.go:107-143 | without a fault of the transport or a refusal of the file system, destination and outcome depend only on the bytes of the answer; with one, the outcome is one of six failures and the destination is untouched or holds a prefix |
| SyncTransfer.PullFile | client/sync.go:43-144 | an empty path or an existing destination stops the pull before anything is sent; otherwise as above |
| PullOverStream.PullOfPrefix | client/sync.go:107-143 | more bytes never change what fewer have decided |
| PullOverStream.PullFollowsThePeer | client/sync.go:107-143 | in every run of the multiplexer, what has been pulled is the start of what all bytes sent to the stream amount to, however they are cut into WRTE payloads, and a success is final |
| PullOverStream.PulledFileArrives | client/sync.go:107-143 | when those payloads join to DATA records and DONE, the pull writes the start of the joined DATA, and succeeds with all of it exactly when its reads have returned the records |
| Properties.LineRoundTrip | client/properties.go:70-80 | a printed line reads back as its name and value exactly when the name is nonempty and free of the separator |
| Properties.ParsedIsPrinted | client/properties.go:70-80 | whatever line is accepted is the one printed for its result |
| Properties.ParseGetPropOutput | client/properties.go:48-68 | the loop returns the map of the lines, or the first malformed or overlong line |
| Properties.TrimmedCRs | client/properties.go:51-57 | up to two carriage returns at the end of a line are dropped and no more |
| Properties.BlankTextChangesNothing | client/properties.go:55-57 | blank lines with either ending, anywhere between lines, change nothing but later line numbers |
| Properties.MalformedNumber | client/properties.go:58-61 | the malformed line reported is the first that is not fine, by its number and trimmed text |
| Properties.LastLineWins | client/properties.go:48-68 | the result has exactly the names some line is about, each with the value of its last line |
| Properties.ListingRoundTrip | cmd/adb-go/internal/custom/shell.go:227-234 | printing a map in any order and with either line ending and reading it back gives the map, exactly when every name and value can be told apart in the text and every line, with its carriage return, is below the scanner's limit |
| Properties.ValueRoundTrip | client/properties.go:39-46 | a single printed value reads back exactly when it holds no line break, for both line endings |
| ShellQuoting.QuotedReads | client/install.go:111-113 | wherever a quoted text stands, the shell adds the text to the current word and goes on with what follows |
| ShellQuoting.QuotedIsOneWord | client/install.go:111-113 | a quoted text is exactly one word, the text |
| ShellQuoting.CommandReads | client/install.go:60-67 | a command joined from literal words and quoted texts reads as exactly those words |
| Montgomery.HenselInverts | auth/auth.go:205-214 | the inverse of an odd number modulo every power of two |
| Montgomery.ModInverseIsInverse | auth/auth.go:208-211 | the inverse modulo 2^32 when there is one, and only then |
| Montgomery.N0InvIsNegatedInverse | auth/auth.go:205-214 | n0inv fails exactly for an even modulus, and otherwise is the one number whose product with it is -1 modulo 2^32 |
| Montgomery.WordStepExact | auth/auth.go:205-214 | with n0inv, every Montgomery word step divides exactly |
| Montgomery.ReduceDivides | auth/auth.go:199-214 | reducing by so many words divides by their power modulo N and keeps the number small |
| Montgomery.ToMontgomeryForm | auth/auth.go:199-214 | one reduction of x * rr is x * R modulo N after at most one subtraction |
| Montgomery.RRIsPower | auth/auth.go:199-203 | for 64 words rr is 2^4096 modulo N |
| Base64.Base64RoundTrip | auth/auth.go:157-157 | base64 decodes back to the bytes, for every byte string |
| Base64.NoSpaceInside | auth/auth.go:157-159 | the encoding holds no space and has the expected length |
| Base64.FirstGroup | auth/auth.go:157-157 | each three bytes become four symbols, with an equals sign for each that is missing |
| Base64.SameBits | auth/auth.go:157-157 | the symbol values of a group are its 24 bits |
| Base64.Alphabet | auth/auth.go:157-157 | the symbols are the table of RFC 4648 in its order |
| PublicKey.BitLenExactly | auth/auth.go:170-172 | BitLen is k + 1 exactly from 2^k up to 2^(k+1) |
| PublicKey.BigEndianValue | auth/auth.go:192-192 | the number's bytes have its value and no leading zero |
| PublicKey.BigEndianDigit | auth/auth.go:190-197 | byte i from the end of the number's bytes is its digit i, and digits beyond them are zero |
| PublicKey.LittleEndianFixed | auth/auth.go:190-197 | the loop fills the buffer with the number's digits, cut or zero-filled to the size |
| PublicKey.LittleEndianValue | auth/auth.go:190-197 | the buffer has the value of the number modulo 256^size |
| PublicKey.EncodeAndroidRSAPublicKey | auth/auth.go:166-188 | the key is made exactly for an odd modulus from 2^2047 up to 2^2048, and is the packed fields |
| PublicKey.PackedParts | auth/auth.go:181-187 | 524 bytes: words, n0inv, modulus, rr and exponent, each at its place |
| PublicKey.PackedRoundTrip | auth/auth.go:166-188 | 524 bytes that unpack to the fields |
| PublicKey.PayloadRoundTrip | auth/auth.go:152-164 | cutting the payload at the first space and the final NUL and decoding gives key and comment, byte for byte |
| PublicKey.TrimInside | auth/auth.go:115-115 | trimming takes exactly the Unicode spaces, in UTF-8, from both ends and leaves none there |
| PublicKey.SpacesAreUnicode | auth/auth.go:115-115 | the spaces trimmed are the UTF-8 encodings of exactly the code points of unicode.IsSpace |
| PublicKey.CommentIsTrimmed | auth/auth.go:112-118 | the credential keeps the comment between the spaces at its ends, and "adb-go" when that is nothing |
| PublicKey.NewCredentialWithComment | auth/auth.go:98-124 | a credential is made exactly from a valid key with an odd modulus from 2^2047 up to 2^2048, a positive exponent and a comment without NUL, CR and LF; a refusal names the first thing that is wrong |
| PublicKey.KeyConverts | auth/auth.go:166-214 | with the key's constants a device converts every x up to R into Montgomery form |
| PublicKey.CredentialRoundTrip | auth/auth.go:98-214 | for every accepted key the device reads back modulus, exponent modulo 2^32 and comment, with constants that make its arithmetic right |

## Left out

- The command-line programs, except the loop that prints properties: flags, tables and process calls.
- Sockets, files, USB transfers, time and JSON: they appear as nondeterministic steps (short reads and writes, listen and dial results, a destination that cannot be created).
- RSA signing, SHA-1, PEM and X.509: signing is an arbitrary function, and the library's own check of a private key is a parameter.
- Unix socket paths, stale-socket probing and request dispatch of the server: one-branch facts.
- Address validation and normalisation: endpoints are keys, and a bound listener's key is whatever the system reports.
- Connecting the CNXN exchange with the system identity string: only the responses are modelled.
- Context cancellation of reads and handshakes: it closes the transport, which is a failing read here.
- Liveness of Open after the reader has failed, waiting for OKAY before a Write, and splitting a Write to the advertised maximum: the code does none of them.
- Deadlock freedom of the reverse registry, which closes sessions under its own lock.
- The callbacks of a reverse session and the unsynchronised reads of its options: the count they report is modelled, the calls are not.
- A reverse session whose registration fails after its handler was installed: streams that arrive in between are not modelled.
- Error texts: errors are kinds with the data that decides them.
- Multiplexer.OpenResultSentOnce: distinct local IDs are stated up to the wrap of the 32-bit counter, after which the code reuses them.
- ForwardInterleavings.RegistryAlwaysRight: stated up to the wrap of the 64-bit ID counter, and assuming that the system never binds an address that an open listener has.
- ReverseInterleavings.RegistryAlwaysRight: stated up to the wrap of the 64-bit ID counter.
- Streams.Connection.HandleOpen: handlers are named by numbers, and running one is not modelled.
- Streams.Connection.HandleStreamMessage: the method runs without interference; what other goroutines do in between is in Multiplexer.
- StreamHistory.EndsAfterDraining: one goroutine reads each stream, as the chunk a Read holds is otherwise not ordered by the code; a failed acknowledgement is one error here, though the program passes on the transport's, which may itself be io.EOF.
- StreamHistory.OpenResultOrder: stated up to the wrap of the 32-bit counter, like all that depends on distinct local IDs.
- ShellQuoting.CommandReads: the shell's expansions and operators are not modelled; a text with unquoted ones has no reading.
