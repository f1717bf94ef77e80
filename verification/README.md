# A verified model of grpc-c's transport core

grpc-c is a gRPC implementation in C. This project models the parts of it that carry protocol state and
proves what they keep over all inputs and all runs:

- **HPACK literals** (`src/hpack.c`): the integer, header and metadata-list encoders and decoders, with
  32-bit arithmetic, buffer space and the growing output array.
- **Framing** (`src/http2_transport.c`): the 9-byte frame header and streams of frames.
- **Flow control** (`src/flow_control.c`): `int32_t` windows on the connection and its streams, as
  operations, as a two-endpoint credit protocol, as a race between senders, as both together, with
  window updates that fail to be sent, and around the mutex that receiving takes.
- **The stream table** (`src/http2_transport.c`, `src/grpc_channel.c`): append and swap-remove on an array,
  with a wrapping id counter, against a map.
- **The completion queue** (`src/grpc_core.c`): the linked FIFO, and its condition-variable protocol.
- **The connection pool** (`src/connection_pool.c`): get, return, keep-alive tick and clean-up.
- **Load balancing** (`src/load_balancing.c`): which node is picked how often.
- **The metadata array** (`src/enhanced_features.c`): growth by doubling.

Code that updates objects or buffers in place is written as classes and methods, each proved equal to a
function on values; the theorems about runs are about state machines built from the same functions.
Clocks, random draws, the addresses returned by the allocator, the scheduler's choice of the thread a signal
wakes, and whether a new connection can be made are parameters. A pthread critical section is one atomic step, except where the mutex itself is the subject (`ReceiveLock`).

Two documented promises are not what the code does, and the model follows the code. `docs/API.md:92` says that
no event can be added after shutdown; pushes are accepted and returned (`PushAfterShutdown`, `NoEventAddedIff`). The
overflow tests at `src/flow_control.c:66` and `:87` compare an `int32_t` with 0x7FFFFFFF and never fire
(`CreditExact`).

## Model

| member | source | states |
|---|---|---|
| `Machine.ToInt32Congruent` | src/flow_control.c:118-118 | A cast to `int32_t` keeps the residue modulo 2^32, for lengths of any size |
| `HpackInteger.LowBitsMask` | src/hpack.c:144-145 | The mask keeps the low bits of a byte and drops whatever stands above them |
| `HpackInteger.IntegerRoundTrip` | src/hpack.c:102-176 | For every uint32 value, prefix of 0 to 7 bits, flag bits above the prefix and trailing bytes, decoding an encoding returns the value and exactly its length, at most 6 |
| `HpackInteger.IntegerDecodeSound` | src/hpack.c:139-176 | Every accepted input yields prefix plus the sum of its 7-bit groups times 128^i, modulo 2^32, from 1 to 6 bytes, and re-encoding the result never needs more bytes than were consumed |
| `HpackInteger.IntegerDecodeExact` | src/hpack.c:154-173 | An accepted value is the one section 5.1 of RFC 7541 assigns if and only if there is no fifth group or the fifth group is below 16 |
| `HpackInteger.IntegerAcceptedIff` | src/hpack.c:151-173 | Behind a saturated prefix, whatever the flag bits, a run of up to four groups is always accepted, one of five exactly if what 32 bits keep of the total is below 2^32, a longer one never; non-minimal encodings included |
| `HpackInteger.UnendedRefused` | src/hpack.c:139-176 | An empty input, and a group run without an end, are refused |
| `HpackInteger.EncodeMeaning` | src/hpack.c:102-129 | The encoder writes what section 5.1 of RFC 7541 defines: an all-ones prefix exactly if groups follow, and prefix plus groups make the value |
| `HpackInteger.IntegerDecodeWraps` | src/hpack.c:162-165 | A concrete input that the RFC reads as 2^32 + 127 is accepted as 127 |
| `HpackInteger.EncodeMonotone` | src/hpack.c:102-129 | A larger value never has a shorter encoding |
| `HpackInteger.WriteGroups` | src/hpack.c:118-125 | The group loop writes the groups of the value, or as many as fit and reports failure exactly when they do not all fit |
| `HpackInteger.EncodeInteger` | src/hpack.c:102-129 | Failure exactly for a bad prefix or a short buffer; otherwise the buffer holds the encoding at the offset and every other byte is unchanged |
| `HpackInteger.DecodeInteger` | src/hpack.c:139-176 | The loop, with its step-by-step overflow test, accepts exactly the inputs whose group run ends within five bytes and whose total fits 32 bits, and returns that total |
| `HpackHeader.HeaderAccepted` | src/hpack.c:266-311 | Type byte, length, name, length, value in this order are accepted and read as that name and value, with any type byte and however the lengths are written |
| `HpackHeader.HeaderSplits` | src/hpack.c:266-311 | And nothing else is accepted: every accepted input splits that way |
| `HpackHeader.HeaderRoundTrip` | src/hpack.c:186-311 | The encoder's type byte is 0; a header decodes to its own name and value, whatever the type byte and whatever follows, consuming exactly its encoding |
| `HpackHeader.ParsedHeaderNotLonger` | src/hpack.c:266-311 | No accepted header is shorter than the encoder's form of the same name and value |
| `HpackHeader.LengthWraps` | src/hpack.c:207-207 | Of a string of 2^32 bytes or more only the residue of the length is written |
| `HpackHeader.LengthBytes` | src/hpack.c:206-219 | A string length takes at most 4, 5, 6 bytes exactly below 2^21+127, below 2^28+127, always |
| `HpackHeader.ReservationShort` | src/hpack.c:195-200 | The reserved 11 + name + value bytes are too few if and only if one string reaches 2^28+127 bytes while the other reaches 2^21+127 |
| `HpackHeader.WriteString` | src/hpack.c:206-214 | Length and string are written at the position if and only if both fit; nothing outside the buffer's window changes |
| `HpackHeader.EncodeLiteralHeader` | src/hpack.c:186-227 | Success if and only if the buffer has both the reservation and the header's bytes; then exactly the header is written; without the reservation nothing is |
| `HpackHeader.DecodeString` | src/hpack.c:273-285 | Returns the length-prefixed string at a position, or -1 exactly when there is none |
| `HpackHeader.DecodeLiteralHeader` | src/hpack.c:266-311 | Returns the header at the start of the input and the bytes it takes, or -1 exactly when there is none |
| `HpackMetadata.MetadataRoundTrip` | src/hpack.c:236-375 | Decoding exactly the bytes of a metadata list gives the same count, order and keys, each value cut at its first NUL |
| `HpackMetadata.RawListRead` | src/hpack.c:320-375 | Headers below 2^32 bytes, NUL bytes in names and values included, are read back whole, each with its C string length, if and only if every header's length is an `int` |
| `HpackMetadata.EncodingInjective` | src/hpack.c:236-256 | On NUL-free metadata two lists with the same encoding are equal |
| `HpackMetadata.ParsedListShrinks` | src/hpack.c:320-375 | An accepted input has at most a third as many headers as bytes and re-encodes to no more bytes |
| `HpackMetadata.ParsedListCanonical` | src/hpack.c:320-375 | Re-encoding whatever was accepted is no longer than the input and decodes to the same list, values cut at the first NUL |
| `HpackMetadata.ReservationsSuffice` | src/hpack.c:195-200 | A list of strings shorter than 2^28+127 always fits in the sum of its reservations |
| `HpackMetadata.FitsIff` | src/hpack.c:195-200 | A list fits exactly if behind the headers before it each finds 11 bytes and its two strings, and its encoding |
| `HpackMetadata.EncodeMetadata` | src/hpack.c:236-256 | For headers below 2^32 bytes, success if and only if every header finds its reservation behind the ones before it and its length is an `int`; then the buffer starts with the encoding and the rest is unchanged |
| `HpackMetadata.DecodeMetadata` | src/hpack.c:320-375 | The loop computes the recursive split of the whole input into headers, failing exactly when there is none, and leaves at most len/3 entries at the least capacity of the form 16 * 2^k |
| `HpackMetadata.AdvanceIff` | src/hpack.c:335-372 | Every decoded header is sure to move the decoding loop forward if and only if the input is shorter than 2^32 bytes; a header of exactly 2^32 bytes leaves it where it is |
| `Metadata.LeastCapacityStep` | src/enhanced_features.c:48-58 | One more entry doubles the capacity if the array is full and leaves it alone otherwise |
| `Metadata.LeastCapacityIsLeast` | src/enhanced_features.c:48-58 | The capacity is the initial one doubled k times, and any fewer doublings hold too little |
| `Metadata.DoubledIsShifted` | src/enhanced_features.c:50-50 | k doublings multiply by 2^k |
| `Metadata.MetadataArray.constructor` | src/enhanced_features.c:23-37 | An empty array of the requested capacity, 16 if none was requested |
| `Metadata.MetadataArray.Append` | src/enhanced_features.c:48-79 | Contents gain the entry; capacity is the least doubling of the initial one; growth has moved fewer than two entries per entry added over the array's whole life |
| `Metadata.MetadataArray.Add` | src/enhanced_features.c:42-82 | Adds a copy of key and value bytes, keeping the same bounds |
| `FrameCodec.HeaderRoundTrip` | src/http2_transport.c:92-148 | A header read back after writing is the same up to length modulo 2^24 and stream id modulo 2^31 |
| `FrameCodec.HeaderReencode` | src/http2_transport.c:143-148 | Writing back any 9 received bytes changes only the reserved bit |
| `FrameCodec.HeaderOnWire` | src/http2_transport.c:92-102 | The nine bytes one by one: length, type, flags, stream id, most significant bytes first |
| `FrameCodec.ReceivedIff` | src/http2_transport.c:126-168 | A frame is received, reserved bit set or not, exactly when 9 bytes and as many as the first three announce are there |
| `FrameCodec.FrameRoundTrip` | src/http2_transport.c:82-168 | A frame survives the wire, leaving what follows it, if and only if its length is below 2^24 and its stream id below 2^31 |
| `FrameCodec.StreamRoundTrip` | src/http2_transport.c:82-168 | Receiving the concatenated bytes of any sequence of such frames yields the same sequence |
| `FrameCodec.StreamReencode` | src/http2_transport.c:126-168 | Every byte stream received to its end is a sequence of sendable frames, and sending them again gives the same bytes except for cleared top bits |
| `FrameCodec.WindowUpdateOnWire` | src/flow_control.c:25-46 | A WINDOW_UPDATE read off the wire has type 8 and carries the stream id and increment it was sent with |
| `FrameCodec.WindowUpdateBytes` | src/flow_control.c:30-46 | Its thirteen bytes one by one, as in section 6.9 of RFC 7540 |
| `Http2.SwapRemoveRemoves` | src/http2_transport.c:220-227 | On a table without duplicates swap-removal takes out exactly the one element, makes no duplicate, and moves no other but the last |
| `Http2.Connection.constructor` | src/http2_transport.c:33-61 | An empty table with room for 16, the first id by role, both windows at 65535 |
| `Http2.Connection.CreateStream` | src/http2_transport.c:174-212 | The table gains the new stream at its end, growing if full; the stream's windows are 65535 |
| `Http2.Connection.DestroyStream` | src/http2_transport.c:214-229 | The table is the old one with the stream swap-removed, or unchanged if it is not there; no duplicates, no NULL entries |
| `Http2.Connection.CreateCall` | src/grpc_channel.c:104-113 | The new stream takes the current id and the counter advances by 2 modulo 2^32 |
| `Http2.Connection.SendFrame` | src/http2_transport.c:82-124 | With an open socket the wire gains the encoded header and payload; otherwise -1 and nothing is sent |
| `FlowControl.ReceiveOutcome` | src/flow_control.c:153-202 | For all windows and lengths: accepted exactly if the cast length is in [0, 65535] and within both windows; where only the connection covers it, the call fails with that window charged; a window left below 32767 is put back to 65535 and the difference announced |
| `FlowControl.ReceiveKeepsHealthy` | src/flow_control.c:158-202 | Against any peer, also when the call fails half way, local windows stay in [32767, 65535]; any increment lies in [32769, 65535] and brings its window back to 65535 |
| `FlowControl.AlwaysAcceptedIff` | src/flow_control.c:158-189 | The lengths that a receiver with healthy windows never refuses are exactly those whose `int32_t` cast lies in [0, 32767] |
| `FlowControl.CreditExact` | src/flow_control.c:63-69 | The window sum is right if and only if it does not exceed 2^31 - 1; otherwise it is less by 2^32, and negative |
| `FlowControl.SpendExact` | src/flow_control.c:138-141 | The subtraction is modulo 2^32, and right if and only if an `int32_t` holds the result |
| `FlowControl.SendTestRightIff` | src/flow_control.c:118-120 | The lengths for which the send test is right at every pair of windows in [0, 65535] are those below 2^31 and those whose cast exceeds 65535 |
| `FlowControl.SendWindowUpdate` | src/flow_control.c:25-46 | On an open socket an increment in [1, 2^31 - 1] puts exactly its frame on the wire; anything else is refused and puts nothing |
| `FlowControl.ReceiveWindowUpdate` | src/flow_control.c:55-97 | Only the window named by the frame changes: the connection's for id 0, otherwise that of the first stream with the id; an unknown id changes nothing |
| `FlowControl.CanSend` | src/flow_control.c:106-123 | 1 exactly when the cast length is within both windows; for lengths below 2^31, exactly when the length is |
| `FlowControl.ConsumeSendWindow` | src/flow_control.c:132-144 | Both windows drop by the length, as `int32_t` |
| `FlowControl.ConsumeRecvWindow` | src/flow_control.c:153-202 | Result, both windows and the announcements on the wire, for acceptance, for refusal, and for the failure that has already charged the connection |
| `FlowProtocol.CreditConservation` | src/flow_control.c:55-202 | In every interleaving of two endpoints, per direction, on the connection and on each stream: sender window + DATA in flight + credit in flight = receiver window; so no window leaves [0, 65535], no addition wraps, the receiver never returns -1 |
| `FlowProtocol.SendKeepsIff` | src/flow_control.c:118-141 | From any balanced state a send keeps the accounts if and only if its length is below 2^31 or the send test turns it away |
| `FlowProtocol.SendArrives` | src/flow_control.c:106-202 | With nothing under way, either end can send whatever its windows cover and the next delivery has it accepted, all four windows charged |
| `FlowProtocol.SendOutcome` | src/flow_control.c:106-144 | In any state a send goes on the wire, and off both windows, exactly if the stream is open and both windows cover the cast length |
| `FlowProtocol.DataOutcome` | src/flow_control.c:153-202 | Every delivery of DATA: it fails unless the stream is open and both windows cover it; a failure on the stream window alone has charged the connection's; exactly what is charged below 32767 is put back to 65535 and announced |
| `FlowProtocol.CreditOutcome` | src/flow_control.c:55-97 | Every delivery of credit: an increment of 0 or above 2^31 - 1 is a failure; any other raises the connection window, or that of the stream if it is open, and nothing else changes |
| `FlowProtocol.HonestRun` | src/flow_control.c:55-202 | Every run of the two-endpoint protocol is, for all that one end can tell, a run against an arbitrary peer, so that what holds against any peer holds in it |
| `FlowProtocol.NoStall` | src/flow_control.c:106-202 | From every such state finitely many deliveries alone, with an explicit bound, lead to one where both endpoints may send 32767 bytes on every stream |
| `FlowProtocol.AnyPeer` | src/flow_control.c:153-202 | Whatever messages an arbitrary peer sends, and whenever, with the receiver opening streams and sending in between, the receiver's local windows stay in [32767, 65535] and it grants only increments in [32769, 65535] |
| `FlowProtocol.SmallFramesAccepted` | src/flow_control.c:153-202 | In any such run, frames of at most 32767 bytes on open streams are never refused, even if the peer overdraws the connection window |
| `FlowProtocol.NeverRefusedIff` | src/flow_control.c:158-189 | Frames of at most L bytes are never refused, by any healthy receiver in any run, if and only if L <= 32767 |
| `FlowProtocol.OversizedSendFails` | src/flow_control.c:118-120 | A concrete run with a length of 2^31: the send test passes and the receiver refuses the frame |
| `SenderRace.OverdraftBound` | src/flow_control.c:106-144 | With k senders of at most L < 2^31 bytes, the two reads of the check, the hand-over and the two charges being separate steps, no interleaving takes the connection window below -(k-1)*L or a stream window below 0 |
| `SenderRace.StreamsNeverOverdrawnIff` | src/flow_control.c:106-144 | Stream windows stay non-negative in every interleaving if and only if the lengths stay below 2^31 |
| `SenderRace.OverdraftAttained` | src/flow_control.c:106-144 | A run, using arriving credit where L exceeds 65535, that attains -(k-1)*L exactly |
| `SenderRace.OverdraftAttainedIff` | src/flow_control.c:106-144 | For every k and every L below 2^31 the bound is attained if and only if an `int32_t` can hold it |
| `RacingProtocol.UndisturbedIsSend` | src/flow_control.c:106-144 | In any state, a sender that takes its five steps without interruption makes exactly one send of the protocol with single-step sends |
| `RacingProtocol.RacingConservation` | src/flow_control.c:106-202 | Two endpoints with k racing senders at both ends and frames of at most L bytes, L <= 32767 or k = 1, the two reads of the check, the hand-over and the two charges being separate steps: in every interleaving the accounts balance once bytes between two steps of a sender are counted, no receiver returns -1, no connection window falls below -(k-1)*L, no stream window below 0 |
| `RacingProtocol.RacingNoStall` | src/flow_control.c:106-202 | From every such state, overdrawn or not, the senders completing what they began and deliveries, at most 14k plus the cost of the messages under way, lead to one where both endpoints may send 32767 bytes on every stream |
| `RacingProtocol.RacingRunsGoOn` | src/flow_control.c:106-202 | Every run from the start can be continued, without a new send, to such a state |
| `RacingFailures.RacingNeverFailsIff` | src/flow_control.c:106-202 | For every number k of senders at each end and every L, no interleaving with lengths of at most L makes a receiver return -1 if and only if L <= 32767, or k = 1 and L < 2^31; windows may wrap |
| `RacingFailures.RacingFails` | src/flow_control.c:106-189 | With two or more senders a concrete run in which two checks of 32768 bytes pass before either pays, and the receiver refuses the second frame |
| `LossyProtocol.SentIsNormal` | src/flow_control.c:173-200 | A delivery whose announcements are all sent is a delivery of the protocol without losses |
| `LossyProtocol.LossyConservation` | src/flow_control.c:173-199 | When announcements fail to be sent, in every run and both directions: sender window + DATA in flight + credit in flight + credit lost = receiver window, no window is overdrawn, no receiver returns -1 |
| `LossyProtocol.LossIsFinal` | src/flow_control.c:173-200 | After one WINDOW_UPDATE that failed to be sent, whatever happens, at most 32766 more bytes are ever accepted from that sender: on that stream, or, if it was the connection's, on all streams together |
| `LossyProtocol.UnlimitedIff` | src/flow_control.c:173-200 | Traffic on an open stream can go on without limit if and only if no update has failed to be sent on it or on the connection |
| `LossyProtocol.ConnectionUnlimitedIff` | src/flow_control.c:173-200 | Traffic as a whole can go on without limit if and only if no connection update has failed to be sent and some stream, open or still to be opened, has lost none |
| `LossyProtocol.LossReachable` | src/flow_control.c:173-200 | Concrete runs of one frame whose connection announcement, or whose stream announcement, fails |
| `ReceiveLock.CallIsReceive` | src/flow_control.c:153-202 | An undisturbed call, step by step around the mutex, does what ReceiveOutcome states and returns, unless the socket is open and the connection has credit to announce |
| `ReceiveLock.StuckIff` | src/flow_control.c:153-202 | With any number of threads around `write_mutex`, in every interleaving a thread waits for a mutex that it holds itself if and only if the socket is open and more than 32768 bytes have been accepted on the connection |
| `ReceiveLock.StuckForever` | src/flow_control.c:173-182 | From then on that thread and every thread waiting for the mutex stay where they are, and no further byte is accepted, in every continuation |
| `ReceiveLock.ReturnsIff` | src/flow_control.c:153-202 | When every call begun has been run as far as it goes, all calls have returned if and only if the socket is closed or at most 32768 bytes have been accepted on the connection |
| `ReceiveLock.ComesToRest` | src/flow_control.c:153-202 | From every state with the invariant, so from every reachable one, boundedly many steps of the threads, with no new call, lead to such a state of rest |
| `ReceiveLock.CrossingReachable` | src/flow_control.c:173-182 | A concrete run: a call for 32769 bytes on a new connection never returns |
| `StreamTable.TableRefinesMap` | src/http2_transport.c:174-229 | Over any run of up to 2^30 creations mixed with destructions and window updates the array holds exactly the live streams of a map keyed by id, once each, with the map's windows; ids are the odd numbers in creation order, below 2^31; no live call, no entry |
| `StreamTable.TeardownEmpties` | src/grpc_channel.c:165-180 | Destroying the calls that are left, in any order, empties the table |
| `StreamTable.CounterAfter` | src/grpc_channel.c:106-107 | After any run, however long, the counter is 2n + 1 modulo 2^32 for n creations |
| `StreamTable.IdValidIff` | src/grpc_channel.c:106-107 | The next id is below 2^31 and never used before if and only if fewer than 2^30 calls were created |
| `StreamTable.CreateOn` | src/grpc_channel.c:104-113 | Creating a call on the connection object is the creation step of its rows |
| `StreamTable.DestroyOn` | src/http2_transport.c:214-229 | While ids are unique, removing a stream by pointer is removing its row by id |
| `StreamTable.UpdateOn` | src/flow_control.c:71-94 | A stream WINDOW_UPDATE on the connection object is the update step of its rows |
| `StreamTable.NewClient` | src/http2_transport.c:33-61 | A new client connection object is the state the runs start from |
| `StreamTable.Execute` | src/http2_transport.c:174-229 | Any run of up to 2^30 creations on the connection object itself leaves a pointer table that represents the map |
| `CompletionQueue.Queue.Push` | src/grpc_core.c:61-83 | The linked list from head to tail represents the old events followed by the new one |
| `CompletionQueue.Queue.TryNext` | src/grpc_core.c:99-127 | Takes the oldest event if there is one, else reports shutdown if set, else waits; head and tail stay consistent |
| `CompletionQueue.Queue.Shutdown` | src/grpc_core.c:130-137 | Sets the flag and keeps the events |
| `WaitProtocol.NoLostWakeup` | src/grpc_core.c:74-137 | In every interleaving of push, next, timeout, spurious wake-up and shutdown, a blocked thread implies no shutdown and at most as many queued events as woken threads, plus the timed-out waits that had consumed a signal |
| `WaitProtocol.NoLostWakeupIff` | src/grpc_core.c:74-137 | No interleaving, late timeouts included, ever loses a wake-up if and only if there is at most one consumer thread |
| `WaitProtocol.LossBelowThreads` | src/grpc_core.c:74-137 | In every run fewer events than threads are queued beside a blocked thread, however many timeouts come late |
| `WaitProtocol.LossAttainedIff` | src/grpc_core.c:99-108 | k threads can lose m wake-ups to m late timeouts if and only if m < k |
| `WaitProtocol.LateTimeoutLosesWakeup` | src/grpc_core.c:99-108 | A concrete run in which a wait reports a timeout after being signalled, as POSIX permits, leaves an event queued beside a blocked thread |
| `WaitProtocol.ShutdownReleases` | src/grpc_core.c:99-137 | After shutdown, in every schedule that lets each thread inside next run on once, whatever else happens in between, all threads end outside |
| `WaitProtocol.OneReturnPerCall` | src/grpc_core.c:85-128 | In every interleaving each call begun is still inside or has returned once, and exactly those return a timeout whose wait ended in an error |
| `WaitProtocol.TimeoutTakesNothing` | src/grpc_core.c:99-108 | A wait that times out returns a timeout and leaves queue, flag and other threads alone |
| `WaitProtocol.SpuriousIsInvisible` | src/grpc_core.c:99-109 | A thread woken for nothing goes back to the wait and changes nothing |
| `WaitProtocol.QueueIsFifo` | src/grpc_core.c:61-137 | In every interleaving the events returned followed by the events queued are the events pushed, in order, and shutdown was reported only when every event pushed so far had been returned |
| `WaitProtocol.FifoFromStart` | src/grpc_core.c:45-137 | The same for every run from a new queue with any number of threads |
| `WaitProtocol.PushAfterShutdown` | src/grpc_core.c:61-83 | A concrete run in which an event pushed after shutdown was reported is returned, contrary to the documentation |
| `WaitProtocol.NoEventAddedIff` | src/grpc_core.c:61-137 | A run adds no event if and only if it contains no push, shut down or not; from an empty queue such a run returns none |
| `ConnectionPool.ConnectionPool.constructor` | src/connection_pool.c:137-151 | An empty pool with the defaults for non-positive arguments |
| `ConnectionPool.ConnectionPool.Get` | src/connection_pool.c:183-253 | Lends the first healthy connection to the target, else adds one, else fails when full; an evicting get frees the longest-idle connection and leaves its node linked |
| `ConnectionPool.GetOutcome` | src/connection_pool.c:183-253 | Which of these it is, from the list, the counter and the limit alone; a lent connection counts as used now by one call more, a new one comes first, in use since now, and a failed get changes nothing |
| `ConnectionPool.ConnectionPool.FindOldest` | src/connection_pool.c:205-218 | The unused connection with the longest idle time, each by its own clock reading, the first of those; -1 exactly when every connection is in use |
| `ConnectionPool.OldestIsLeastRecent` | src/connection_pool.c:205-218 | Each by its own clock reading, no unused connection has waited longer; if the clock stands still during the scan, none was used less recently |
| `ConnectionPool.OldestIsUnique` | src/connection_pool.c:205-218 | The choice is determined: ties go to the first in the list |
| `ConnectionPool.ConnectionPool.Return` | src/connection_pool.c:255-278 | Gives back one call on the matching connection; 0 exactly when there is one |
| `ConnectionPool.ReturnOutcome` | src/connection_pool.c:262-275 | A return takes one call off the first match, not below 0, counts as a use now, and changes nothing else |
| `ConnectionPool.ReturnRefreshes` | src/connection_pool.c:108-113 | A connection returned at t is still healthy at every tick within the idle timeout from t |
| `ConnectionPool.ConnectionPool.Tick` | src/connection_pool.c:97-122 | One keep-alive pass applied to every connection |
| `ConnectionPool.TickOutcome` | src/connection_pool.c:97-113 | A connection stays healthy exactly if it is in use, recently used, or there is no timeout; it is pinged exactly if a ping is due and allowed; nothing else changes |
| `ConnectionPool.ConnectionPool.CleanupIdle` | src/connection_pool.c:280-311 | Unlinks exactly the unused unhealthy connections, in order, and lowers the counter by their number |
| `ConnectionPool.KeptSplit` | src/connection_pool.c:288-308 | Clean-up treats the parts of the list separately, so the order stays |
| `ConnectionPool.MiscountStays` | src/connection_pool.c:288-308 | A list longer than the counter, as an eviction leaves it, stays so: clean-up repairs no miscount |
| `PoolRuns.PoolSafety` | src/connection_pool.c:91-311 | In every reachable state the list is as long as the counter and within the limit, unhealthy connections are unused, a target has one healthy connection at most, active calls equal leases out, and every lease is on a healthy connection that clean-up keeps |
| `PoolRuns.SweepKeeps` | src/connection_pool.c:97-122 | A tick and a clean-up keep a connection if and only if it is in use, or healthy and used within the idle timeout; every kept one in use was pinged within the interval |
| `PoolRuns.KeptKeeps` | src/connection_pool.c:288-308 | Clean-up drops exactly the discardable connections and preserves uniqueness |
| `PoolRuns.EvictionBreaksCount` | src/connection_pool.c:203-249 | A get, whether or not its connection can be made, keeps list length and counter equal if and only if it does not evict; an eviction leaves a freed node linked and the list one longer |
| `PoolRuns.GetKeepsIff` | src/connection_pool.c:183-253 | From a safe state a get leads to a safe state if and only if it does not evict |
| `PoolRuns.EvictionReachable` | src/connection_pool.c:203-223 | A new pool of one connection reaches an evicting get by getting one target, returning it and asking for another |
| `LoadBalancer.Policy.AddAddress` | src/load_balancing.c:205-232 | Appends the address, available, with a positive weight; the round-robin position stays in range |
| `LoadBalancer.Policy.Mark` | src/load_balancing.c:251-291 | Sets the availability of the first address with the name, and every other address and field stays; -1 exactly when there is none |
| `LoadBalancer.Policy.RoundRobinPick` | src/load_balancing.c:75-110 | The first available node at or cyclically after the position; the position advances by one and stays in range |
| `LoadBalancer.Policy.PickFirst` | src/load_balancing.c:116-135 | The first available node; NULL exactly when there is none |
| `LoadBalancer.Policy.WeightedPick` | src/load_balancing.c:141-181 | The node whose interval of cumulative weights contains the draw modulo the total |
| `PickShares.RoundRobinShare` | src/load_balancing.c:75-110 | Any address_count consecutive picks return each available node exactly 1 + the length of the unavailable run cyclically just before it |
| `PickShares.RoundRobinLongRun` | src/load_balancing.c:75-110 | Over any number of rounds the shares multiply without drift |
| `PickShares.PicksAvailable` | src/load_balancing.c:75-110 | Every pick of a run is NULL if and only if nothing is available, and otherwise an available node |
| `PickShares.PickMany` | src/load_balancing.c:75-110 | The picks the share theorems are about are what a client gets from consecutive calls |
| `PickShares.WeightedInterval` | src/load_balancing.c:163-177 | A draw selects a node if and only if it lies in that node's interval of cumulative weights |
| `PickShares.WeightedShare` | src/load_balancing.c:141-181 | Exactly weight(a) of the draws in [0, total) select an available node a, none an unavailable one |
| `PickShares.WeightedNeverFallsThrough` | src/load_balancing.c:163-180 | No draw below the total runs past the end of the list |
| `PickShares.TotalZeroIff` | src/load_balancing.c:148-161 | The total is 0 if and only if no node is available |
| `PickShares.WeightedPickIsAvailable` | src/load_balancing.c:141-181 | With any node available every draw picks an available node |

## Left out

- EncodeMetadata: says nothing about lists with a header of 2^32 bytes or more, whose length the source returns as a wrapped `int`.
- DecodeMetadata: covers inputs below 2^32 bytes; AdvanceIff shows that beyond that the source's loop need not advance.
- CreditConservation: takes check and consume as one step (RacingConservation separates them), assumes that each WINDOW_UPDATE is sent (LossyConservation does not), covers lengths below 2^31 (SendKeepsIff), and opens a stream at both ends in one step and keeps it open. Receiving is one step that completes; the self-deadlock of `src/flow_control.c:178` on an open socket is the subject of StuckIff and ReturnsIff.
- NoStall: under the same assumptions as CreditConservation.
- RacingConservation: covers numbers of senders and lengths for which 65535 + k*L is an `int32_t` (RacingNeverFailsIff covers all), and a fixed set of streams, open from the start; one opened later is one whose sender stays idle until then.
- RacingNoStall: under the same assumptions as RacingConservation.
- RacingRunsGoOn: under the same assumptions as RacingConservation.
- StuckIff: charging a stream window, which the source does without a lock, is one step.
- OverdraftBound: covers credit that keeps windows within 2^31 - 1.
- PoolSafety: covers runs without the evicting get of `src/connection_pool.c:220-223`, which leaves a freed node in the list (GetKeepsIff); callers return only what they hold.
- WeightedPick: needs the total weight to be an `int`; signed overflow is undefined in C.
- SendFrame: a short `send` is not modelled; an open socket takes the whole frame.
- NULL arguments, allocation failure, and the sizes passed to `malloc`.
- The `next` pointers of the pool's and the load balancer's lists; those lists are sequences. The completion queue's are modelled.
- `active_calls` beyond the range of `int`.
- `http2_connection_destroy` with live streams: it takes a mutex it already holds, so there is no completed run.
- Huffman coding, HPACK tables, SETTINGS, PING and the concurrent-stream limit, which the code does not implement or use.
- Sockets, TLS, compression, protobuf, name resolution, server threads, interceptors, reflection and observability: foreign calls, callbacks or easy list operations.
