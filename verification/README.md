# A verified model of InterProcessCourier

InterProcessCourier lets processes exchange Protocol Buffers messages as requests and responses over
Unix domain stream sockets. This project models its three layers and proves how they work together.

- **Transport.** A frame is a 4-byte host-order length and a payload. The client sends one frame and
  reads one back with two single `read_some` calls, each of which may come back short. The server
  accepts one client at a time; a session reads a header, reads a body, calls the handler and writes the
  response, until the stream ends, a write fails or an exception leaves it.
- **Payloads.** `type_name:serialized_bytes`, split at the first `:` by two separately written parsers,
  one that is told the type and one that looks it up in the descriptor pool.
- **Registries.** The server keeps two parallel maps, handlers and request-to-response names, filled
  under a duplicate strategy. The client copies the second map over the wire when it connects and
  validates each request against its copy.

## How the model is laid out

| part | modules |
|---|---|
| framing and payloads as pure functions | `Framing`, `Payload` |
| handlers and the sequential reference execution | `Handling` |
| sockets with arbitrary chunking, the two ends of the transport and the accept loop as classes over arrays | `Sockets`, `UnixDomainClient`, `UnixDomainServer`, `AcceptLoop` |
| any number of clients, the server and bounded byte channels as a transition system | `Protocol` |
| what every step keeps, and what follows in every reachable state | `Invariant`, `LockStep`, `Serialisation`, `Progress`, `Blocking`, `Delivery`, `Deadlock`, `Refinement` |
| registries, dispatch, `SyncServer` and `SyncClient` as classes | `Registry`, `SyncServers`, `SyncClients` |
| the layers together | `EndToEnd` |

The imperative classes are proved against pure functions (`SessionOn`, `RunOn`, `ReceiveOn`, `RegisterAll`,
`Put`, `Absorbed`), and the properties of those functions are lemmas. `SyncServers.RunIsFold` ties the server's
runs to a plain fold of the registered handlers over the requests. The transition system moves any non-empty
chunk per step and may schedule any process. `Refinement` ties it to the functions that the imperative
classes are proved against: its sessions to `SessionOn`, its client's reads to `ReceiveOn` and writes to
`Absorbed`, and the whole life of a server that has stopped to `RunOn`. A system error, an exception that is
not a system error and a returned error are told apart throughout.

Every lemma carries `{:induction false}`: the induction is written out.

## What the proofs say about the code

- Before a client's first error the protocol is in lock step, whatever the capacity of the channels.
- In every run, before an error or after, a call is blocked in exactly three ways (`BlockedIff`): both ends
  wait for room, the call is queued behind another client that the server waits for, or it is queued at a
  server whose `run` has ended. Both ends never wait for each other's bytes, not even after a short read
  (`NoMutualWait`): a client can lag behind the responses but is never ahead of them.
- Before the client's first error only the two queues can block it (`BlockedOnlyInQueue`), and they do. The
  server runs one session to its end before it accepts again, so a client that is connected and idle
  blocks the first call of the next client for as long as it stays (`QueuedCallBlocks`). `run` does not
  close the acceptor, which lives as long as the `SyncServer`, so when the server stops, a queued call
  stays blocked until its owner destroys the object (`AbandonedCallBlocks`). Both hold for every handler,
  channel and number of clients from two on.
- Every call before an error can be brought to its end (`CallEnds`): by steps of its own and of the server
  alone, unless it is held in the queue, and then only the client in front has to close and, if the
  server stops, its owner to destroy it.
- After a receive that came back short, a further call can block both processes for ever
  (`DeadlockAfterShortRead`, for every capacity from one byte up to 4 GiB, and below 2 GiB even if every
  read and write moves as much as it can), or succeed with a payload that
  no handler gave, because the rest of one body is read as a header (`FalseReplyAfterShortRead`, for every
  capacity through which a receive can succeed at all).
- A call can succeed exactly when the header and the response each fit the channel, because each is read
  with a single `read_some` (`RepliesFit`, `RequestCanSucceed`). A response longer than the socket buffer,
  the reflected map included, can never be received, as far as a read moves no more than the channel
  holds at one moment.
- The end-to-end type guarantee needs one guard: under `SilentOverride` a registration for the built-in
  reflection request replaces its handler. `ReflectionStays` says exactly when it stays,
  `OverriddenReflectionMisleads` shows, for every list of registrations that ends up with a misleading
  override, a validated request that meets `HandlerNotRegistered`.
  Under the guard no validated request does, whether or not it is answered and whether or not it could be
  serialized.
- Neither side looks at the outcome of serialization. A message that Protocol Buffers refuses is sent as
  one with empty data: `PayloadRoundTrip` says exactly when a message survives, and the end-to-end
  theorem promises the handler's message only if it could be serialized.
- `run` cannot return success, although `SyncServer::start` provides for it. A request that cannot be
  decoded, or has no handler, is a `std::runtime_error` that passes both `system_error` handlers, so it
  ends the server without unlinking the socket path; one client that disconnects before it
  has taken its whole response ends the server too, and one that stops reading but stays keeps it waiting.
- A handler that itself throws a system error with the code for end of file or a bad descriptor ends its
  session as though the client had disconnected, without a response.
- The length tests of src/SyncUnixDomainServer.cpp:67-69 and 78-80 are never reached, since the composed
  read throws on a short read: `ServerStops` rules out `NotEnoughBytesReceived`. (The first of them would
  not return its error either.)

## Model

| member | source | states |
|---|---|---|
| Framing.HeaderBijection | src/SyncUnixDomainClient.cpp:66-67 | The memory image of a 32-bit length and the length determine each other, for either byte order. |
| Framing.HeaderMeans | src/SyncUnixDomainServer.cpp:85-90 | Read as a number to the base 256 in the host's byte order, the header is the length. |
| Framing.SplitOfFrames | src/SyncUnixDomainClient.cpp:38-44 | The frames of any messages, followed by any unfinished tail, decode to those messages and that tail. |
| Framing.SplitRejoins | src/SyncUnixDomainServer.cpp:64-82 | Decoding any stream loses no byte and leaves no complete frame behind. |
| Framing.SplitAppend | src/SyncUnixDomainServer.cpp:33-51 | Later bytes never change messages already decoded; decoding can be resumed from the remainder. |
| Framing.FramesPrefix | src/SyncUnixDomainServer.cpp:85-93 | Unique decoding: a stream that starts with some messages' frames starts with those messages. |
| Sockets.Socket.ReadFull | src/SyncUnixDomainServer.cpp:66 | The composed read fills the buffer with the next bytes whatever the chunks, or throws at the end of the stream. |
| Sockets.Socket.WriteFull | src/SyncUnixDomainServer.cpp:98 | The composed write delivers everything, or throws after exactly what the peer still took. |
| Sockets.FrameBuffer | src/SyncUnixDomainClient.cpp:39-44 | The two copies lay out header and payload without overlap or gap. |
| Payload.SplitOfCreated | src/ProtobufTools.cpp:23-39 | The first-delimiter split of a created payload returns the name and the data, even if the data holds ':'. |
| Payload.PayloadInjective | src/ProtobufTools.cpp:23-25 | Equal payloads come from equal names and equal data. |
| Payload.PayloadRoundTrip | include/InterProcessCourier/detail/ProtobufTools.hpp:42-48 | A message survives the trip through its payload, by either parser, exactly if it could be serialized or is what empty data stands for. |
| Payload.ParsersAgree | src/ProtobufTools.cpp:31-61 | Typed parser succeeds with m exactly if the dynamic one does with m of that type; both call the same payloads malformed; what is accepted is tagged with its type. |
| Payload.MalformedIff | src/ProtobufTools.cpp:31-36 | Either parser reports InvalidFormat exactly if the payload holds no ':'; every other payload is a name without ':', a ':' and data. |
| Payload.TypedParse | include/InterProcessCourier/detail/ProtobufTools.hpp:50-74 | For every name and all data: TypeMismatch exactly if the name is not the expected one, DeserializationFailed exactly if it is and the data does not parse as it, and otherwise the message parsed. |
| Payload.DynamicParse | src/ProtobufTools.cpp:38-60 | For every name and all data: DeserializationFailed exactly if the name is no known type or the data does not parse as it, never TypeMismatch, and otherwise the message parsed. |
| Payload.WrongTypeIsMismatch | include/InterProcessCourier/detail/ProtobufTools.hpp:60-66 | The typed parse of any message's payload, serialized or not, reports a mismatch exactly if it asks for another type, and never a malformed payload. |
| Payload.ParsesAsItsType | src/ProtobufTools.cpp:31-61 | A created payload is never malformed or of an unknown type: it stands for a message of its type, the one created if it could be serialized. |
| UnixDomainClient.SyncUnixDomainClient.Connect | src/SyncUnixDomainClient.cpp:24-32 | Success exactly if the peer accepts; a failure leaves the client as it was. |
| UnixDomainClient.SyncUnixDomainClient.SendMessage | src/SyncUnixDomainClient.cpp:38-53 | Success exactly if the peer took the whole frame; otherwise the part it took is a prefix of the frame. |
| UnixDomainClient.SyncUnixDomainClient.ReceiveMessage | src/SyncUnixDomainClient.cpp:55-81 | Success exactly if a whole frame was there and no read came back short, and then it consumed that frame and returned its payload; a failure consumed a strict prefix of a frame, and its code tells a short read from the end of the stream. Result and bytes taken are the pure function of the two read sizes. |
| UnixDomainServer.SyncUnixDomainSession.ReadHeader | src/SyncUnixDomainServer.cpp:64-72 | Consumes four bytes and returns their length, or throws the socket's error; never returns an error. |
| UnixDomainServer.SyncUnixDomainSession.ReadBody | src/SyncUnixDomainServer.cpp:74-94 | Consumes the body, calls the handler once on it and lays out the framed response; on a short stream the handler is not called. |
| UnixDomainServer.SyncUnixDomainSession.WriteResponse | src/SyncUnixDomainServer.cpp:96-104 | Writes the whole response, or returns UnableToSendMessage after the part the peer took. |
| UnixDomainServer.SyncUnixDomainSession.Round | src/SyncUnixDomainServer.cpp:33-61 | One pass of the loop: takes exactly the next frame, or ends as the stream, the handler or the write does. |
| UnixDomainServer.SyncUnixDomainSession.Start | src/SyncUnixDomainServer.cpp:31-62 | Terminates; calls, bytes written, state and ending are those of the pure session on the peer's stream, whatever the chunks. |
| UnixDomainServer.SessionCalls | src/SyncUnixDomainServer.cpp:31-94 | The calls are the reference execution of the first complete frames, and there are at most a quarter as many as the stream has bytes. |
| UnixDomainServer.SessionRefines | src/SyncUnixDomainServer.cpp:31-104 | A session ends in one of three ways: all complete frames answered, the handler threw, or the peer stopped reading; the bytes written are the responses' frames and a trailing partial frame is never handled. |
| UnixDomainServer.SessionEnds | src/SyncUnixDomainServer.cpp:52-61 | Exactly when a session ends how: end of file and a bad descriptor, from reading or from the handler, are a normal end, any other system error is returned, another exception escapes, and UnableToSendMessage means that the peer stopped reading. |
| AcceptLoop.SyncUnixDomainServer.Run | src/SyncUnixDomainServer.cpp:113-134 | Sessions, state and outcome are those of the pure run; each client is sent its own session's bytes and no other; the path is unlinked exactly if an error is returned, and success is never returned. |
| AcceptLoop.RunServesInOrder | src/SyncUnixDomainServer.cpp:116-128 | The calls of all sessions laid end to end are those of one process serving them in order. |
| AcceptLoop.RunOutcomes | src/SyncUnixDomainServer.cpp:116-133 | Only the last session may end with an error or exception, and that error or exception is the outcome; otherwise no peer is left over and the outcome is GeneralServerError. |
| AcceptLoop.EscapedIff | src/SyncUnixDomainServer.cpp:52-59 | An exception leaves `run` exactly if some handler call in some session threw one that is not a system error. |
| Invariant.StepKeeps | src/SyncUnixDomainServer.cpp:31-134 | Every step of every process keeps the invariant over channels, phases, sessions and their ends, accept order and handler log. |
| Invariant.ReachableInv | src/SyncUnixDomainServer.cpp:31-134 | The invariant holds in every state of every run. |
| LockStep.HandledAreIssued | src/SyncUnixDomainServer.cpp:74-83 | The server handles only requests the client issued, in order and unaltered: the complete frames it took. |
| LockStep.AfterHandling | src/SyncUnixDomainServer.cpp:82-104 | Once the running request is handled, its channel is empty and what is in flight back is exactly the rest of its response. |
| Serialisation.LockStepHolds | src/SyncUnixDomainClient.cpp:38-90 | Bytes sent are bytes consumed plus bytes in flight both ways, at most one request is outstanding, and the n-th successful receive is the handler's response to the n-th request. |
| Serialisation.ReaderAligned | src/SyncUnixDomainClient.cpp:55-81 | Until its first error the client reads at frame boundaries, and it never consumes anything but response bytes. |
| Serialisation.ClientsAreSerialised | src/SyncUnixDomainServer.cpp:113-128 | The global handler log is the concatenation, in accept order, of each session's complete frames, executed by one process one client after another; each client gets the responses of that execution. |
| Serialisation.PartialFrameUnhandled | src/SyncUnixDomainServer.cpp:74-83 | What is handled is among the complete frames the client has sent. |
| Serialisation.ServerOutcome | src/SyncUnixDomainServer.cpp:113-134 | In every reachable state the path is unlinked exactly if `run` returned an error; an exception leaves it linked. |
| Serialisation.ServerStops | src/SyncUnixDomainServer.cpp:52-61 | Read off the steps: for each outcome, exactly which step causes it; end of file and bad descriptor never stop the server. |
| Blocking.BlockedIff | src/SyncUnixDomainServer.cpp:113-134 | In every run, whatever came before and wherever it stands, a call is blocked exactly if both ends wait for room, it is queued behind another client that the server waits for, or it is queued at a server whose `run` has ended, for every capacity of at least one byte. |
| Blocking.NoMutualWait | src/SyncUnixDomainClient.cpp:55-77 | In no run, before an error or after, do a client and its session wait for each other's bytes. |
| Progress.BlockedOnlyInQueue | src/SyncUnixDomainServer.cpp:113-134 | Before the client's first error a call is blocked exactly while it is queued, behind a client that the server waits for or at a server whose `run` has ended; once accepted, never, for every capacity of at least one byte. |
| Progress.AdvanceIsCloser | src/SyncUnixDomainServer.cpp:31-104 | Each step of a running call or its session ends the call or the session, or strictly decreases a measure over unmoved bytes and phases. |
| Progress.OwnStepIsCloser | src/SyncUnixDomainClient.cpp:46-79 | Whatever came before, and with or without a server, each step of a calling client ends the call or strictly decreases what it has left. |
| Progress.GoneCallEnds | src/SyncUnixDomainClient.cpp:78-80 | A call whose session has ended, or whose server has been destroyed, can end in one step. |
| Progress.OtherSteps | src/SyncUnixDomainServer.cpp:116-128 | No other client's step touches the running call. |
| Progress.CallEnds | src/SyncUnixDomainServer.cpp:113-134 | Every call before the first error can be brought to its end: running, gone or next in the queue by advancing steps alone, held in the queue with the closing of the client in front and the destruction of a stopped server besides. |
| Deadlock.QueuedCallBlocks | src/SyncUnixDomainServer.cpp:116-128 | For every handler, channel and number of clients from two on: a run in which an idle client blocks the first call of the next one. |
| Deadlock.AbandonedCallBlocks | src/SyncUnixDomainServer.cpp:120-125 | For the same: a run in which `run` has returned an error and a call in the queue stays blocked, the acceptor still being open. |
| Deadlock.DeadlockAfterShortRead | src/SyncUnixDomainClient.cpp:60-75 | For every capacity of one byte or more a run exists in which a short read and a further call block both ends; below 2 GiB one in which every read and write moves as much as it can. |
| Deadlock.FalseReplyAfterShortRead | src/SyncUnixDomainClient.cpp:72-75 | For every capacity that admits any receive, a run in which after a short read a call succeeds with a payload that is no response of the handler, before the handler was called. |
| Delivery.RepliesFit | src/SyncUnixDomainClient.cpp:60-75 | A receive succeeds, before an error or after, only if the header and the payload each fit the channel. |
| Delivery.CallCanSucceed | src/SyncUnixDomainClient.cpp:60-77 | If they fit, an answered call can return the handler's response. |
| Delivery.CanBeHandled | src/SyncUnixDomainServer.cpp:33-47 | Every running request can be brought to the handler, which is called on exactly that request. |
| Delivery.RequestCanSucceed | src/SyncUnixDomainClient.cpp:83-90 | Any running call whose handler answers can return that answer, if header and response fit the channel: the converse of RepliesFit. |
| Refinement.StepsRefineSession | src/SyncUnixDomainServer.cpp:31-104 | In every reachable state a connection is the session function on the bytes taken: an ended one exactly, with its calls, bytes, state and end, and a running one up to the call that is due and a prefix of the bytes. |
| Refinement.StoppedIsRun | src/SyncUnixDomainServer.cpp:113-134 | The whole life of a stopped server is the pure run of the accept loop on the peers it met: sessions, state, outcome and handler log. |
| Refinement.EscapesIff | src/SyncUnixDomainServer.cpp:129-133 | A stopped server ended with an exception exactly if some handler call threw one that is not a system error. |
| Refinement.WritesRefineSend | src/SyncUnixDomainClient.cpp:46-50 | The write steps of a call are the send of the client class: a last one leaves the peer with the whole frame, a failing one with a strict prefix of it. |
| Refinement.ReadsRefineReceive | src/SyncUnixDomainClient.cpp:60-77 | The client's two read steps, with any bytes arriving in between, are the receive function on the server's stream: result, bytes taken and error. |
| Refinement.ShortReadRefinesReceive | src/SyncUnixDomainClient.cpp:60-64 | The same for a header read that comes back short. |
| Refinement.FailedReadRefinesReceive | src/SyncUnixDomainClient.cpp:78-80 | The same for either read throwing. |
| Registry.PutAllIsFold | src/DuplicateRegistrationHandler.cpp:23-42 | Last registration wins under SilentOverride, the first one otherwise. |
| Registry.PutAllKeys | src/DuplicateRegistrationHandler.cpp:23-42 | A key is stored exactly if it was registered. |
| Registry.AnswerMeans | include/InterProcessCourier/SyncCommons.hpp:34-39 | False exactly for a duplicate under IndicateIgnore, an exception exactly for one under Throw; the map changes exactly if the key is new or overridden. |
| SyncServers.RegistryInvariant | include/InterProcessCourier/SyncServer.hpp:180-189 | After any registrations both maps have the same keys and each recorded name is its handler's response type. |
| SyncServers.RegistryIsFold | include/InterProcessCourier/SyncServer.hpp:132-154 | The handler map is the fold of the registrations with the built-in one first. |
| SyncServers.ReflectionStays | src/SyncServer.cpp:43-52 | The built-in handler stays exactly if no registration of its own request overrides it. |
| SyncServers.ResponsesAreTagged | src/SyncServer.cpp:67-84 | A known request is dispatched, and any response is a payload of the type recorded for it that parses back if it could be serialized. |
| SyncServers.DispatchIff | src/SyncServer.cpp:67-84 | For every payload: undecodable exactly if it stands for no message, as one without ':' never does; without a handler exactly if it stands for a message of a type that has none; dispatched otherwise. |
| SyncServers.HandlerIsCalled | include/InterProcessCourier/SyncServer.hpp:180-189 | For every payload that stands for a message with a handler, the outcome is that handler's: the state it left, its answer tagged and serialized, or its own exception; for any other it is an exception that is not a system error, with the state left alone. |
| SyncServers.ServingIsFold | src/SyncServer.cpp:67-84 | Serving any requests leaves the state that folding the registered handlers over them leaves. |
| SyncServers.RunIsFold | src/SyncUnixDomainServer.cpp:113-134 | Every run of the server folds the registered handlers over all requests it takes up, and ends with an exception exactly if one of them was undecodable, had no handler, or made its handler raise an exception that is not a system error. |
| SyncServers.RejectedEscapes | src/SyncServer.cpp:30-38 | Wherever in a run a request comes up that stands for no message with a handler, it is the last call ever made, is answered with no byte though all before it were answered in full, and leaves `run` as an exception. |
| SyncServers.SyncServer.constructor | src/SyncServer.cpp:26-53 | Construction leaves exactly the built-in registration. |
| SyncServers.SyncServer.RegisterHandler | include/InterProcessCourier/SyncServer.hpp:132-142 | Both maps and the answer are those of the registration function. |
| SyncServers.SyncServer.RegisterDuplicate | include/InterProcessCourier/SyncServer.hpp:144-154 | Either both maps are overridden or neither changes, as the strategy says. |
| SyncServers.SyncServer.Reflect | src/SyncServer.cpp:43-52 | The response holds exactly the server's pairs, for any iteration order; its payload is what dispatch answers for the built-in handler. |
| SyncServers.SyncServer.Start | src/SyncServer.cpp:55-63 | Every returned result is RuntimeError, an escaping exception is not reported at all, and each client gets its session's bytes. |
| SyncClients.SyncClient.RegisterRequestResponsePair | include/InterProcessCourier/SyncClient.hpp:151-163 | A new pair, or any under ServerReflection or SilentOverride, is stored with answer true; any other duplicate leaves the map alone and answers true, false or with an exception, as the strategy says. |
| SyncClients.ClientRegistryIsFold | include/InterProcessCourier/SyncClient.hpp:90-101 | A client holds exactly the pairs of its deciding registrations: the last for each request under ServerReflection, whatever the strategy, or SilentOverride, and the first otherwise. |
| SyncClients.ManualValidation | include/InterProcessCourier/SyncClient.hpp:187-207 | Without validation every pair is valid; under ManualRegistration exactly those that the deciding registrations name. |
| SyncClients.SyncClient.RegisterDuplicate | src/SyncClient.cpp:74-86 | The pair is overridden or left alone, and the answer given, as the strategy says. |
| SyncClients.SyncClient.SendAndReceiveMessage | src/SyncClient.cpp:88-101 | Success exactly if a whole frame went out and one came in without a short read; the two errors say which half failed and where it left the stream. |
| SyncClients.SyncClient.SendRequest | include/InterProcessCourier/SyncClient.hpp:186-224 | Without validation never a bad pair, with either kind exactly if the request is not registered or is registered with another response; a bad pair moves no byte; an unparsable reply means exactly one frame each way; every other error says where the stream stands; a result is the typed parse of the one reply frame. |
| SyncClients.SyncClient.MergePairs | src/SyncClient.cpp:66-69 | The merge overrides the old map by the reflected one for any iteration order; no key is lost. |
| SyncClients.SyncClient.ReflectRequestResponseMappingPairs | src/SyncClient.cpp:54-72 | The bootstrap request passes validation; success exactly if one frame went each way and the reply parses; the map becomes old, then reflection pair, then the server's pairs. |
| SyncClients.SyncClient.Connect | src/SyncClient.cpp:38-52 | The client holds the new connection exactly if it was made; reflection happens exactly under ServerReflection; every outcome says what became of the map and the stream. |
| EndToEnd.ReflectionIsFaithful | src/SyncServer.cpp:43-52 | In every run a received reply to a reflection request parses to the server's whole map. |
| EndToEnd.KnownRequestIsHandled | src/SyncServer.cpp:67-84 | A request of a registered type never meets a missing handler: the handler of its type is called on it, or on what empty data stands for if it could not be serialized, in the state left by all handlers called before, and its state, answer or exception is the outcome. |
| EndToEnd.ValidatedRequestsAreTyped | include/InterProcessCourier/SyncClient.hpp:186-224 | End-to-end type safety: a client that reflected first has learned exactly the server's map; every validated request that the server takes up, answered or not, reaches the handler of its type, in the state left by all handlers called before; and a reply is never of the wrong type and parses to exactly the message that handler answered if it could be serialized. |
| EndToEnd.SoundSetupsExist | include/InterProcessCourier/detail/ProtobufTools.hpp:42-74 | What is assumed of Protocol Buffers and of the registrations can be met, for any types, registrations and message. |
| EndToEnd.OverriddenReflectionMisleads | include/InterProcessCourier/SyncServer.hpp:144-154 | The guard is needed: whatever else is registered, if the last override of the built-in handler names a pair that the server lacks, a validated request finds no handler. |

## Left out

- Boost.Asio, the operating system's sockets, `listen`, `unlink` and the 100 ms sleeps: channels and sockets are abstract, a failing `listen` counts as a failing accept, and time has no part.
- The host's byte order: an uninterpreted constant, so results hold for both orders.
- Protocol Buffers internals: serialization, which may refuse a message, and parsing are functions with an assumed round-trip law; a missing descriptor and a missing prototype are one case; that the bytes of a map may come in any order is not modelled.
- Payloads of 2^32 bytes or more and type names of 1 GiB or more: excluded by the types.
- Error message texts, `shortenPayload`, the formatters and the tables of error names: fixed text, with no bearing on the protocol.
- `getProtocol`, `getLibraryVersion` and the generated documentation.
- The callback that hands a duplicate registration back to its registry is written out in each registry, and a strategy value outside the enumeration is not modelled.
- Reconnecting a connected client, and registering handlers while the server runs: include/InterProcessCourier/SyncServer.hpp:119 asks for registration first.
- C++ templates and lifetimes: a type is its full name and its messages. Exceptions for exhausted memory are not modelled.
- Handlers that do not terminate, and starting a server again after `start` has returned.
- Reads and writes are atomic: each moves at most what the channel holds, or has room for, at one moment.
- In the transition system a client uses one connection, a refused connection is not a step, and replies after the client's first error are recorded apart from those before it.
- Progress.CallEnds: says that a call can be brought to its end; that a scheduler does so needs fairness, which is not modelled, though Progress.AdvanceIsCloser and Progress.OwnStepIsCloser bound the steps. That the client in front closes, and the owner of a stopped server destroys it, is their decision.
- Deadlock.DeadlockAfterShortRead: channels of 4 GiB or more are not covered.
- UnixDomainServer.SyncUnixDomainSession.Start: a write fails once the peer takes no more bytes; the errors of reading and writing are fixed for each socket.
- AcceptLoop.SyncUnixDomainServer.Run: each accepted connection is a fresh socket, made from the connections that clients will make in the order they are accepted.
