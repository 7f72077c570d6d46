# eIPC in Dafny

A model of eIPC, the inter-process messaging stack of the EoS project, with
proofs of what its parts promise.  Each module follows one component:

| module | component |
|---|---|
| Bytes, ByteStreams, CMemory | big-endian integers, readers and writers, the C memory operations |
| Frames, Transport | the Go frame codec and length-prefixed connections |
| CFrames, CClient | the C SDK's frame codec against the Go one, and its way onto and off the wire |
| Sha256, Sha256Constants, Hmac | the C SDK's SHA-256 and HMAC, against FIPS 180-4 and RFC 2104 |
| Ring | the shared-memory ring buffer |
| Tensors, TensorCodec, TensorRegistry | tensor descriptors: validation, codec and message binding, live spans |
| Replay, MessageTypes, Endpoint | the replay window, wire types, client and server endpoints |
| Auth, Capability, Server, Connection, Session | challenge-response authentication, the capability checker, the server as a state machine, handleConnection, and a whole session from client to handlers |
| Router, Broker | priority dispatch and routing |
| JsonEscape | the C SDK's string escaping and scanning |

Code that changes state is a class or a method with a loop, tied by its contract
to a function of the old state; what the system promises is then proved about
that function for all inputs, all runs or all interleavings.  The server is a
state machine: one action is what a connection's goroutine does between two
calls of Receive, and actions of any number of connections interleave with
arbitrary other calls on the shared authenticator.  handleConnection is a method
over a byte stream that refines it, with other goroutines at work on the
authenticator between its steps, so what is proved of every run holds of what
the method does.  Sends of the broker and calls of the server's handlers go on
record in the object they are made on, and the theorems are about that record.

Inputs of the model: the clock, nonces and tokens, whether allocations and sends
succeed, how reads are chunked and where writes fail, the header codec and time
formatting (a pair of functions where decoding undoes encoding), JSON decoding
of payloads, what a broker's endpoints answer, and in the protocol modules
HMAC-SHA256 under the shared key (a function to 32 bytes, which CClient takes to
be the HMAC the C code is proved to compute).

Four promises do not hold everywhere, and the exact extent to which they hold is
proved:

- Validate's overflow guards are tight by one for one-byte dtypes.  The comment
  above Validate says a descriptor claiming less than its footprint is rejected;
  `Tensors.WrappingDescriptorAccepted` gives one that is accepted, and
  `Tensors.AcceptedMeansInside` says which accepted descriptors are safe to read.
- Send bounds header and payload by MaxFrameSize, Receive the whole encoding, so
  the top of the range is lost: `Transport.TopFrameLost` is a frame Send accepts
  and Receive refuses, `Transport.TopOfRangeRefused` covers all such frames and
  `Transport.StreamRoundTrip` says exactly which lists of frames get through.
- eipc_hmac_verify compares with zeros when the buffer for data over 65536 bytes
  cannot be allocated.  `Hmac.AcceptsHmacIff` says when it accepts exactly the
  HMAC.  The frames of the SDK are below that size (`CClient.Receive`).
- The ring compares its counters as they are, so it is a queue only until the
  write that wraps the head counter: `Ring.RingBuffer.Write` says that this write,
  and no other, wedges it, `Ring.Perform` that a sequence of calls is a run of the
  queue if and only if its accepted writes do not wrap the counter, and that no
  Read of a wedged ring returns a frame.  `Ring.WrapLosesFrames` gets there from a
  new ring.

Check everything with `dafny verify dfyconfig.toml`.

## Model

| member | source | states |
|---|---|---|
| Sha256.Context.constructor | sdk/c/src/eipc_sha256.c:81-88 | a new context has absorbed the empty message: initial hash value, nothing buffered, no bits counted |
| Sha256.Context.Transform | sdk/c/src/eipc_sha256.c:47-79 | the state becomes the FIPS 180-4 compression (section 6.2.2, steps 1 to 4) of the old state and the buffered block |
| Sha256.MacrosAreFips | sdk/c/src/eipc_sha256.c:32-38 | the shift-and-or macros are the functions of section 4.1.2, whose circular shifts are the language's own rotation |
| Sha256.Chooses | sdk/c/src/eipc_sha256.c:33 | bit by bit CH takes y where x is set and z elsewhere |
| Sha256.IsMajority | sdk/c/src/eipc_sha256.c:34 | MAJ is what at least two of the three have |
| Sha256Constants.KIsCubeRoot | sdk/c/src/eipc_sha256.c:13-30 | every round constant is the first 32 bits of the fractional part of the cube root of its prime (section 4.2.2) |
| Sha256Constants.PrimesInOrder | sdk/c/src/eipc_sha256.c:13-30 | those are the first 64 primes, in order, with none left out |
| Sha256Constants.IVIsSquareRoot | sdk/c/src/eipc_sha256.c:81-85 | every word of the initial hash value is the first 32 bits of the fractional part of the square root of its prime (section 5.3.3) |
| Sha256.WordIsBigEndian | sdk/c/src/eipc_sha256.c:53-58 | a schedule word, assembled with shifts, is the number its four bytes denote big-endian |
| Sha256.Schedule | sdk/c/src/eipc_sha256.c:53-61 | the two loops fill w with the message schedule W of section 6.2.2 |
| Sha256.Mix | sdk/c/src/eipc_sha256.c:63-73 | 64 turns of the assignment loop give the working variables of section 6.2.2, step 3 |
| Sha256.HashBlocksSplit | sdk/c/src/eipc_sha256.c:90-100 | hashing whole blocks and then the rest equals hashing the concatenation, for every split at a block boundary |
| Sha256.Context.Push | sdk/c/src/eipc_sha256.c:92-99 | after absorbing msg, one more byte b leaves the context that has absorbed msg+[b], whether or not a block fills up |
| Sha256.Context.Update | sdk/c/src/eipc_sha256.c:90-100 | a context that has absorbed msg has absorbed msg+data afterwards, so consecutive updates equal one update with the concatenation |
| Sha256.Context.PadBlock | sdk/c/src/eipc_sha256.c:102-119 | both padding branches (fewer than 56 buffered bytes, or more) leave the same padded message, hashed up to its last block |
| Sha256.PadIsStandard | sdk/c/src/eipc_sha256.c:102-128 | the padded message is whole blocks, the least such, starts with the message and 0x80, and ends in the bit length, exact below 2^61 bytes |
| Sha256.Context.Final | sdk/c/src/eipc_sha256.c:102-137 | a context that has absorbed msg writes the SHA-256 digest of msg and nothing beyond its 32 bytes |
| Sha256.Sum256 | sdk/c/src/eipc_sha256.c:139-144 | for every byte string the output is the FIPS 180-4 hash: padded (5.1.1), parsed into blocks (5.2.1), compressed in turn (6.2.2) |
| Sha256Constants.AbcDigest | sdk/c/src/eipc_sha256.c:139-144 | the hash of "abc" is the digest FIPS 180-4 gives as its one-block example, computed through all 64 rounds |
| Hmac.Sign | sdk/c/src/eipc_hmac.c:19-85 | for every key and data length, stack and heap path both compute H((K xor opad), H((K xor ipad), data)) of section 2 of RFC 2104; a failed allocation for data over 65536 bytes leaves zeros |
| Hmac.XorHalves | sdk/c/src/eipc_hmac.c:38-41 | the pads use XOR: the lowest bit of the result says whether the lowest bits differ, the rest is the XOR of the halves |
| Hmac.Verify | sdk/c/src/eipc_hmac.c:87-103 | the XOR/OR accumulator accepts exactly what sign leaves in its buffer |
| Hmac.AcceptsHmacIff | sdk/c/src/eipc_hmac.c:56-103 | that is exactly the HMAC if and only if the data is at most 65536 bytes or the allocation succeeds (or the HMAC is itself zero); otherwise the zero MAC and no other is accepted |
| ByteStreams.Source.ReadFull | transport/transport.go:74-90 | however Read chunks the stream, exactly n bytes are taken in order, or the stream is drained and the read fails |
| Frames.Encode | protocol/frame.go:52-80 | writes the wire form of the frame, or nothing when header+payload exceed MaxFrameSize |
| Frames.Decode | protocol/frame.go:83-134 | outcome and unread rest for every stream and every chunking: magic, version, size, then header, payload and flagged MAC |
| Frames.SignableBytes | protocol/frame.go:138-157 | builds the signed bytes, empty for a frame that does not fit |
| Frames.WireLayout | protocol/frame.go:14-80 | byte by byte: "EIPC", version, type, flags and the two lengths big-endian, header at 16, payload, and the MAC exactly when flags are odd and it has 32 bytes |
| Frames.FrameLimits | protocol/frame.go:14-19 | in numbers: a frame fits up to 1048576 bytes of header and payload; Decode produces version 1 only, with a MAC of 32 bytes exactly when flags are odd |
| Frames.ParsesWire | protocol/frame.go:52-134 | Decode on Encode(f) followed by anything returns f and leaves exactly what followed |
| Frames.ParseConsumesWire | protocol/frame.go:83-134 | whatever prefix Decode consumes is the encoding of the frame it returns, which is canonical |
| Frames.RoundTripDomain | protocol/frame.go:52-134 | an encodable frame comes back if and only if its version is 1 and its MAC is 32 bytes under FlagHMAC and absent otherwise |
| Frames.WirePrefixFree | protocol/frame.go:52-80 | no encoding is a prefix of another: the format is self-delimiting |
| Frames.SignableIsWireLessMac | protocol/frame.go:136-157 | the signed bytes are the encoding minus the MAC |
| Frames.SignableInjective | protocol/frame.go:136-157 | equal signed bytes mean equal frames up to the MAC: every other field is covered |
| CFrames.Encode | sdk/c/src/eipc_frame.c:18-90 | refuses null pointers; succeeds exactly when the lengths are within the structure and the encoding within buf_size, then writes the Go encoding and its length and touches nothing beyond; otherwise buffer and length are unchanged |
| CFrames.SignableBytes | sdk/c/src/eipc_frame.c:159-208 | writes exactly Go's signed bytes, or reports zero and leaves the buffer unchanged |
| CFrames.Decode | sdk/c/src/eipc_frame.c:92-157 | for every buffer the status of the first failing check, or the frame filled in and zeros beyond its lengths; null arguments refused |
| CFrames.DecodersAgree | sdk/c/src/eipc_frame.c:92-157 | on every buffer C decode succeeds exactly when Go Decode does with header at most 1024 and payload at most 4096, with equal fields, and the two refuse for matching reasons |
| CFrames.Interoperates | sdk/c/src/eipc_frame.c:92-157 | C decode reads back every canonical Go encoding the structure can hold |
| CClient.SendFrame | sdk/c/src/eipc_transport.c:176-203 | sends exactly the packet Go's Send would, or a prefix of it when a send fails, or nothing when the frame is refused |
| CClient.BuildAndSend | sdk/c/src/eipc_client.c:45-86 | the frame that goes out carries the message and the HMAC of its signed bytes, whatever memory is left; a bad header or an oversized payload sends nothing |
| CClient.Receive | sdk/c/src/eipc_client.c:253-275 | refuses exactly a missing or unconnected client and a missing message, reading nothing; otherwise outcome and unread rest for every stream: length, bound, body, decode, then the MAC if flagged; the integrity error is unreachable |
| CClient.SdkReachesServer | sdk/c/src/eipc_client.c:45-86 | a Go server with the same key accepts every frame the SDK sends whose header it can read, subject only to the replay window, and leaves what follows |
| CClient.ReceiversAgree | sdk/c/src/eipc_transport.c:205-237 | on every stream the SDK takes exactly the frames that pass the Go endpoint's decoding and MAC check and fit its structure, and the same frame |
| CClient.EndpointReachesSdk | core/endpoint.go:44-73 | the SDK takes every deliverable message a Go endpoint sends that fits its structure |
| Transport.Send | transport/transport.go:50-71 | a frame is refused exactly when it does not fit, and then nothing is written; success appends the length-prefixed encoding; a failed write leaves a prefix of it, within the length or past it as the error says |
| Transport.Receive | transport/transport.go:74-90 | outcome and unread rest for every stream: length, bound, body, decode, trailing bytes of the body ignored |
| Transport.ReceivesPacket | transport/transport.go:50-90 | a deliverable frame is received from in front of anything, and nothing of what follows is consumed |
| Transport.OnlyDeliverable | transport/transport.go:74-90 | only canonical frames whose whole encoding is within MaxFrameSize ever come out of Receive |
| Transport.StreamRoundTrip | transport/transport.go:50-90 | sending any list and receiving that many times gives the same list and an empty stream if and only if every frame is canonical and encodes to at most MaxFrameSize bytes |
| Transport.TopOfRangeRefused | transport/transport.go:79-82 | every canonical frame Send accepts but whose encoding exceeds MaxFrameSize is refused by length, its body left in the stream |
| Transport.TopFrameLost | transport/transport.go:79-82 | the witness: a payload of MaxFrameSize bytes and nothing else |
| Ring.RingBuffer.constructor | transport/shm/shm.go:53-71 | a new ring is an empty queue with the configured or default geometry, both counters at zero |
| Ring.SlotSizeIsShare | transport/shm/shm.go:54-63 | 256 slots and 65536 bytes unless configured; the slot size is the largest equal share of the buffer, up to 8192 |
| Ring.RingBuffer.Write | transport/shm/shm.go:75-100 | refuses a record over slotSize-2 and a full ring, otherwise appends exactly the signed bytes to the pending records, except that the write at head 2^64-1 wedges the ring; a wedged ring stays so |
| Ring.RingBuffer.Read | transport/shm/shm.go:104-152 | takes the oldest pending record and parses it; the invalid-length error is unreachable from a valid ring; a wedged ring gives nothing |
| Ring.RingBuffer.Len | transport/shm/shm.go:155-157 | the number of pending records, of a wedged ring too |
| Ring.SlotsApart | transport/shm/shm.go:91-92 | counters less than `slots` apart use slots that do not overlap |
| Ring.OtherSlot | transport/shm/shm.go:91-96 | a write never disturbs another pending slot |
| Ring.StoreAppends | transport/shm/shm.go:91-98 | over the flat byte array, a write is an append to the sequence of pending records |
| Ring.RecordRoundTrip | transport/shm/shm.go:118-151 | Read returns the written frame without its MAC exactly when it was within MaxFrameSize; otherwise the too-short error |
| Ring.Perform | transport/shm/shm.go:75-152 | any sequence of calls on one ring is a run of the queue if the accepted writes do not wrap the head counter, and leaves it wedged if they do; on a wedged ring no Read of any sequence returns a frame |
| Ring.WrapLosesFrames | transport/shm/shm.go:75-157 | the witness: after 2^64-1 writes and reads on a new ring the next Write succeeds, Len is 1 and Read returns nothing |
| Ring.RingRefinesFifo | transport/shm/shm.go:75-152 | over every sequence of Write and Read calls of frames within MaxFrameSize the outcomes are those of a bounded FIFO of frames modulo MAC |
| Ring.FifoConserves | transport/shm/shm.go:75-152 | over every run, accepted = delivered + pending, in order; at most `slots` frames are pending and no Read fails |
| Tensors.DtypeBytesIsWidth | protocol/tensor.go:30-65 | element sizes are the widths of the named dtypes: 32 and 16 bits for the floats, one byte for the packed ones, none for 6 and above 7 |
| Tensors.DigestOkIff | protocol/tensor.go:166-188 | a digest passes exactly if it is empty or 64 hexadecimal digits of either case, optionally after "sha256:" |
| Tensors.Validate | protocol/tensor.go:106-170 | returns the first failing check of the source's order, the extent compared in wrapping arithmetic; an unknown dtype is refused as such |
| Tensors.ComputeExtent | protocol/tensor.go:122-137 | the guarded loop computes the running extent in wrapping int64 arithmetic |
| Tensors.RunningModulo | protocol/tensor.go:122-137 | whenever the guards pass, the computed extent is 1+sum (shape[i]-1)*strides[i] modulo 2^64 |
| Tensors.NoWrapIff | protocol/tensor.go:129-136 | over an accepted descriptor no int64 step wraps if and only if a running extent of 2^62 never meets a term of 2^62 |
| Tensors.WideNeverMeets | protocol/tensor.go:129-136 | for two- and four-byte dtypes that never happens |
| Tensors.AcceptedIff | protocol/tensor.go:106-170 | apart from such a meeting, Validate accepts exactly the descriptors well-formed in exact arithmetic: a dtype of known width, 1 to 8 positive dimensions, footprint at most 2^62 and Size, span aligned to the width and not wrapping, name of at most 256 bytes, at most 32 claims of 1 to 128 bytes, a well-formed digest |
| Tensors.AcceptedMeansInside | protocol/tensor.go:97-153 | every in-shape element of an accepted descriptor, at the width of its dtype, is aligned and inside [Offset, Offset+Size) if and only if the exact extent is below 2^64 |
| Tensors.WideAlwaysInside | protocol/tensor.go:97-153 | accepted descriptors of two- and four-byte dtypes never let a reader leave the span |
| Tensors.WrappingDescriptorAccepted | protocol/tensor.go:129-138 | the witness: INT8, shape [2,2,2,2], strides [2^62-1,2^62,2^62,2^62], Size 0 is accepted although its exact extent is 2^64 |
| TensorCodec.EncodeTensor | protocol/tensor.go:191-229 | writes the descriptor's bytes, or refuses dimensions, strides or claim count and writes nothing |
| TensorCodec.AppendStringField | protocol/tensor.go:231-236 | appends a 16-bit length and the string |
| TensorCodec.ReadStringField | protocol/tensor.go:307-324 | outcome and unread rest for every stream: a length, its bound, then that many bytes |
| TensorCodec.DecodeTensor | protocol/tensor.go:242-305 | outcome and unread rest for every stream, each variable-length field within its bound |
| TensorCodec.DecodesEncoding | protocol/tensor.go:191-305 | DecodeTensor on Encode(d) followed by anything returns d and leaves what followed, int64 reinterpretation included |
| TensorCodec.DecodeConsumesEncoding | protocol/tensor.go:242-305 | whatever prefix DecodeTensor consumes is the encoding of the descriptor it returns |
| TensorCodec.TensorRoundTripDomain | protocol/tensor.go:191-324 | an encodable descriptor comes back if and only if its strings and claims are within the decode bounds |
| TensorCodec.PayloadRefusals | protocol/tensor_message.go:41-56 | MessagePayload succeeds exactly on valid descriptors that claim something; an invalid one is refused as Validate does, none at all or one without claims for the missing capability |
| TensorCodec.AttachExtract | protocol/tensor_message.go:36-77 | MessagePayload(d) names d's first claim, and TensorFromPayload on it returns d for exactly the capabilities d claims, and a mismatch error for all others |
| TensorCodec.ExtractedWasAttached | protocol/tensor_message.go:58-77 | a descriptor that comes out is valid, claims the message's capability, and its encoding is the front of the payload |
| TensorRegistry.Registry.Register | protocol/tensor_registry.go:51-71 | appends the span of a valid, non-empty, non-overlapping descriptor to its segment, otherwise changes nothing and says why |
| TensorRegistry.Registry.Deregister | protocol/tensor_registry.go:76-88 | splices out the first span at that offset, otherwise changes nothing |
| TensorRegistry.Registry.Spans | protocol/tensor_registry.go:93-104 | the result is strictly increasing by offset and has exactly the live descriptors |
| TensorRegistry.IncreasingUnique | protocol/tensor_registry.go:97-103 | such an enumeration is unique, so any sort gives it |
| TensorRegistry.RegisterIff | protocol/tensor_registry.go:41-71 | Register succeeds exactly when the descriptor is valid, of non-zero size and disjoint from every live span of its segment |
| TensorRegistry.RegisterKeeps | protocol/tensor_registry.go:51-71 | live spans stay non-empty, non-wrapping and pairwise disjoint, other segments are untouched, failure changes nothing |
| TensorRegistry.DeregisterExact | protocol/tensor_registry.go:73-88 | reports whether a span starts there, removes exactly that one, touches no other segment, keeps the invariant |
| TensorRegistry.RunKeeps | protocol/tensor_registry.go:51-88 | the invariant holds after every sequence of Register and Deregister calls |
| TensorRegistry.NoByteTwice | protocol/tensor_registry.go:12-24 | after any run no byte of a segment belongs to two live spans |
| TensorRegistry.LiveIff | protocol/tensor_registry.go:51-88 | after any run from the empty registry a span is live if and only if some call registered it and no later call deregistered its segment and offset |
| TensorRegistry.DeregisterFrees | protocol/tensor_registry.go:73-75 | a deregistered descriptor can be registered again at once |
| Replay.Tracker.constructor | security/replay/tracker.go:26-35 | a fresh window of the given size as uint64, 128 for zero |
| Replay.Tracker.Check | security/replay/tracker.go:38-63 | zero, stale and seen numbers are refused and change nothing; others are recorded, a new maximum after forgetting what falls out of the window |
| Replay.Tracker.Cleanup | security/replay/tracker.go:73-83 | exactly the numbers below the cutoff are forgotten |
| Replay.Tracker.Reset | security/replay/tracker.go:66-71 | back to a fresh window of the same size |
| Replay.CheckAgrees | security/replay/tracker.go:38-83 | one call accepts exactly what is non-zero, never accepted before and not more than the window below any accepted number, and the kept set stays exactly the accepted numbers in the window |
| Replay.PrunedWindowIsFullHistory | security/replay/tracker.go:16-63 | over every sequence of numbers each verdict is the one a tracker with full history gives |
| Replay.AcceptedOnce | security/replay/tracker.go:37-63 | no number is accepted twice in a run |
| Replay.WindowIsSmall | security/replay/tracker.go:73-83 | after any run the kept set is the accepted numbers in the window, at most windowSize+1 of them |
| MessageTypes.WireLetters | core/endpoint.go:242-306 | the twelve named types and their letters, by name, both ways: auth is A, challenge H, auth_response R, intent i and so on |
| MessageTypes.TypeRoundTrip | core/endpoint.go:242-306 | a message type survives the wire if and only if it is named, or another single ASCII byte, or U+00C3 |
| MessageTypes.ByteRoundTrip | core/endpoint.go:242-306 | a wire byte is sent again as itself if and only if it is below 128 or 0xC3 |
| MessageTypes.SdkLettersAgree | sdk/c/include/eipc_types.h:50-58 | the C SDK's message letters are the bytes Go sends for the same types |
| Endpoint.ClientEndpoint.Send | core/endpoint.go:44-73 | consumes the next sequence number whatever happens; success puts the signed frame on the connection; a header that does not marshal and a frame that does not fit are refused with nothing written |
| Endpoint.SendMessages | core/endpoint.go:44-73 | a new client sending a list, every Send succeeding, leaves on the connection exactly the frames numbered 1, 2, ... in order |
| Endpoint.ServerEndpoint.Receive | core/endpoint.go:194-231 | frame, then MAC if flagged, then header, then replay check: outcome, tracker and unread rest for every stream; a failed check leaves the tracker alone |
| Endpoint.ServerEndpoint.ValidateCapability | core/endpoint.go:135-148 | passes exactly the empty capability and the granted ones |
| Endpoint.ServerAcceptsIff | core/endpoint.go:194-231 | a stream is accepted if and only if its frame decodes, its MAC is right if flagged, its header is readable and its number is acceptable against the whole accepted history; a wrong MAC is an integrity error, an unreadable time becomes the zero time, and only acceptance moves the tracker |
| Endpoint.ClientAcceptsIff | core/endpoint.go:75-108 | a client accepts exactly a frame that decodes with the right MAC if flagged and a readable header, whatever its number |
| Endpoint.SentOpens | core/endpoint.go:44-108 | a sent frame has version 1 and FlagHMAC, verifies and opens to its own number and message |
| Endpoint.ClientGets | core/endpoint.go:75-108 | the client receives every deliverable message a server sends |
| Endpoint.ArrivesUnchanged | core/endpoint.go:220-230 | the message arrives unchanged up to its version exactly when its type survives the wire |
| Endpoint.OutcomesAreVerdicts | core/endpoint.go:194-231 | over a channel that drops, copies and reorders, each outcome is the replay verdict on the delivered number |
| Endpoint.AtMostOnce | core/endpoint.go:194-231 | the server accepts each sent message at most once |
| Endpoint.DeliveredIff | core/endpoint.go:194-231 | a delivered copy is accepted if and only if its message was not accepted before and no number more than 128 ahead was; it is then the message sent |
| Endpoint.InOrderAcceptsAll | core/endpoint.go:194-231 | in-order delivery, with or without drops, accepts everything |
| Endpoint.SequenceArrives | core/endpoint.go:44-231 | undisturbed, the server receives exactly what such a client sent, each message once and in order |
| Auth.Authenticator.Create | security/auth/identity.go:79-99 | a known service gets a new pending challenge in place of any older one; an unknown service or a failing random source changes nothing |
| Auth.Authenticator.Verify | security/auth/identity.go:103-140 | the pending challenge is consumed whatever the response; a right one creates a session with the configured capabilities under the new token |
| Auth.Authenticator.Validate | security/auth/identity.go:173-185 | returns the session of a token, unless its lifetime is positive and more than that has passed since the login; denies anything else, changes nothing |
| Auth.Authenticator.Revoke | security/auth/identity.go:193-197 | removes exactly that token's session |
| Auth.Authenticator.Cleanup | security/auth/identity.go:200-211 | the deleting loop removes exactly the sessions whose positive lifetime has passed and returns their number |
| Auth.Authenticator.SetTTL | security/auth/identity.go:71-75 | changes the lifetime of later sessions and nothing else |
| Auth.ReachableInv | security/auth/identity.go:79-140 | over every interleaving each session sits under its token with exactly the capabilities configured for its service |
| Auth.VerifiedIff | security/auth/identity.go:103-140 | a response is accepted if and only if it is the HMAC of the latest challenge for its service, not answered since; the session then gets the configured capabilities and the lifetime in force |
| Auth.AnswersInject | security/auth/identity.go:97-140 | successful responses answer pairwise different earlier challenges, and a new one lies between two successes of one service |
| Auth.SpentNeverAnswers | security/auth/identity.go:97-111 | a challenge that was answered or overwritten is never the one a later response answers |
| Auth.ValidIff | security/auth/identity.go:173-211 | with a clock that does not go back a token is good exactly when its last login was not revoked and the time since is within the lifetime in force at that login (one hour unless set; unbounded if not positive), cleanups or not; it then stands for the service that logged in |
| Auth.CleanupInvisible | security/auth/identity.go:199-211 | with such a clock, with every CleanupExpired call taken out of a run each other call is made with the same outcome |
| Capability.Checker.Check | security/capability/checker.go:35-47 | true exactly when some peer capability permits the action |
| Capability.Checker.Grant | security/capability/checker.go:50-58 | one action is added to one capability's set, created if missing |
| Capability.Checker.Revoke | security/capability/checker.go:61-68 | one action is taken from one capability's set, if there is one |
| Capability.GrantAddsOne | security/capability/checker.go:49-58 | a grant adds exactly one permission, to the holders of one capability |
| Capability.RevokeRemovesOne | security/capability/checker.go:60-68 | after a revocation exactly what is permitted some other way remains |
| Server.DispatchOnlyAuthorised | cmd/eipc-server/main.go:376-635 | on every interleaving a message is dispatched only after a TypeAuth challenge and then a verified TypeAuthResponse on its connection, no later than the lifetime in force at that login allows, with no capability or one configured for that service |
| Server.LoginAnswersLatest | cmd/eipc-server/main.go:462-528 | a login answers the latest challenge issued for its service on any connection, which nobody tried to answer since, and gives the configured capabilities from then on for the lifetime in force |
| Server.LoginsNeedFreshChallenges | cmd/eipc-server/main.go:399-528 | between two logins of one service, on whatever connections, a new challenge was issued |
| Server.NumbersDistinct | cmd/eipc-server/main.go:577-635 | no sequence number is accepted twice on one connection, handshake included |
| Server.NothingAfterFailure | cmd/eipc-server/main.go:376-596 | after a failed Receive, a refused handshake or an expired session nothing more happens on the connection |
| Server.AllowedIsConfigured | cmd/eipc-server/main.go:91-278 | a guarded handler reaches its allowed branch only if a capability configured for the logged-in service permits the action, or the allowlist grants it to the empty capability |
| Server.ShippedAllows | cmd/eipc-server/main.go:50-56 | with the shipped allowlist a decodable intent is allowed exactly under ui:control, chat and completion exactly under ai:chat, each for its own action |
| Server.ShippedPermissions | cmd/eipc-server/main.go:41-56 | what each service may do under the shipped tables, action by action: reboot and update ail.framework only, actuators nia.framework and ail.framework, and so on |
| Server.ShippedConfiguration | cmd/eipc-server/main.go:41-56 | with the shipped tables, on every run an allowed intent comes from a service other than ebot.client, allowed chat and completion from ebot.client |
| Server.HonestLogin | cmd/eipc-server/main.go:376-573 | a client that answers its own challenge is logged in with exactly its service's capabilities and the lifetime in force |
| Server.HonestDispatch | cmd/eipc-server/main.go:575-668 | once logged in, each in-order message within session and capabilities is dispatched as it was sent |
| Connection.Handlers.Dispatch | cmd/eipc-server/main.go:91-278 | records the message, and the report to the health service if it is a readable heartbeat; the guarded handler reaches its allowed branch exactly when the payload decodes and the message's capability permits the action, and replies exactly then if the reply marshals |
| Connection.RequestChallenge | cmd/eipc-server/main.go:376-460 | steps 1 and 2: only a TypeAuth message naming a known service, its challenge sent, leads on; anything else closes the connection |
| Connection.CheckResponse | cmd/eipc-server/main.go:462-573 | steps 3 and 4: only a TypeAuthResponse the authenticator verifies for that service leads on, with the peer's capabilities on the endpoint |
| Connection.Handshake | cmd/eipc-server/main.go:376-573 | the four steps, with any calls on the authenticator between them, are the machine's two handshake actions; nothing is handed to the handlers |
| Connection.ServeMessage | cmd/eipc-server/main.go:576-668 | one turn of the loop: a failed receive, an expired session and an unsent reply of a handler end it, a missing capability skips the message, all else and nothing else is handed to the handlers |
| Connection.MessageLoop | cmd/eipc-server/main.go:575-669 | on any stream, with any calls on the authenticator in between, the loop ends as the machine's connection does, having handed over exactly the messages its log says |
| Connection.HandleConnection | cmd/eipc-server/main.go:351-669 | on any byte stream, from any state of the server, with other goroutines doing anything to the shared authenticator between its steps, the outcomes and the effect on the authenticator are exactly the machine's, the handlers get exactly the dispatched messages, and from a reachable state the log is authorised |
| Connection.RunsOn | cmd/eipc-server/main.go:351-669 | running on from a state some run reached is the longer run, outcome by outcome |
| Connection.LogAuthorised | cmd/eipc-server/main.go:376-635 | of what handleConnection did: messages are handed over only after a TypeAuth challenge and a TypeAuthResponse with the HMAC of the service's last challenge, unanswered since; within the session and with no capability or one configured; no number is accepted twice; a failure is the last thing |
| Connection.CompleteUnique | cmd/eipc-server/main.go:351-669 | what happens on the connection is determined by the stream and what the rest of the world does |
| Connection.AnswersOwnChallenge | cmd/eipc-server/main.go:399-499 | if nobody else took a challenge for the service in between, the login carried the HMAC of its own connection's nonce |
| Session.HonestLog | cmd/eipc-server/main.go:351-669 | a client that answers its own challenge and sends any list of messages within session and capabilities: the call logs the challenge, the login with the configured capabilities and the lifetime in force, each message dispatched in order, and the end of the stream |
| Session.Converse | core/endpoint.go:44-73 | end to end, with other goroutines in between: if every Send of such a client succeeds, the handlers get exactly the messages it sent, once each and in order |
| Router.PriorityQueue.Swap | core/router.go:85-87 | two items exchange places, their index fields unchanged |
| Router.PriorityQueue.Pop | core/router.go:93-100 | returns and removes the last element |
| Router.PriorityQueue.Init | core/router.go:53 | establishes heap order and keeps the items |
| Router.PriorityQueue.HeapPop | core/router.go:57 | removes a least item, keeps the others and restores heap order |
| Router.DispatchBatch | core/router.go:35-62 | every message goes exactly once, in non-decreasing priority, to the handler of its type, which sees the state the earlier ones left; one without a handler yields nothing and changes nothing; results[i] is the outcome of messages[i] |
| Broker.Broker.Subscribe | services/broker/broker.go:42-50 | registers a named subscriber with an endpoint under its name, refuses anything else |
| Broker.Broker.Unsubscribe | services/broker/broker.go:52-59 | removes the subscriber and reports the endpoint it closes |
| Broker.Broker.AddRoute | services/broker/broker.go:61-76 | targets not yet listed are appended in order, once each |
| Broker.Broker.RemoveRoute | services/broker/broker.go:78-88 | the first occurrence of the target is removed, if there is one |
| Broker.SortByPriority | services/broker/broker.go:155-161 | the nested loops sort the array in place, stably: sorted, every priority lane unchanged |
| Broker.StableSortUnique | services/broker/broker.go:155-161 | that determines the result |
| Broker.Broker.Route | services/broker/broker.go:90-123 | the record of Send calls grows by one call per selected subscriber, in the stable priority order, and the results are what those calls returned |
| Broker.Endpoints.Send | services/broker/broker.go:106 | a call goes on record with its receiver, message and answer |
| Broker.RouteOrderStable | services/broker/broker.go:155-161 | that order is the stable sort of route order by priority |
| Broker.AddAllNoDup | services/broker/broker.go:61-76 | adding keeps the list duplicate-free, its old order, and has exactly the old and new targets |
| Broker.RunKeeps | services/broker/broker.go:42-88 | over every sequence of changes route lists stay duplicate-free and subscribers sit under their own names |
| Broker.StateIsHistory | services/broker/broker.go:42-88 | after any run, who is subscribed and what is routed is what the last relevant call said |
| Broker.ExactlyOnce | services/broker/broker.go:90-123 | after any run of subscription, route and Route calls, a Route makes exactly one Send call to each target routed and subscribed by that history, with the message, and no other call; in stable priority order, each answered in its turn |
| Broker.SendsAreOwed | services/broker/broker.go:42-123 | over a whole run the number of Send calls to a service is the number of Route calls made while it was routed and subscribed |
| JsonEscape.Escaped | sdk/c/src/eipc_json.c:111-147 | stays in bounds, writes the escape of the longest prefix that leaves room for the terminator, never half an escape, and the terminator |
| JsonEscape.ScanString | sdk/c/src/eipc_json.c:41-47 | from an opening quote the pointer loop stops exactly at the end of the string: the first quote with an even number of backslashes before it, or the end of the text |
| JsonEscape.ScanEnds | sdk/c/src/eipc_json.c:41-47 | skipping escapes in pairs finds that place, for every text |
| JsonEscape.EndUnique | sdk/c/src/eipc_json.c:41-47 | there is only one such place |
| JsonEscape.UnescapesEscape | sdk/c/src/eipc_json.c:111-147 | unescaping undoes escaping |
| JsonEscape.ScanStopsAtQuote | sdk/c/src/eipc_json.c:41-47 | started after an opening quote the scanner stops exactly at the quote that follows the escaped text |
| JsonEscape.CompleteIff | sdk/c/src/eipc_json.c:111-147 | the whole source is escaped exactly when its escaped form is shorter than the buffer |
| JsonEscape.WrittenIsFound | sdk/c/src/eipc_json.c:41-147 | what was written, quoted inside any text, is found again and unescapes to a prefix of the source, all of it exactly when it fitted |
| Bytes.BEDecodesEncoding | protocol/frame.go:58-63 | a value that fits comes back from its big-endian bytes |
| Bytes.BEEncodesDecoding | protocol/frame.go:89-106 | every byte string is the encoding of the number it denotes |

## Left out

- Endpoint.ClientEndpoint.Send: one call at a time; concurrent calls, where numbering and the two socket writes are separate steps, are not modelled. The run theorems assume fewer than 2^64 messages.
- Tensors.AcceptedMeansInside: for a one-byte dtype acceptance alone does not keep elements inside the span, so the condition on the exact extent stays.
- Hmac.Sign: scrubbing of key material and the timing of the comparison; only the values are modelled.
- JSON header marshalling (protocol/codec.go): a library call, taken as a pair of functions where decoding undoes encoding.
- Connection.HandleConnection: other goroutines act between its steps, through the authenticator they share; the handlers' record is that of this connection's calls. A timeout is a stream that ends there. Logging, audit entries and reply payloads are not modelled.
- Broker.Broker.Subscribe: keeps a value where the source keeps the caller's pointer, so later changes of the subscriber by its owner are not modelled.
- CClient.BuildAndSend: the JSON of the header comes in as bytes; formatting it, and reading a header on receipt, are not modelled.
- ServerEndpoint.Send: builds the same frames as ClientEndpoint.Send with its own counter; covered by the frame both build.
- sort.Slice in TensorRegistry.Spans is stood in for by an insertion; uniqueness of the result makes the choice of sort irrelevant. container/heap is modelled as its published sift-down algorithm.
- Slice aliasing in the in-place splices of Deregister and RemoveRoute: the lists are values here.
- Nil and empty byte slices are the same value.
- Sockets, TLS, the Unix and Windows transports, shm.Connection's polling loop, command-line clients.
- AES-GCM, key strength and randomness.
- The legacy Authenticate path, which the server does not use; Broker.Fanout and Broker.Subscribers, which add only easy members.
- The rest of sdk/c/src/eipc_json.c: first-match key search and snprintf formatting.
- Reconnection with backoff (core/lifecycle.go), policy engine, service registry, health, audit, key ring and configuration.
