# mpubsub: a verified model of the protocol engine

mpubsub publishes small datagrams to IPv6 multicast groups: a 12-byte header, a payload that is plain or
sealed with ChaCha20-Poly1305, a topic known by its CRC-32, a replay guard on the receiving side, and an
optional protobuf-style encoding of the payload. The same engine exists as a C++ component, a Python
library and a Go bridge. This project models the parts where the three have to agree, or where the code is
far from its definition, and proves that it meets that definition.

Code that works in place (limbs, ring, buffers, hash state, tables of the asyncio client, datagram
buffers) is a class or a method on arrays, proved against a function of values; what the design promises
is then proved about those functions, over every input or every run. Machine words are naturals below
their bound, and each truncation of the source is written out, so that the absence of wrap-around is a
theorem. Clocks, random words, the kernel's answers and the order of events are inputs.

| modules | what they cover |
|---|---|
| `Bits`, `Words`, `Options` | bitwise operators as arithmetic, words, little-endian numbers |
| `MachineWords` | those operators against Dafny's bit vectors |
| `Poly1305Limbs`, `Poly1305`, `ChaCha20`, `Aead` | the vendored cipher against sections 2.3 to 2.8 of RFC 8439 |
| `ChaChaMachine`, `ChaChaVectors` | the cipher's rounds on machine words, and the vectors of RFC 8439 |
| `ReplaySpec`, `ReplayGuards` | one decision procedure and its safety; the C++, Python and Go guards |
| `Varint`, `Schema`, `Proto`, `ProtoLaws`, `ProtoRoundTrip` | the schema-driven codec |
| `ProtoGrammar` | its bytes against the protobuf encoding, stated apart from the code |
| `CanonicalSchema` | the canonical schema string and the schema id |
| `Sha256`, `TopicHash` | streaming SHA-256 (FIPS 180-4), the CRC-32 of IEEE 802.3, the multicast group |
| `ShaMachine`, `ShaConstants`, `ShaVectors` | its rounds on machine words, its constants, a known digest |
| `CrcMachine`, `PacketKeystream`, `PacketVector` | the known datagram that pins the implementations to each other |
| `SubscriptionTable`, `AioReceive`, `AioSubscriptions`, `AioRetransmit` | the asyncio client |
| `IndexAgreement` | the client's look-up, dispatch and guard against those of the C++ component, over whole runs |
| `Wire`, `Pipeline`, `PipelineRuns`, `MulticastPubSub` | the envelope and the C++ component, end to end |

`dafny verify dfyconfig.toml` checks everything.

## What does not hold as documented

* The three replay guards are said to make the same decision (`wire.py:428-430`, `replay.go:5-8`). They do not,
  for two reasons.
  * They are built with different capacities: 64 in the component (`replay_guard.h:112`), 4096 in the bridge
    (`bridge.go:97`) and in the asyncio client (`aio.py:38`); the default of the Python class is 128
    (`wire.py:436`). Guards of two capacities decide alike on every run if and only if the capacities are
    the same, or the guard is off (`ReplaySpec.CapacitiesAgreeIff`). The input: 65 messages and the first of
    them again, which the component accepts and the others reject (`ReplayGuards.SixtyFiveAndReplay`).
  * The Go guard computes `now - window` in unsigned arithmetic. Below the window it forgets what it has
    just recorded and accepts an immediate replay, whatever the capacities (`ReplayGuards.ForgottenReplay`).
  * `ReplayGuards.GoAgreesIff` has both: a guard of some capacity and the Go guard of another take the same
    decisions, on all runs whose clock readings come from a set, if and only if the capacities are the same
    up to 2^32 and the subtraction is harmless at every reading of the set (or the guard is off, or the set is
    empty). `ReplayGuards.AsConfigured` says what that means for the bridge beside the component and beside
    the asyncio client.
* A receiver is said to drop a packet whose nonce it has already seen within the window
  (`docs/PROTOCOL.md:292-297`). While the clock does not go back, a message that comes again within the
  window is accepted if and only if the guard has accepted, since it last accepted that one, at least as
  many as it holds (`ReplaySpec.ReplayAcceptedIff`).
* `replay_guard.h:91-93` and `replay.go:81-83` say that insertion order follows timestamp order, so that
  nothing expired stays behind the front. A sender whose clock is ahead followed by one whose clock is
  behind breaks both (`ReplaySpec.SkewedSendersDisorder`). The order holds throughout a run if and only if
  each accepted message is stamped no earlier than the last one still remembered
  (`ReplaySpec.InOrderThroughoutIff`), and pruning leaves nothing expired, at any reading throughout the run,
  if and only if the same is true (`ReplaySpec.PrunesCleanThroughoutIff`). The safety of the guard does not
  rely on it.
* The documentation says that the lines of the canonical schema string are sorted by tag
  (`docs/PROTOCOL.md:127-129`, `docs/TYPED_MESSAGES_PLAN.md:80`); all implementations sort them as strings,
  so tag 10 comes before tag 2. `CanonicalSchema.SortedByTagIff` says when the two orders coincide.
* The schema id is said to change with any field's name, type, tag or repeated flag
  (`docs/PROTOCOL.md:131-132`, `docs/TYPED_MESSAGES_PLAN.md:87-90`).
  * The canonical string does change: with any change of one field (`CanonicalSchema.OneChangeShows`) and
    with a field more (`CanonicalSchema.OneMoreShows`), whatever the names contain.
  * It does not tell all schemas apart, because a name may hold a newline: every valid schema of two or
    more fields prints like a valid schema of one (`CanonicalSchema.OneFieldTwin`). A valid schema shares its
    string with another one if and only if it has two or more fields, or one whose name splits, at a newline,
    into a shorter name and a further valid field that sorts behind (`CanonicalSchema.TwinIff`). Between
    schemas whose names are on one line only the order of the fields is lost
    (`CanonicalSchema.CanonicalIffPermuted`).
  * The id need not change even with names on one line: in every valid schema, any field has two such names
    between which renaming it keeps the id (`CanonicalSchema.RenamingKeepsId`). Two ids agree if and only
    if the remainder, modulo the CRC generator, of the difference of the canonical strings has no term
    above x^15 (`CanonicalSchema.IdsAgreeIff`).
* Starting the asyncio client does not ask whether it is started. A second start opens a socket that has
  joined nothing and leaves the table as it is (`SubscriptionTable.RestartForgetsGroups`). The groups
  joined are those of the topics all through a run if and only if every start finds nothing subscribed
  (`SubscriptionTable.GroupsThroughoutIff`); table, index and dispatch are right regardless.

## Model

| member | source | states |
|---|---|---|
| Poly1305Limbs.BlockLimbsValue | components/mpubsub/chacha20poly1305.cpp:99-103 | the five overlapping masked loads of a block, with the high bit, are the block's little-endian number, in limbs below 2^26 |
| Poly1305Limbs.ProductsExact | components/mpubsub/chacha20poly1305.cpp:105-109 | from the loop's bounds no 64-bit product or sum of products wraps, and each stays below its headroom |
| Poly1305Limbs.PropagateExact | components/mpubsub/chacha20poly1305.cpp:111-128 | the delayed carries wrap nowhere, lose only a multiple of 2^130-5 and restore the loop's bounds |
| Poly1305Limbs.ExactProductsValue | components/mpubsub/chacha20poly1305.cpp:105-109 | the folded product of the limbs is the product of the numbers, less a multiple of 2^130-5 |
| Poly1305Limbs.BlockStepCorrect | components/mpubsub/chacha20poly1305.cpp:93-138 | one turn of the block loop keeps its bounds and takes h to (h + block) * r modulo 2^130-5 |
| Poly1305Limbs.FinalCarryExact | components/mpubsub/chacha20poly1305.cpp:176-191 | the single partial carry pass leaves every limb below 2^26, because of the bound the loop keeps on limb 1 |
| Poly1305Limbs.MinusPExact | components/mpubsub/chacha20poly1305.cpp:193-205 | the trial subtraction borrows exactly when h is below 2^130-5, and is exact otherwise |
| Poly1305Limbs.SelectReducedExact | components/mpubsub/chacha20poly1305.cpp:193-218 | the branch-free select yields exactly h modulo 2^130-5 |
| Poly1305Limbs.PackValue | components/mpubsub/chacha20poly1305.cpp:220-223 | the shifts and ors that pack the limbs into four words give the value modulo 2^128 |
| Poly1305Limbs.AddPadValue | components/mpubsub/chacha20poly1305.cpp:225-232 | the four chained 64-bit additions add the pad modulo 2^128 |
| Poly1305Limbs.FinishTagCorrect | components/mpubsub/chacha20poly1305.cpp:166-238 | from every state the loop can reach, finishing stores ((h mod 2^130-5) + s) mod 2^128, little-endian |
| Poly1305Limbs.InitRCorrect | components/mpubsub/chacha20poly1305.cpp:76-82 | the masked limb loads of the key are the clamped r, in limbs that meet the loop's bounds |
| Poly1305.Compute | python/mpubsub/wire.py:151-160 | the big-integer loop computes the tag as the fold over 16-byte blocks |
| Poly1305.AbsorbAppend | python/mpubsub/wire.py:156-159 | absorbing two messages one after the other is absorbing their concatenation, when the first is whole blocks |
| Poly1305.FullBlockStep | components/mpubsub/chacha20poly1305.cpp:93-138 | one limb step is one step of the big-integer loop, on a full block |
| Poly1305.FinalBlockStep | components/mpubsub/chacha20poly1305.cpp:167-174 | and on a short last block padded in the buffer, without the high bit |
| Poly1305.BlocksOverCorrect | components/mpubsub/chacha20poly1305.cpp:93-138 | any number of limb steps refines the big-integer loop |
| Poly1305.StreamedTail | components/mpubsub/chacha20poly1305.cpp:140-164 | buffering less than a block keeps the streaming invariant |
| Poly1305.StreamedBlocks | components/mpubsub/chacha20poly1305.cpp:140-164 | absorbing the buffer with input that completes whole blocks keeps it |
| Poly1305.StreamedFinal | components/mpubsub/chacha20poly1305.cpp:166-238 | from the invariant, finishing gives the one-shot tag of everything fed in |
| Poly1305.State.Init | components/mpubsub/chacha20poly1305.cpp:76-91 | the invariant holds at the start, of nothing |
| Poly1305.State.Blocks | components/mpubsub/chacha20poly1305.cpp:93-138 | the loop applies the limb step to each whole block, with or without the high bit |
| Poly1305.State.TopUp | components/mpubsub/chacha20poly1305.cpp:141-153 | filling the buffer consumes exactly what fits, and absorbs a full buffer |
| Poly1305.State.AbsorbBlocks | components/mpubsub/chacha20poly1305.cpp:154-159 | whole blocks of the input are absorbed, and less than a block is left |
| Poly1305.State.Update | components/mpubsub/chacha20poly1305.cpp:140-164 | however a message is split, what has been absorbed is the concatenation |
| Poly1305.State.Finish | components/mpubsub/chacha20poly1305.cpp:166-238 | the tag is the one-shot tag of everything absorbed, whatever the split |
| ChaCha20.Rotl32Rotates | components/mpubsub/chacha20poly1305.cpp:18-18 | the or of two shifts is a rotation: low bits move up, high bits come round, none are lost |
| MachineWords.MachineSum | components/mpubsub/chacha20poly1305.cpp:22-34 | the truncated sum of two words is the sum of 32-bit vectors |
| MachineWords.MachineXor | components/mpubsub/chacha20poly1305.cpp:22-34 | the exclusive or defined bit by bit on numbers is that of 32-bit vectors |
| MachineWords.MachineAnd | components/mpubsub/sha256.cpp:54-65 | so is the conjunction |
| MachineWords.MachineNot | components/mpubsub/sha256.cpp:54-65 | the difference from 2^32-1 is the complement |
| MachineWords.MachineRotate | components/mpubsub/chacha20poly1305.cpp:18-18 | the or of two shifts of a vector is the rotation of the number, for every distance from 1 to 31 |
| ChaCha20.QuarterRoundInPlace | python/mpubsub/wire.py:115-123 | eight assignments in place are the quarter round on four entries, the others unchanged |
| ChaChaMachine.LaneRoundMeans | components/mpubsub/chacha20poly1305.cpp:22-34 | the quarter round on numbers is the one on 32-bit vectors with their own sum, exclusive or and rotation |
| ChaChaVectors.QuarterRoundVector | components/mpubsub/chacha20poly1305.cpp:22-34 | the vector of section 2.1.1 of RFC 8439 |
| ChaCha20.DoubleRoundInPlace | components/mpubsub/chacha20poly1305.cpp:51-60 | eight quarter rounds in place are the column and diagonal rounds |
| ChaCha20.DoubleRoundTurns | components/mpubsub/chacha20poly1305.cpp:51-60 | a double round is a round of the columns and, with each row turned by its number and turned back, a round of the diagonals |
| ChaCha20.InitialPhrase | components/mpubsub/chacha20poly1305.cpp:36-50 | the constant words spell "expand 32-byte k" |
| ChaCha20.ComputeBlock | components/mpubsub/chacha20poly1305.cpp:36-63 | ten double rounds and the final addition are the block function |
| ChaChaVectors.BlockVector | components/mpubsub/chacha20poly1305.cpp:36-63 | the vector of section 2.3.2 of RFC 8439, all 64 bytes |
| ChaCha20.XorStreamInvolution | python/mpubsub/wire.py:142-148 | applying the keystream twice gives the data back |
| ChaCha20.XorStreamSeek | components/mpubsub/chacha20poly1305.cpp:269-277 | the counter moves on by one with each 64 bytes and wraps: a stream can be taken up at any block |
| ChaCha20.XorInPlace | components/mpubsub/chacha20poly1305.cpp:269-277 | the chunked loop applies byte i of the keystream to byte i of the range, and leaves the rest of the buffer alone |
| ChaCha20.XorCopy | python/mpubsub/wire.py:142-148 | the copying loop builds the same bytes |
| Aead.OpenIffSealed | python/mpubsub/wire.py:171-186 | opening yields a plaintext if and only if sealing that plaintext yields what was opened |
| Aead.LengthHalves | components/mpubsub/chacha20poly1305.cpp:251-255 | two truncated 32-bit halves of a length are its 64-bit little-endian encoding |
| Aead.AeadTag | components/mpubsub/chacha20poly1305.cpp:242-258 | five streaming updates give the tag of the concatenated mac data |
| Aead.CtEq | components/mpubsub/chacha20poly1305.cpp:260-265 | the accumulating comparison is equality |
| Aead.OneTimeKey | components/mpubsub/chacha20poly1305.cpp:281-282 | encrypting 32 zero bytes with counter 0 yields the one-time key |
| Aead.Encrypt | components/mpubsub/chacha20poly1305.cpp:279-285 | the range becomes the sealed ciphertext, the tag is its tag, the rest of the buffer is unchanged |
| Aead.Decrypt | components/mpubsub/chacha20poly1305.cpp:287-297 | succeeds exactly when the tag is the recomputed one; then the range is the plaintext, otherwise the whole buffer is unchanged |
| Aead.RoundTrip | components/mpubsub/chacha20poly1305.h:33-35 | decrypting what was just encrypted in place succeeds and restores the buffer, for every key, nonce, aad and length |
| ReplaySpec.Fate | components/mpubsub/replay_guard.h:55-104 | after any run, an accepted message is still remembered behind everything accepted since, or has left the window, or `capacity` others were accepted |
| ReplaySpec.OnlyFreshAccepted | docs/PROTOCOL.md:244-256 | over every run nothing is accepted without a valid clock, without a timestamp, or with one more than the window away on either side |
| ReplaySpec.NewIsAccepted | docs/PROTOCOL.md:244-256 | and a fresh message whose nonce has never been accepted is accepted |
| ReplaySpec.ReplayNeedsCapacityAccepts | components/mpubsub/replay_guard.h:55-104 | over every run with a clock that does not go back, the same timestamp and nonce are accepted twice only if `capacity` others were accepted in between |
| ReplaySpec.ReplayAfterCapacityAccepts | components/mpubsub/replay_guard.h:71-83 | that bound is tight for every capacity, reading and timestamp in the window: after exactly `capacity` others, the replay is accepted |
| ReplaySpec.ReplayAcceptedIff | docs/PROTOCOL.md:292-297 | over any run with a clock that does not go back, a message that comes again while in the window is accepted if and only if at least `capacity` were accepted since it last was |
| ReplaySpec.CapacitiesAgreeIff | python/mpubsub/wire.py:428-469 | guards of two capacities take the same decisions on every run if and only if the capacities are the same, all below one counting as none, or no window is set |
| ReplaySpec.DecideKeepsDistinct | python/mpubsub/wire.py:461-469 | remembered nonces stay distinct and within the capacity |
| ReplaySpec.SkewedSendersDisorder | components/mpubsub/replay_guard.h:91-93 | two accepted messages from skewed senders leave the cache out of order, with an expired entry behind a live one |
| ReplaySpec.StaysInOrderIff | components/mpubsub/replay_guard.h:91-93 | recording a message keeps the cache in order if and only if it is stamped no earlier than the last entry kept (or the capacity is at most one) |
| ReplaySpec.InOrderThroughoutIff | components/mpubsub/replay_guard.h:91-93 | over any run the cache is in order throughout if and only if every accepted message follows in that sense |
| ReplaySpec.PrunesCleanIff | components/mpubsub/replay_guard.h:91-104 | pruning the front leaves nothing that has left the window, at every reading, if and only if the cache is in order |
| ReplaySpec.PrunesCleanThroughoutIff | components/mpubsub/replay_guard.h:91-104 | over any run it does so throughout if and only if every accepted message follows |
| ReplayGuards.WindowPop | components/mpubsub/replay_guard.h:94-103 | advancing the head of the ring drops the oldest entry, across the wrap |
| ReplayGuards.WindowPush | components/mpubsub/replay_guard.h:73-75 | writing behind the last entry appends it, across the wrap |
| ReplayGuards.WindowOverwrite | components/mpubsub/replay_guard.h:76-81 | overwriting the head of a full ring and advancing it drops the oldest and appends |
| ReplayGuards.Ring.Prune | components/mpubsub/replay_guard.h:94-103 | drops exactly the front entries that have left the window |
| ReplayGuards.Ring.Accept | components/mpubsub/replay_guard.h:55-83 | decision and new contents are those of the decision procedure |
| ReplayGuards.Ring.Scan | components/mpubsub/replay_guard.h:67-70 | the modular scan finds a nonce exactly when it is remembered |
| ReplayGuards.Ring.Record | components/mpubsub/replay_guard.h:71-82 | the entry is appended, and a full ring loses its oldest |
| ReplayGuards.Deque.Prune | python/mpubsub/wire.py:471-475 | the deque loses exactly the expired front, and the dict stays its set of nonces |
| ReplayGuards.Deque.Accept | python/mpubsub/wire.py:442-469 | the deque and dict decide and remember as the procedure, for any window, missing timestamps and missing nonces included |
| ReplayGuards.WrappedDecides | python/mpubsub/wire.py:442-469 | on nonces that are present, the Python guard takes the decisions of the other two and remembers the same |
| ReplayGuards.MirrorsPop | python/mpubsub/wire.py:473-475 | dropping the oldest nonce from the lookup keeps it equal to the list's nonces, since they are distinct |
| ReplayGuards.MirrorsPush | python/mpubsub/wire.py:464-469 | and so does recording a nonce not yet seen |
| ReplayGuards.Slice.Prune | bridges/mqtt-go/replay.go:84-95 | the compacted slice loses its entries below the wrapped cutoff, and the set stays its nonces |
| ReplayGuards.Slice.Accept | bridges/mqtt-go/replay.go:46-79 | the slice and set decide as the procedure with the wrapped cutoff |
| ReplayGuards.SoundRun | bridges/mqtt-go/replay.go:46-95 | with sound clock readings, wherever the clock goes, the Go guard remembers what the decision procedure of its own capacity does |
| ReplayGuards.SoundDecisions | bridges/mqtt-go/replay.go:46-95 | and takes its decision on every command |
| ReplayGuards.EffectiveDecisions | bridges/mqtt-go/replay.go:70-78 | since nonces are words and are remembered once, all capacities from 2^32 up decide alike |
| ReplayGuards.CapacityShowsAt | bridges/mqtt-go/bridge.go:95-97 | at every sound reading, messages that overflow the smaller of two caches and the first of them again tell the guards apart |
| ReplayGuards.ForgottenReplay | bridges/mqtt-go/replay.go:84-95 | below the window the Go guard accepts an immediate replay that a guard of any capacity rejects |
| ReplayGuards.GoAgreesIff | bridges/mqtt-go/replay.go:46-95 | the Go guard decides like a guard of another capacity on all runs with readings from a set if and only if the capacities are the same up to 2^32 and every reading has `now >= window` or a difference of 2^32-1 (or the window is zero or the set empty) |
| ReplayGuards.AsConfigured | bridges/mqtt-go/bridge.go:95-97 | with 64 against 4096 entries component and bridge agree on no readings at all, client and bridge on the sound ones |
| ReplayGuards.SixtyFiveAndReplay | components/mpubsub/replay_guard.h:112-112 | 65 messages at one reading pass everywhere; the first of them again passes the component only |
| Varint.Append | bridges/mqtt-go/proto.go:40-46 | the loop appends the base-128 digits, the last one without the continuation bit |
| Varint.ReadVarint | bridges/mqtt-go/proto.go:63-76 | the loop reads what the recursive decoder reads, and fails on truncated or overlong input |
| Varint.DecodeBounds | bridges/mqtt-go/proto.go:63-76 | at least one and at most ten bytes are consumed, never past the end |
| Varint.DecodePrefix | bridges/mqtt-go/proto.go:63-76 | a complete varint is read the same whatever follows it |
| Varint.RoundTrip | bridges/mqtt-go/proto.go:40-76 | every 64-bit value is read back, with its length, whatever follows |
| Varint.SignedRoundTrip | bridges/mqtt-go/proto.go:92-104 | sign extension to 64 bits and truncation back lose no int32 or int64 |
| Varint.Zigzag32Meaning | bridges/mqtt-go/proto.go:52-52 | the shifts and exclusive or move the sign to bit 0: 0, -1, 1, -2 become 0, 1, 2, 3 |
| Varint.Zigzag64Meaning | bridges/mqtt-go/proto.go:53-53 | likewise for 64 bits |
| Varint.ZigzagRoundTrip | bridges/mqtt-go/proto.go:52-59 | decoding undoes encoding for every int32 and every int64 |
| Schema.NewSchema | bridges/mqtt-go/schema.go:38-72 | accepts exactly the well-formed schemas, and its two tables then index every field by tag and by name |
| Schema.Validate | components/mpubsub/proto_emitter.py:112-141 | the Python validation gives the same verdict, whatever integers the tags are |
| Schema.ValidTagIff | bridges/mqtt-go/schema.go:52-57 | the tags admitted are the positive ones whose key fits in 32 bits, but for the reserved block of a thousand |
| Proto.LookupIsFind | bridges/mqtt-go/proto.go:214-226 | a lookup in the tag table finds the field with that tag, if there is one |
| Proto.EncodeProto | bridges/mqtt-go/proto.go:166-198 | the loop emits, field by field in schema order, tag and value of each present value |
| Proto.DecodeProto | bridges/mqtt-go/proto.go:205-240 | the loop over the cursor decodes as the specification, errors included |
| Proto.DecodeValue | bridges/mqtt-go/proto.go:272-355 | on any bytes, a decoded value consumes at least one byte and never reads past the end |
| Proto.SkipField | bridges/mqtt-go/proto.go:242-270 | and so does a skipped field |
| ProtoGrammar.EncodesIff | bridges/mqtt-go/proto.go:22-46 | a byte string is the encoder's output if and only if it is the message as the encoding prescribes it, with its own numbers: fields in order, keys 8 * tag + 0, 2 or 5, shortest varints, two's complement, zigzag, lengths, four-byte floats; where it prescribes nothing the encoder fails |
| ProtoGrammar.AcceptsIff | bridges/mqtt-go/proto.go:205-355 | the decoder accepts exactly the streams of records of that grammar in which each field of the schema has the wire type of its type |
| ProtoGrammar.UnknownSkipped | bridges/mqtt-go/proto.go:214-226 | a record of a field that the schema does not have changes nothing |
| ProtoGrammar.KnownRead | bridges/mqtt-go/proto.go:227-355 | a record of a field that it has adds the value its content stands for, overlong varints and out-of-range numbers included |
| ProtoLaws.SkipsWhatItWouldTake | bridges/mqtt-go/proto.go:242-355 | skipping a field consumes exactly what decoding it would have |
| ProtoLaws.DecodeConcat | bridges/mqtt-go/proto.go:205-240 | decoding a concatenation continues the first decoding with the second body |
| ProtoLaws.DecodeMerges | bridges/mqtt-go/proto.go:205-240 | the result is the merge: later singular values win, repeated values append; it fails exactly when the second body does |
| ProtoLaws.DecodeForgets | bridges/mqtt-go/proto.go:205-270 | on arbitrary bytes, a sub-schema decodes exactly the restriction of what the full schema decodes |
| ProtoRoundTrip.ValueRoundTrip | bridges/mqtt-go/proto.go:81-355 | each value decodes to itself, up to its type's truncation, whatever follows it |
| ProtoRoundTrip.RoundTrip | bridges/mqtt-go/proto.go:166-355 | whatever the encoder accepts decodes to its normal form: truncated values, no empty lists, no unknown names |
| ProtoRoundTrip.RoundTripExact | bridges/mqtt-go/proto.go:166-355 | in-range values under a valid schema encode, and decode to exactly themselves |
| ProtoRoundTrip.RoundTripToSubSchema | bridges/mqtt-go/proto.go:166-355 | a receiver with a sub-schema recovers exactly its own fields |
| CanonicalSchema.CanonicalSchemaString | bridges/mqtt-go/schema.go:77-88 | filling a slice, sorting it in place and joining it gives the canonical string |
| CanonicalSchema.ClimateSchema | tests/unit/test_schema_id.py:113-125 | the golden schema prints as the three known lines |
| CanonicalSchema.SortSorts | components/mpubsub/proto_emitter.py:95-97 | the lines come out in ascending string order, the same lines |
| CanonicalSchema.AscendingUnique | components/mpubsub/proto_emitter.py:95-97 | and no other arrangement does, so every sorting algorithm agrees |
| CanonicalSchema.OrderDoesNotMatter | components/mpubsub/proto_emitter.py:79-109 | permuting the fields changes neither the canonical string nor the schema id |
| CanonicalSchema.LineInjective | components/mpubsub/proto_emitter.py:92-97 | tag, type, repeated flag and name can be read back from a line, whatever the name contains |
| CanonicalSchema.CanonicalIffPermuted | components/mpubsub/proto_emitter.py:79-98 | with known types and names on one line, two schemas print alike if and only if one permutes the other |
| CanonicalSchema.NewlineCollides | bridges/mqtt-go/schema.go:77-88 | two different valid schemas that print alike, one with a newline in a name |
| CanonicalSchema.OneFieldTwin | bridges/mqtt-go/schema.go:38-88 | every valid schema of two or more fields prints like a valid schema of one field |
| CanonicalSchema.TwinIff | bridges/mqtt-go/schema.go:38-88 | a valid schema prints like another valid one if and only if it has two or more fields, or its one field's name splits into a shorter name and a further valid field that sorts behind |
| CanonicalSchema.UniqueIffOneField | bridges/mqtt-go/schema.go:38-88 | so among those with names on one line exactly the schemas of one field are told apart from every other |
| CanonicalSchema.SameArrangement | components/mpubsub/proto_emitter.py:92-97 | two arrangements of the same fields that print alike are the same, whatever the names contain |
| CanonicalSchema.OneChangeShows | docs/PROTOCOL.md:131-132 | changing one field of a valid schema into anything valid changes the canonical string, whatever the names contain |
| CanonicalSchema.OneMoreShows | docs/TYPED_MESSAGES_PLAN.md:87-90 | adding a field makes the canonical string longer |
| CanonicalSchema.IdsAgreeIff | components/mpubsub/proto_emitter.py:101-109 | two ids agree if and only if the remainder of the difference of the two strings' dividends has no term above x^15 |
| CanonicalSchema.RenamingKeepsId | docs/PROTOCOL.md:131-132 | in every valid schema any field has two names, on one line, between which renaming it changes the string and keeps the id |
| CanonicalSchema.LinesInTagOrder | bridges/mqtt-go/schema.go:86-87 | tags t < u sort in that order if and only if they have equally many digits or t is below the leading digits of u |
| CanonicalSchema.SortedByTagIff | docs/PROTOCOL.md:127-129 | for any distinct tags, whatever the names contain, the canonical string lists the fields by tag if and only if every two tags sort that way |
| CanonicalSchema.TenBeforeTwo | docs/PROTOCOL.md:127-129 | tag 10 sorts before tag 2 |
| Sha256.PadIsLeast | components/mpubsub/sha256.cpp:95-109 | the padding fills whole blocks with the least number of zero bits, as in section 5.1.1 of FIPS 180-4 |
| Sha256.FoldAppend | components/mpubsub/sha256.cpp:78-93 | compressing whole blocks and then the rest is compressing all of it |
| Sha256.StreamedFinal | components/mpubsub/sha256.cpp:95-109 | padding the buffered tail, in both residue cases, gives the hash of the padded message |
| Sha256.RotrRotates | components/mpubsub/sha256.cpp:24-24 | the or of two shifts is a rotation: high bits move down, low bits come round |
| Sha256.Hasher.FillSchedule | components/mpubsub/sha256.cpp:40-49 | the two loops fill the message schedule of section 6.2 |
| Sha256.Hasher.ProcessBlock | components/mpubsub/sha256.cpp:39-76 | rotating eight variables through 64 rounds is the compression function |
| Sha256.FedForward | components/mpubsub/sha256.cpp:68-75 | the compression feeds the previous state forward: what it adds to it, the 64 rounds undone, is that state, for every state and block |
| ShaConstants.RoundConstants | components/mpubsub/sha256.cpp:13-22 | constant t is the first 32 bits of the fractional part of the cube root of the prime with t primes below it |
| ShaConstants.InitialValues | components/mpubsub/sha256.cpp:28-37 | the initial state is that of the square roots of the first eight primes |
| ShaMachine.RoundMeans | components/mpubsub/sha256.cpp:54-67 | a round on numbers is the one on 32-bit vectors with their own operators |
| ShaVectors.PassphraseDigest | python/mpubsub/wire.py:240-246 | the key derived from the passphrase "hunter2", all 32 bytes |
| Sha256.Hasher.Update | components/mpubsub/sha256.cpp:78-93 | keeps fewer than 64 bytes buffered and the bit count exact modulo 2^64, for any split of the data |
| Sha256.Hasher.FillLength | components/mpubsub/sha256.cpp:107-108 | the shifting loop stores the 64-bit length, big-endian |
| Sha256.Hasher.Finalize | components/mpubsub/sha256.cpp:95-116 | returns the hash of everything fed in, whatever the split |
| TopicHash.TopicCrc32 | components/mpubsub/topic_hash.cpp:22-32 | the nested loops over bytes and bits compute the checksum of the specification |
| TopicHash.StepMeaning | components/mpubsub/topic_hash.cpp:27-28 | the mask made by negating the low bit selects the polynomial exactly when that bit is set |
| TopicHash.StepsAreSerial | components/mpubsub/topic_hash.cpp:25-28 | exclusive-oring a byte in first is feeding its bits one at a time |
| TopicHash.DivideCorrect | components/mpubsub/topic_hash.cpp:25-28 | a shift-register step extends the dividend by one bit and keeps the register its remainder |
| TopicHash.RemainderUnique | components/mpubsub/topic_hash.cpp:20-32 | a dividend has one remainder modulo the generator over GF(2) |
| TopicHash.Crc32IsRemainder | components/mpubsub/topic_hash.cpp:20-32 | a word is the checksum if and only if its complement, reflected, is the remainder of x^32 M(x) + x^(8n) (x^31 + ... + 1), section 3.2.9 of IEEE 802.3 |
| TopicHash.LowHalvesAgreeIff | components/mpubsub/topic_hash.cpp:20-32 | two strings agree in the low half of their checksums if and only if the remainder of the difference of their dividends has no term above x^15 |
| TopicHash.EqualLengthDifference | components/mpubsub/topic_hash.cpp:20-32 | for strings of one length that difference is x^32 (M(a) + M(b)) |
| TopicHash.TopicToGroup | components/mpubsub/topic_hash.cpp:9-18 | the address is ff, the flags and scope, and the first 14 bytes of the topic's SHA-256 |
| PacketVector.KnownGroup | components/mpubsub/topic_hash.cpp:9-18 | the site-local group cut from a known digest, byte by byte |
| PacketVector.TopicChecksum | components/mpubsub/topic_hash.cpp:22-32 | the checksum of "home/x" |
| SubscriptionTable.SubscribeKeepsInv | python/mpubsub/aio.py:290-332 | subscribing, repeatedly or with a failed join, keeps the table's invariant |
| SubscriptionTable.ValidTopicIff | python/mpubsub/aio.py:101-130 | topics of 1 to 200 bytes without "+", "#" and NUL are valid, and no others |
| SubscriptionTable.UnsubscribeKeepsInv | python/mpubsub/aio.py:334-355 | unsubscribing, repeatedly or with something unknown, keeps it |
| SubscriptionTable.RunKeepsCore | python/mpubsub/aio.py:226-386 | after any run, starts at any time included, the index lists exactly the topics of each CRC, no list is empty, no subscription occurs twice |
| SubscriptionTable.StartKeepsGroupsIff | python/mpubsub/aio.py:226-232 | a start leaves the joined groups right if and only if nothing is subscribed |
| SubscriptionTable.RunKeepsInv | python/mpubsub/aio.py:226-386 | after any run that starts the client only with nothing subscribed, the joined groups are exactly those of the topics, too |
| SubscriptionTable.GroupsThroughoutIff | python/mpubsub/aio.py:226-386 | the groups are right all through a run if and only if every start finds nothing subscribed |
| SubscriptionTable.RestartForgetsGroups | python/mpubsub/aio.py:226-232 | start, subscribe, start: the topic is in the table and its group is not joined |
| SubscriptionTable.RunIndexIsScan | python/mpubsub/aio.py:327-346 | on the client of any run, a look-up in the index finds the table's topics of that CRC, each once, in table order |
| SubscriptionTable.DispatchUnderMutation | python/mpubsub/aio.py:372-386 | whatever callbacks unsubscribe meanwhile, nobody is dispatched twice, only matching subscriptions are, and every matching one that remains was |
| SubscriptionTable.OnlyRemainingCalled | python/mpubsub/aio.py:383-386 | whoever is called from some point on is still subscribed at that point: a subscription that is gone before its topic's turn is not called |
| SubscriptionTable.HandleUnderMutation | python/mpubsub/aio.py:372-386 | the same for every encoding: other than RAW, nobody is called and nothing changes |
| SubscriptionTable.QuietDispatch | python/mpubsub/aio.py:381-386 | with callbacks that leave the table alone, all callbacks of all topics of the CRC run, in order |
| IndexAgreement.RunMirrors | components/mpubsub/multicast_pubsub.cpp:657-686 | after the same calls of subscribe, the C++ vector and the Python table hold the same topics and callbacks in the same order |
| IndexAgreement.IndexAgreesWithScan | components/mpubsub/multicast_pubsub.cpp:762-797 | and the C++ scan and the Python index find the same topics and call the same callbacks, in the same order |
| IndexAgreement.SameDatagram | python/mpubsub/aio.py:359-386 | subscribed alike, with the same key, window and remembered messages, the client makes of a datagram the calls that the component makes, and remembers the same -- when it is sealed, or plain and no subscriber of the component demands encryption |
| IndexAgreement.NodeAndClientAgree | python/mpubsub/aio.py:290-386 | so over every run of subscribing and receiving, all sealed or none demanding encryption: the same calls, with the same payloads, in the same order, while the caches are of one size or the component's has room |
| AioSubscriptions.JoinShares | python/mpubsub/aio.py:328-330 | filing a new entry keeps table and index sharing the same objects |
| AioSubscriptions.LeaveShares | python/mpubsub/aio.py:341-346 | and so does removing the last one of a topic |
| AioSubscriptions.Client.Join | python/mpubsub/aio.py:314-332 | joins exactly when the client is started and the kernel agrees, and files one fresh entry |
| AioSubscriptions.Client.Subscribe | python/mpubsub/aio.py:290-312 | subscribes exactly when topic and codec are valid and the group is joined or can be; the new state is the specification's, or nothing has changed |
| AioSubscriptions.Client.Leave | python/mpubsub/aio.py:341-355 | removes the entry from table, index and group, and no other |
| AioSubscriptions.Client.Unsubscribe | python/mpubsub/aio.py:334-355 | the new state is the specification's; a removed entry is left without callbacks |
| AioSubscriptions.Client.DispatchEntry | python/mpubsub/aio.py:385-386 | the loop over a copied callback list dispatches as the specification while callbacks unsubscribe |
| AioSubscriptions.Client.HandleDatagram | python/mpubsub/aio.py:372-386 | the drop of other encodings and the two loops over copied lists follow the specification, on objects that may leave the table meanwhile |
| AioSubscriptions.Client.OnDatagram | python/mpubsub/aio.py:359-386 | decoding, guard and dispatch in one: who is called with which payload, what is remembered and what stays subscribed are as specified |
| AioSubscriptions.Client.Start | python/mpubsub/aio.py:226-232 | the socket is a new one that has joined nothing, the table stays |
| AioSubscriptions.Client.Stop | python/mpubsub/aio.py:266-279 | empties table, index and groups |
| AioRetransmit.RunKeepsInv | python/mpubsub/aio.py:412-500 | every run of starts, publishes, firings and stops keeps the timers, the log and the counts in order |
| AioRetransmit.OneChainPerTopic | python/mpubsub/aio.py:490-500 | a topic has at most one live chain; it is the one the table names and carries the latest publication |
| AioRetransmit.PublishSendsAtOnce | python/mpubsub/aio.py:412-443 | a publish on a started client is sent at once, with the bytes given, whatever its count |
| AioRetransmit.IndefiniteStaysArmed | python/mpubsub/aio.py:490-495 | after any run the latest publication to a topic, when it is indefinite and not cut off by a stop, has its next send pending |
| AioRetransmit.FiringResends | python/mpubsub/aio.py:490-495 | firing that timer sends the publication and arms the next one |
| AioRetransmit.SupersededNeverResent | python/mpubsub/aio.py:432-443 | once a publication has been sent, no chain sends an earlier one to that topic |
| AioRetransmit.AttemptsPlusPending | python/mpubsub/aio.py:439-443 | for each finite publication not cut off by a stop, attempts made and sends pending add up to its count |
| AioRetransmit.NothingFiresAfterStop | python/mpubsub/aio.py:266-279 | after a stop no timer is left and nothing fires |
| AioRetransmit.Client.Publish | python/mpubsub/aio.py:412-443 | cancelling, sending and scheduling in place reach the specification's state |
| AioRetransmit.Client.Fire | python/mpubsub/aio.py:478-495 | so do the two timer callbacks |
| AioRetransmit.Client.CancelIndefinite | python/mpubsub/aio.py:497-500 | the topic's chain is cancelled and forgotten, nothing else |
| AioRetransmit.Client.Stop | python/mpubsub/aio.py:266-276 | cancels every handle of both collections, and that is every timer |
| Wire.DecodeEncodePlain | python/mpubsub/wire.py:263-400 | what encode admits decodes to its CRC, encoding and payload, in the plain mode |
| Wire.DecodeEncodeSealed | python/mpubsub/wire.py:263-400 | in the sealed mode also to the timestamp modulo 2^32 and the low 32 bits of the nonce |
| Wire.EncodeHeader | components/mpubsub/wire_format.cpp:5-24 | writes the twelve header bytes, with the CRC zeroed when encrypted, and nothing else |
| Wire.EncodesUpTo | python/mpubsub/wire.py:270-330 | up to 1220 bytes are encoded plain, up to 1184 sealed, in encodings 0 and 1 |
| Wire.ParseAccepts | docs/PROTOCOL.md:281-288 | a datagram is well-formed exactly by the first six validation rules, with their numbers |
| Wire.ParseThenEncode | components/mpubsub/wire_format.cpp:26-56 | re-encoding whatever was parsed gives the datagram with byte 11 zeroed (and, when sealed, the CRC field zeroed) |
| Wire.ParsersAgreePlain | components/mpubsub/wire_format.cpp:26-56 | on plain datagrams the C++ parser and the Python decoder accept the same and extract the same |
| Wire.ParsersAgreeSealed | python/mpubsub/wire.py:371-393 | the Python decoder accepts a sealed datagram if and only if the C++ parser does and the tag is authentic (what both extract is in the next row) |
| Pipeline.DecodersAgree | python/mpubsub/wire.py:345-400 | every datagram the component can read, plain or sealed, is decoded by Python to exactly the CRC, encoding, payload, timestamp and nonce that the component works with, or dropped by both |
| Pipeline.DeliveriesExact | components/mpubsub/multicast_pubsub.cpp:762-797 | a call is made if and only if it is owed: matching CRC, encryption demand met, raw, or protobuf with the callback's schema id |
| Pipeline.DeliveriesInOrder | components/mpubsub/multicast_pubsub.cpp:762-797 | calls and owed registrations correspond one to one, ordered by subscription and then by registration, so each callback is called as often as it is registered |
| Pipeline.TypedPayload | docs/PROTOCOL.md:113-127 | a typed payload is its schema id, low byte first, and the body |
| Pipeline.EndToEndPlain | components/mpubsub/multicast_pubsub.cpp:565-586 | a published plain datagram fits 1232 bytes and delivers exactly the body to exactly the owed callbacks, in order |
| Pipeline.EndToEndSealed | components/mpubsub/multicast_pubsub.cpp:53-93 | so does a sealed one, for a node with the same key whose guard accepts it |
| PipelineRuns.RunConserves | components/mpubsub/multicast_pubsub.cpp:565-586 | over any run, received = verified + failed + malformed, modulo 2^32 |
| PipelineRuns.CountersCount | components/mpubsub/multicast_pubsub.cpp:53-93 | over any run the counters are, modulo 2^32, the numbers of arrivals, of those sealed and authentic or plain and subscribed, and of the other well-formed ones |
| PipelineRuns.RunRegisters | components/mpubsub/multicast_pubsub.cpp:649-681 | over any run a topic's callbacks are those asked for, in order, its CRC is its own, and it demands encryption if and only if somebody asked for that |
| PipelineRuns.RunDistinct | components/mpubsub/multicast_pubsub.cpp:649-681 | over any run there is one subscription per topic |
| PipelineRuns.PlaintextNeverReaches | components/mpubsub/multicast_pubsub.cpp:657-662 | once any subscriber has demanded encryption, no plaintext reaches any callback of that topic for the rest of the run |
| PipelineRuns.EntriesFollowCommands | components/mpubsub/multicast_pubsub.cpp:53-93 | the guard's entries after any run are those of the authentic packets' commands, in order |
| PipelineRuns.OnlyPassesDeliver | components/mpubsub/multicast_pubsub.cpp:83-92 | an encrypted packet that is not authentic or not accepted by the guard reaches nobody |
| PipelineRuns.ReplayedDatagram | components/mpubsub/replay_guard.h:55-104 | over any run of the node, the same encrypted datagram passes twice only if 64 other packets passed in between |
| PipelineRuns.RetransmitsCollapse | docs/PROTOCOL.md:186-188 | so, with a window and a clock that does not go back, a datagram that has passed delivers nothing when it comes again, however often, until 64 others have passed |
| MulticastPubSub.Node.Setup | components/mpubsub/multicast_pubsub.cpp:511-550 | the groups of all subscriptions are joined, unless the socket cannot be created or bound; one that cannot be bound stays |
| MulticastPubSub.Node.FindOrCreateSubscription | components/mpubsub/multicast_pubsub.cpp:649-681 | finds or appends the topic's subscription with its group, a late one joins at once, and the demand for encryption is sticky |
| MulticastPubSub.Node.Deliver | components/mpubsub/multicast_pubsub.cpp:762-797 | the nested loops make exactly the calls of the specification, in order, and report whether the CRC matched |
| MulticastPubSub.Node.Decrypt | components/mpubsub/multicast_pubsub.cpp:53-76 | decrypting a copy in a work buffer authenticates exactly the packets the specification does |
| MulticastPubSub.Node.HandleEncrypted | components/mpubsub/multicast_pubsub.cpp:53-93 | counters, guard and calls change as in the specification |
| MulticastPubSub.Node.OnPacket | components/mpubsub/multicast_pubsub.cpp:565-586 | the whole state after a datagram is the specification's |
| MulticastPubSub.Node.EncryptBody | components/mpubsub/multicast_pubsub.cpp:32-47 | building and encrypting the body in place behind the header gives header, nonce, ciphertext and tag of the sealed plaintext |
| MulticastPubSub.Node.BuildDatagram | components/mpubsub/multicast_pubsub.cpp:703-715 | the datagram built in the buffer is byte for byte what the Python encoder builds |
| MulticastPubSub.Node.Publish | components/mpubsub/multicast_pubsub.cpp:688-721 | sends exactly that datagram to the topic's group when it fits and sending works; otherwise nothing changes |
| MulticastPubSub.Exchange | components/mpubsub/multicast_pubsub.cpp:565-721 | what one node publishes, another with the same key and an accepting guard delivers, unchanged, to exactly the owed callbacks |
| PacketVector.KnownDatagram | bridges/mqtt-go/wire_test.go:128-144 | the known datagram: encoding "hello" for "home/x" with the key of "hunter2" gives the golden bytes, from the definitions of digest, cipher, tag and checksum |
| PacketVector.PlainDatagram | python/mpubsub/wire.py:270-312 | and without a key the plain bytes, with the checksum low byte first |

## Left out

- Sockets, lwIP, multicast joins on the wire, the asyncio loop and wall clocks: a clock reading, the kernel's answer to a join, the outcome of a send and the order of timer firings are inputs. A cancelled timer never fires; the kernel refuses a second join of the same group, and leaving a joined group succeeds.
- Failures of the asyncio client's start, and the socket that a second start leaves behind: the groups joined are those of the client's current socket.
- Datagrams longer than 1232 bytes at the C++ component: its read cuts them off (`multicast_pubsub.cpp:554-558`), so the model is given at most that many.
- The ESP8266 branch of the C++ component, which repeats the socket branch over lwIP callbacks.
- MulticastPubSub.Node.Publish: ends with the first send; the retransmit timers scheduled behind it rest on ESPHome's `set_timeout`, which is not part of this model. The retransmit machine proved here is that of the asyncio client, whose retransmit count is an input.
- Callbacks of the C++ component that subscribe or publish from within a delivery. In the asyncio client callbacks may unsubscribe anything during dispatch; subscribing and stopping are coroutines there and cannot run inside one.
- The asyncio client's decoding of text payloads, and its handling of callbacks that raise.
- The Go bridge's goroutines, its MQTT side and its own framing, which repeats the Python one over a library cipher; the Home Assistant client, which repeats the asyncio one.
- `DynamicMessage`, `DynamicReader` and emitted C++ code, which rest on ESPHome primitives that are not part of this model.
- Texts and kinds of error in Python and Go: a failure is one value. The C++ parse errors are kept apart.
- Proto.EncodeProto: a float is its 32-bit pattern, and an integer given for a float field, or a float for an integer field, counts as a mismatch; the source converts them, with rounding and range rules of IEEE arithmetic that are not modelled.
- The text encoding of names: UTF-8 is a parameter of the schema id. Strings compare by character, which is how UTF-8 compares by byte. The library sort is an insertion sort in place; by `CanonicalSchema.AscendingUnique` every sort gives the same result.
- The library cipher that Python uses when it is installed; the text encoding of a passphrase before it is hashed; configuration checks, logging and sensors.
- A count of malformed packets: the C++ component keeps none, so the model counts them beside its counters.
- Cryptographic strength. A tag that verifies is taken as authentic; nothing is said about how hard it is to make one.
