# Ethereum ELC: a verified model

This project models the Ethereum light client of `ethereum-elc` in Dafny and proves properties of
it. The client keeps a client state and, per execution block height, a consensus state. Relayers
submit headers and misbehaviour; the client checks them, updates its states and emits messages that
commit to state ids.

## How it is organised

- `Types`: client and consensus states, headers, misbehaviour, proxy messages, fixed-width integers.
- `Externals`: what the client calls into and this repository does not define, as arbitrary functions.
- `Wire`, `WellKnown`, `ConsensusCodec`, `ClientCodec`: domain state, raw protobuf struct, fields and
  bytes, both ways. `WireLaws`, `Fields`, `ConsensusSchema`, `ClientSchema`: the format and the schema
  themselves, which the codecs are proved against. `Encoder`: the encoding written into a growing
  buffer.
- `Commitment`: canonical client states and state ids. `Updates`: the checks on headers and
  misbehaviour and the states that result. `LightClient`: the client's calls on encoded states.
- `Machine`: the client as a state machine over decoded states; an event that fails changes nothing,
  and `Run` attempts a sequence of events. `Refinement`: the host that stores bytes takes the same
  steps. `Hosting`: that host as a class whose fields the calls update.
- `Periods`: sync committee periods as intervals of slots.
- `Lifecycle`, `Replay`, `Committees`, `Provenance`, `Evidence`, `Reordering`, `Timing`, `EndToEnd`: the
  results about whole runs. `Witnesses`: accepted inputs that show why two of those results carry a condition.

## Assumptions

Each is a hypothesis of the theorems that use it, or a definition of an external function.

- `SoundUpdates`: an update that the external verifier accepts, signed by the true committee of its
  period, carries (if any) the true committee of the period after its finalized slot. It is asked for
  the client's own chain only.
- `RejectsIrrelevant`: the external verifier rejects an update whose finalized slot is not above the
  slot of the trusted state (the promise behind `is_relevant_update`).
- `EnforcesMinimum`: the external verifiers want at least their context's minimum of participants, and
  no signature after its time. `OwnKinds`: the two misbehaviour decoders each yield their own kind.
- `CollisionFree`: the state-id hash has no collisions. A state id is an idealised digest.
- `compute_sync_committees` follows `apply_light_client_update` of the "Altair Light Client -- Sync
  Protocol": keys are kept within a period and shifted into the next one, which needs the update's
  next committee; anything else fails. `TrustedConsensusState::new` compares the aggregate key of the
  supplied committee with the current key, or with the next one if `is_next`.
- A byte vector holds at most 2^63 - 1 bytes (`IsVector`).
- The two time checks are comparisons in nanoseconds. Whether each accepts its exact boundary is left
  open by two flags of `Externals`; the proxy is taken to use the same checks on a context.
- The slot timestamp wraps at 2^64 seconds: the enclave is built with `overflow-checks = false`
  (tests/enclave/Cargo.toml:22). A division by a zero period length aborts the call and is modelled
  as a failure. Validation at creation rules it out.
- `Time` ranges from the Unix epoch to the end of the year 9999. A `PublicKey` is any 48 bytes.
- The generated decoder reads varints of at most ten bytes, skips unknown fields and groups up to a
  depth of 100, rejects a known field of the wrong wire type, lets the last scalar win and merges
  repeated occurrences of a sub-message (Protocol Buffers Encoding guide, "Base 128 Varints" and
  "Message Structure"). The conversion of a raw duration normalises it, rejects a negative one and
  cuts one of more than 2^63 - 1 seconds, in both directions.
- The raw fork parameters, height and fraction are declared in other crates. Their field numbers are
  those of the encoded client state in light-client/src/test_utils.rs:316-323. Versions have four
  bytes and a fork without a spec is rejected.

Three statements hold only under a condition, and the theorems say which. Encoding and decoding a
client state is lossless exactly on the representable ones (`ClientCodec.RoundTrip`;
`ClientCodec.LongPeriodsCollide` gives two states with the same encoding). A pre-Gloas timestamp is
the exact time of its slot exactly when the 64-bit computation does not wrap
(`Timing.TimestampExact`; `Witnesses.TimestampWraps` gives an accepted header for which it does).
Updates that do not trust each other's heights commute exactly when they write different heights, or
when both put the same slot, storage root, timestamp and keys there, which can be seen before either
is applied (`Reordering.CommuteExactly`; `Witnesses.OverwritesDoNotCommute` gives two accepted
updates that do not commute).

## Model

The last eight rows characterise single calls; they are the tools the other results are proved with.

| member | source | states |
|---|---|---|
| WireLaws.VarintExact | light-client/src/client_state.rs:412-423 | a varint is read from bytes if and only if at most ten of them, all but the last with the top bit set, have that value by position, and it fits in 64 bits |
| WireLaws.VarintWritten | light-client/src/client_state.rs:425-437 | what is written has that value by position, in the shortest form |
| WireLaws.ItemParsed | light-client/src/client_state.rs:412-423 | a field of any of the six wire types, laid out as the format says and with groups nested up to the limit, is split off whole |
| ConsensusSchema.DecodeExact | proto/src/prost/ibc.lightclients.ethereum.v1.rs:43-58 | bytes decode to a consensus state if and only if they come under the type URL, split into fields of the right wire types, and the last field of each tag, 1 to 5, says what the state has there; occurrences of the timestamp are merged |
| ConsensusSchema.EncodeExact | light-client/src/consensus_state.rs:179-191 | the encoding holds every value under its own tag, each at most once, in order and without zeros |
| ConsensusSchema.UnknownFields | light-client/src/consensus_state.rs:156-177 | fields of any wire type and unknown tags, inserted between any two fields of an encoding, do not change what is decoded |
| ClientSchema.DecodeExact | proto/src/prost/ibc.lightclients.ethereum.v1.rs:3-42 | the same as for consensus states, for the fourteen tags of a client state and for the nested fork parameters, forks, generalized indices, durations, fraction and height |
| ClientSchema.EncodeExact | light-client/src/client_state.rs:425-437 | the encoding holds every value under its own tag at every level, in order and without zeros; durations beyond 63-bit seconds are cut |
| ClientSchema.UnknownFields | light-client/src/client_state.rs:412-423 | unknown fields do not change what is decoded |
| ConsensusCodec.RawRoundTrip | proto/src/prost/ibc.lightclients.ethereum.v1.rs:43-58 | every raw consensus state with byte strings of 64-bit length, sub-message present or absent, survives encoding to wire bytes and decoding |
| ConsensusCodec.RawStructRoundTrip | light-client/src/consensus_state.rs:98-154 | splitting the timestamp by division and remainder, and the length checks, lose nothing for any consensus state |
| ConsensusCodec.RoundTrip | light-client/src/consensus_state.rs:156-206 | decode(encode(c)) = c down to the bytes, for every consensus state, without conditions |
| ConsensusCodec.Normalises | light-client/src/consensus_state.rs:156-191 | any accepted bytes, canonical or not, decode to a state whose own encoding decodes to it again |
| ConsensusCodec.EncodeInjective | light-client/src/consensus_state.rs:179-198 | two consensus states share an encoding only if they are equal |
| WellKnown.SecondsNanosRoundTrip | proto/src/prost/ibc.lightclients.ethereum.v1.rs:28-35 | signed seconds and nanoseconds, negative ones included, survive the unsigned varints of a timestamp or duration |
| Fields.SignedExact | proto/src/prost/ibc.lightclients.ethereum.v1.rs:28-35 | a signed field is read as two's complement: the integer of its width congruent to the varint |
| ClientCodec.ForkParametersRoundTrip | light-client/src/client_state.rs:357-391 | fork parameters with any number of forks survive three levels of nested messages, in order |
| ClientCodec.RawRoundTrip | proto/src/prost/ibc.lightclients.ethereum.v1.rs:3-42 | every raw client state whose encoding has a 64-bit length survives the wire, with every optional field present or absent |
| ClientCodec.RawStructRoundTrip | light-client/src/client_state.rs:284-410 | converting a client state to the raw struct and back is lossless exactly for representable states |
| ClientCodec.RoundTrip | light-client/src/client_state.rs:412-452 | decode(encode(c)) = c down to the bytes if and only if both durations fit signed 64-bit seconds and the fork parameters and trust level are ones their constructors accept |
| ClientCodec.DecodedRepresentable | light-client/src/client_state.rs:289-347 | everything the decoder accepts is representable |
| ClientCodec.ReencodedLength | light-client/src/client_state.rs:412-437 | re-encoding an accepted client state takes at most 263 bytes more than were accepted, whatever its latest block number and frozen height become: fork parameters, however they were split, merged or padded on the wire, never grow |
| ClientCodec.Normalises | light-client/src/client_state.rs:412-437 | any accepted byte vector decodes to a client state whose own encoding decodes to it again |
| ClientCodec.EncodeInjective | light-client/src/client_state.rs:425-437 | representable client states have different encodings |
| ClientCodec.LongPeriodsCollide | light-client/src/client_state.rs:401-402 | two trusting periods above the signed 64-bit range are encoded alike: the round trip needs its condition |
| Encoder.Buffer.PutVarint | light-client/src/client_state.rs:430-431 | the loop that emits seven bits at a time appends exactly the varint of the value |
| Encoder.Buffer.PutFields | light-client/src/client_state.rs:428-436 | the encoder appends exactly the specified bytes of the fields, in order, to what the buffer held |
| Encoder.EncodeConsensusState | light-client/src/consensus_state.rs:179-191 | writing into an empty vector yields the encoding that the round trip is proved for |
| Encoder.EncodeClientState | light-client/src/client_state.rs:425-437 | the same for client states |
| Encoder.ComputeStateId | light-client/src/state.rs:8-15 | cloning, resetting, encoding both states into buffers and hashing computes the specified state id |
| Commitment.CanonicalizeClone | light-client/src/client_state.rs:103-108 | the updated clone has no latest block number and no frozen height, and every other parameter as before |
| Commitment.StableIds | light-client/src/state.rs:8-15 | client states that differ only in latest block number and frozen height give the same id with every consensus state |
| Commitment.StateIdArguments | light-client/src/state.rs:8-15 | the hash is given the client state without its moving fields first and the consensus state second, each encoded under its own type URL |
| Commitment.CommitmentInjective | light-client/src/state.rs:8-15 | two ids agree if and only if the consensus states are equal and the client states differ at most in latest block number and frozen height |
| Updates.CheckHeaderAndUpdateState | light-client/src/client_state.rs:176-243 | the early returns and field-by-field updates yield a pair of states if and only if every check passes, and then exactly this pair: slot, account storage root, timestamp and both keys replaced together, latest block number the maximum |
| LightClient.MakePrevStates | light-client/src/client.rs:269-286 | the loop computes the specified list or the first failure |
| LightClient.PrevStatesExact | light-client/src/client.rs:269-286 | a list is the result if and only if it has one entry per height in order, each with the id of the given client state and the state stored there; no list is when a height is missing |
| Refinement.CreateRefines | light-client/src/client.rs:42-72 | a byte-storing host creates a client when and as the machine does on the decoded states, stores exactly the given bytes at the created height, and announces the given client state there |
| Refinement.StepRefines | light-client/src/client.rs:74-265 | every call on stored bytes succeeds exactly when the machine's step does, fails with the same error, and writes bytes that decode to the machine's new states |
| Refinement.RunRefines | light-client/src/client.rs:197-217 | over every run the stored bytes decode to the machine's state and the logs are equal |
| Hosting.Host.constructor | light-client/src/client.rs:42-72 | a host set up from a successful creation holds the given bytes at the height its one message posts, and that message emits the given client state there |
| Hosting.Host.UpdateState | light-client/src/client.rs:167-220 | an update writes both returned states and one message, and a failed one changes nothing |
| Hosting.Host.SubmitMisbehaviour | light-client/src/client.rs:222-267 | a misbehaviour writes the frozen client state and one message, and a failed one changes nothing |
| Hosting.Host.Handle | light-client/src/client.rs:74-164 | every event moves the stored state exactly as the specified step |
| Hosting.Host.HandleAll | light-client/src/client.rs:74-164 | a host that handles any sequence of events ends as the specified run does |
| Lifecycle.ReachableClient | light-client/src/client_state.rs:138-174 | in every reachable state the parameters are those of creation, every field is still initialized as creation demands, and the height with revision 0 and the latest block number is stored, the maximum, and has not decreased; all keys have revision 0 |
| Lifecycle.FreezingIsFinal | light-client/src/client.rs:184-186 | once frozen, no event of any kind succeeds: state, store and log stay as they are in every run |
| Lifecycle.OneFreeze | light-client/src/client_state.rs:245-281 | in every run at most one misbehaviour succeeds; it is the last message, names this client, and its height is stored, is the frozen height and carries that state's id |
| Replay.ReplayRefines | light-client/src/client.rs:56-72 | replaying the log of any run against a plain map of heights to ids never rejects: each update's previous id is the last posted for its height, reports and proofs name current ids, and the result is exactly the ids of the stored states |
| Periods.PeriodExact | light-client/src/consensus_state.rs:49-51 | the two divisions give period p if and only if the slot lies in the p-th interval of slots per epoch times epochs per period slots |
| Periods.CommitteesExact | light-client/src/client_state.rs:227-229 | the keys after an update from the interval of period p to that of q: kept if q = p, shifted if q = p + 1 and the update brings its next committee, each other case its own error |
| Committees.UpdateInLine | light-client/src/client_state.rs:227-242 | an accepted header keeps both keys those of the period whose slot interval contains the slot, and of the next, within a period and across a boundary |
| Committees.RunInLine | light-client/src/consensus_state.rs:28-33 | the same for every consensus state of every reachable store |
| Committees.ReachableInLine | light-client/src/client_state.rs:227-242 | from creation on, one honest initial consensus state is enough |
| Provenance.ReachableDescended | light-client/src/client.rs:173-217 | every stored consensus state has a chain of update messages back to the creation message, adjacent ones matching on height and state id, slots increasing within the same or into the next period's interval, and timestamps advancing by at most trusting period plus clock drift, even through overwritten heights |
| Provenance.ChainSpan | light-client/src/consensus_state.rs:49-63 | along such a chain slots strictly increase, from the slot interval of period p to that of q there are at least q - p edges, and the timestamp is ahead by at most the number of edges times trusting period plus clock drift |
| Evidence.SubmissionVerified | light-client/src/client_state.rs:176-209 | every submission that succeeds in a run passed the external verifier with the eight parameters of creation and the time of its own call, on the state stored at the height it trusts and the committee named there; headers passed the account verifier too |
| Evidence.SubmissionSigned | light-client/src/client_state.rs:124-136 | so if the verifier enforces its context, every update and misbehaviour that succeeds in a run meets the minimum of participants the client was created with, and was signed by the time of its call |
| Evidence.FreezeProved | light-client/src/misbehaviour.rs:143-160 | in every run a reported freeze carries the submitted message: its type URL says the kind of misbehaviour it decodes to, which names this client and the frozen height and passed the verifier |
| Evidence.StatesProduced | light-client/src/client_state.rs:230-242 | every stored state is the created one or was produced by a submitted header: height, slot and storage root are the header's, the timestamp is the slot's or, from Gloas on, the one in its execution header |
| Evidence.CreationAnnounced | light-client/src/client.rs:56-72 | in every run the first message emits exactly the client state given at creation, at the height it posts and with an empty context, and no later message emits a state |
| Reordering.CheckCanonical | light-client/src/client_state.rs:176-243 | the verdict on a header and the state it yields do not depend on the latest block number or the frozen height |
| Reordering.Commute | light-client/src/client.rs:167-220 | two updates that write different heights and do not trust each other's succeed in both orders, with the same client state, store and messages |
| Reordering.CommuteExactly | light-client/src/client.rs:167-220 | updates of which neither trusts the height the other writes succeed in both orders with the same client state and messages; the stores agree if and only if the updates write different heights, or have the same finalized slot, account storage root, timestamp and resulting keys on the states they trust |
| Witnesses.OverwritesDoNotCommute | light-client/src/header.rs:57-59 | two accepted Gloas updates for one execution block and different finalized slots give different stores in the two orders |
| Reordering.Resubmission | light-client/src/consensus_state.rs:61-63 | an accepted update submitted again changes no state and repeats its message, unless it overwrote the state it trusts, and then it is rejected |
| Reordering.Reordered | light-client/src/client.rs:167-220 | every permutation of a successful run of updates in which only independent updates change places succeeds, with the same client state, store and messages |
| Reordering.RunReordered | light-client/src/client.rs:74-89 | that result for the machine's runs on submitted messages |
| Timing.ExpiryIsAbsorbing | light-client/src/client_state.rs:214-219 | once the clock has passed every stored timestamp plus the trusting period, no submission succeeds and client state and store never change |
| Timing.RefreshBound | light-client/src/client_state.rs:214-225 | with a clock that never goes back, successive successful updates, counting creation, are at most trusting period plus clock drift apart |
| Timing.TimestampExact | light-client/src/header.rs:82-94 | for pre-Gloas states made by updates in any reachable store, the timestamp is genesis time plus slot times seconds per slot if and only if that fits in 64 bits |
| Witnesses.TimestampWraps | light-client/src/header.rs:82-94 | a created client accepts a pre-Gloas header whose stored timestamp is not the time of its slot |
| Timing.OrdersAgree | light-client/src/header.rs:82-94 | over the whole store the strict orders of such states by slot and by timestamp agree |
| Timing.UpdateContextFaithful | light-client/src/client.rs:211-216 | the context of an update message, evaluated at any time, accepts exactly when the client's own two checks would at that time, and it accepts at the time of the update |
| Timing.MisbehaviourContextFaithful | light-client/src/client.rs:257-263 | the context of a misbehaviour message is the trusting-period check alone at every time after the epoch |
| EndToEnd.HostReplay | light-client/src/client.rs:42-89 | after any run of a byte-storing host its stored bytes decode, its parameters are those of creation, and its log replays to exactly the ids of the decoded stored states |
| EndToEnd.HostAnnounces | light-client/src/client.rs:56-72 | the client state emitted by a byte-storing host's first message is the one it was given, and decodes to the parameters of every later client state |
| EndToEnd.Serve | light-client/src/client.rs:42-89 | the same of a host object that is set up and handles any sequence of events |
| EndToEnd.LogDeterminesStore | light-client/src/state.rs:8-15 | with a collision-free hash, two byte-storing hosts with equal logs hold the same consensus states at the same heights under the same parameters, however they were created and run |
| Machine.CreateExact | light-client/src/client.rs:42-72 | creation succeeds with a state if and only if every field is initialized, the client unfrozen and the state id available, and then holds the one consensus state and the one message |
| Updates.ContextExact | light-client/src/client_state.rs:124-136 | the context of a call has the client's eight parameters, and the host time in whole seconds |
| Updates.HeaderTimestampExact | light-client/src/header.rs:82-94 | a header has a timestamp if and only if it is the 64-bit time of its slot or, from Gloas on, the time in its own execution header |
| Updates.TimeChecksExact | light-client/src/client_state.rs:213-225 | both time checks, either way, in seconds and nanoseconds |
| LightClient.DecodeHeaderExact | light-client/src/header.rs:31-45 | a message is a header if and only if it has the header type URL and its decoder yields it |
| LightClient.DecodeMisbehaviourExact | light-client/src/misbehaviour.rs:143-160 | a message is a misbehaviour if and only if it has one of the two type URLs and that URL's own decoder yields it |
| Updates.CheckMisbehaviourExact | light-client/src/client_state.rs:245-281 | a misbehaviour is accepted if and only if it names this client, its committee is the trusted one, the verifier agrees and the trusted state has not expired; only the frozen height changes, to the trusted height |
| Machine.StepExact | light-client/src/client.rs:74-265 | a step succeeds with a given state if and only if that state is the outcome of an accepted header, an accepted misbehaviour or an accepted proof on an unfrozen client with the named height stored: states, and the one appended message with its ids |

## Left out

- Signature, Merkle, RLP and account-proof verification and hashing: external; arbitrary functions here.
- Wire encoding of headers and misbehaviour: their nested raw types live in another crate; the three
  decoders are arbitrary functions, only the dispatch on the type URL is modelled.
- Several clients in one host: the model keeps one client, and a call for another id is not modelled.
- Error values: one tag per cause, without the payload of the source's errors.
- `latest_height`, `client_type` and the registration of the client: no property of interest.
- `prove` flags of the results: constants.
- `build_context` narrows the number of required participants to `usize`; the model keeps 64 bits.
- ClientCodec.RoundTrip: requires an encoding of less than 2^64 bytes, as every byte vector has.
- Encoder.Buffer.PutFields: nested messages are passed as finished payloads; the separate length
  computation of the generated encoder is not modelled.
- Timing.OrdersAgree: states from the Gloas fork on carry the execution header's own timestamp, which
  is not tied to the slot.
