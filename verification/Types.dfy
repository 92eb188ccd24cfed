/** The values the light client works on: fixed-width integers and byte strings, the client and
    consensus states, the relayer's messages and the messages emitted for the proxy. */
module Types {

  type u64 = x: int | 0 <= x < 0x1_0000_0000_0000_0000
  type u32 = x: int | 0 <= x < 0x1_0000_0000
  type i64 = x: int | -0x8000_0000_0000_0000 <= x < 0x8000_0000_0000_0000
  type i32 = x: int | -0x8000_0000 <= x < 0x8000_0000
  type byte = x: int | 0 <= x < 0x100
  type bytes = seq<byte>

  const U64_LIMIT: int := 0x1_0000_0000_0000_0000
  const I64_MAX: int := 0x7FFF_FFFF_FFFF_FFFF
  const NANOS_PER_SECOND: int := 1_000_000_000

  datatype Option<+T> = None | Some(value: T)

  datatype Result<+T> = Ok(value: T) | Err(error: Error) {
    predicate IsFailure() {
      Err?
    }

    function PropagateFailure<U>(): Result<U>
      requires Err?
    {
      Err(error)
    }

    function Extract(): T
      requires Ok?
    {
      value
    }
  }

  /** One tag per cause of failure. */
  datatype Error =
    | NotFound
    | ClientFrozen
    | CannotInitializeFrozenClient
    | UninitializedClientStateField
    | MissingBellatrixFork
    | UninitializedConsensusStateField
    | InvalidTrustedSyncCommittee
    | ZeroBlockNumber
    | UnexpectedCommitteeKey
    | InvalidExecutionHeader
    | TimestampOutOfRange
    | DivisionByZero
    | Verification
    | AccountProof
    | OutOfTrustingPeriod
    | HeaderFromFuture
    | MissingNextSyncCommittee
    | PeriodNotCovered
    | UnexpectedClientId
    | UnknownType
    | ProtoDecode
    | ProtoMissingField
    | InvalidRawState
    | UnexpectedStoreAddress
    | MissingTrustingPeriod
    | NegativeMaxClockDrift
    | Commitment
    | Membership

  /** Byte strings of the lengths the source's array types fix. */
  type H256 = s: bytes | |s| == 32 witness seq(32, i => 0)
  type Address = s: bytes | |s| == 20 witness seq(20, i => 0)
  type Version = s: bytes | |s| == 4 witness seq(4, i => 0)
  type PublicKey = s: bytes | |s| == 48 witness seq(48, i => 0)

  /** Nanoseconds since the Unix epoch, up to the end of the year 9999. */
  const TIME_MAX: int := 253_402_300_799_999_999_999
  type Time = t: int | 0 <= t <= 253_402_300_799_999_999_999

  /** A non-negative span of time: whole seconds and a fraction below one second. */
  type Nanos = n: int | 0 <= n < 1_000_000_000
  datatype Duration = Duration(secs: u64, nanos: Nanos) {
    function InNanos(): nat {
      secs * NANOS_PER_SECOND + nanos
    }
  }

  datatype Height = Height(revisionNumber: u64, revisionHeight: u64)

  datatype Fraction = Fraction(numerator: u64, denominator: u64)

  datatype ForkSpec = ForkSpec(
    finalizedRootGindex: u32,
    currentSyncCommitteeGindex: u32,
    nextSyncCommitteeGindex: u32,
    executionPayloadGindex: u32,
    executionPayloadStateRootGindex: u32,
    executionPayloadBlockNumberGindex: u32,
    executionBlockHashGindex: u32)

  datatype Fork = Fork(version: Version, epoch: u64, spec: ForkSpec)

  datatype ForkParameters = ForkParameters(genesisVersion: Version, forks: seq<Fork>)

  datatype ClientState = ClientState(
    genesisValidatorsRoot: H256,
    minSyncCommitteeParticipants: u64,
    genesisTime: u64,
    forkParameters: ForkParameters,
    secondsPerSlot: u64,
    slotsPerEpoch: u64,
    epochsPerSyncCommitteePeriod: u64,
    ibcAddress: Address,
    ibcCommitmentsSlot: H256,
    trustLevel: Fraction,
    trustingPeriod: Duration,
    maxClockDrift: Duration,
    latestExecutionBlockNumber: u64,
    frozenHeight: Option<Height>)

  datatype ConsensusState = ConsensusState(
    slot: u64,
    storageRoot: H256,
    timestamp: Time,
    currentSyncCommittee: PublicKey,
    nextSyncCommittee: PublicKey)

  /** A protobuf `Any`: a type URL and the encoded message. */
  datatype Any = Any(typeUrl: string, value: bytes)

  /** A byte vector holds at most 2^63 - 1 bytes. */
  predicate IsVector(b: bytes) {
    |b| <= I64_MAX
  }

  /** An idealised digest: the real one has 32 bytes and is collision free only in practice. */
  datatype StateId = StateId(digest: bytes)

  // What the relayer submits. `evidence` and `branches` stand for the signatures, headers and
  // Merkle branches that only the external verifiers look into.

  datatype SyncCommittee = SyncCommittee(pubkeys: seq<PublicKey>, aggregatePubkey: PublicKey)

  datatype TrustedSyncCommittee = TrustedSyncCommittee(height: Height, syncCommittee: SyncCommittee, isNext: bool)

  datatype ConsensusUpdate = ConsensusUpdate(
    finalizedSlot: u64,
    nextSyncCommittee: Option<SyncCommittee>,
    evidence: bytes)

  datatype ExecutionUpdate = ExecutionUpdate(stateRoot: H256, blockNumber: u64, rlp: bytes, branches: bytes)

  datatype AccountUpdate = AccountUpdate(accountProof: seq<bytes>, accountStorageRoot: H256)

  datatype Header = Header(
    trustedSyncCommittee: TrustedSyncCommittee,
    consensusUpdate: ConsensusUpdate,
    executionUpdate: ExecutionUpdate,
    accountUpdate: AccountUpdate)

  datatype MisbehaviourData =
    | FinalizedHeader(update1: ConsensusUpdate, update2: ConsensusUpdate)
    | NextSyncCommittee(update1: ConsensusUpdate, update2: ConsensusUpdate)

  datatype Misbehaviour = Misbehaviour(
    clientId: string,
    trustedSyncCommittee: TrustedSyncCommittee,
    data: MisbehaviourData)

  datatype ClientMessage = HeaderMessage(header: Header) | MisbehaviourMessage(misbehaviour: Misbehaviour)

  /** The part of a client state the external verifier works with, and the time of the call. */
  datatype ChainContext = ChainContext(
    forkParameters: ForkParameters,
    secondsPerSlot: u64,
    slotsPerEpoch: u64,
    epochsPerSyncCommitteePeriod: u64,
    genesisTime: u64,
    genesisValidatorsRoot: H256,
    minSyncCommitteeParticipants: u64,
    trustLevel: Fraction,
    nowSecs: nat)

  datatype TrustedConsensusState = TrustedConsensusState(
    state: ConsensusState,
    syncCommittee: SyncCommittee,
    isNext: bool)

  // The messages emitted for the proxy.

  datatype ValidationContext =
    | Empty
    | TrustingPeriod(
        trustingPeriod: Duration,
        clockDrift: Duration,
        untrustedHeaderTimestamp: Time,
        trustedStateTimestamp: Time)

  datatype PrevState = PrevState(height: Height, stateId: StateId)

  datatype EmittedState = EmittedState(height: Height, state: Any)

  datatype ProxyMessage =
    | UpdateState(
        prevHeight: Option<Height>,
        prevStateId: Option<StateId>,
        postHeight: Height,
        postStateId: StateId,
        emittedStates: seq<EmittedState>,
        timestamp: Time,
        context: ValidationContext)
    | Misbehave(prevStates: seq<PrevState>, context: ValidationContext, clientMessage: Any)
    | Verify(prefix: bytes, path: string, value: Option<bytes>, height: Height, stateId: StateId)
}
