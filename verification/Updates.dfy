/** How a client state judges a header or a misbehaviour, and the states that result. */
module Updates {
  import opened Types
  import opened Externals
  import opened Commitment

  const BELLATRIX_INDEX: nat := 1
  const ETHEREUM_CLIENT_REVISION_NUMBER: u64 := 0

  function Zeros(n: nat): (b: bytes)
    ensures |b| == n
  {
    seq(n, i => 0)
  }

  const ZERO_H256: H256 := Zeros(32)
  const ZERO_ADDRESS: Address := Zeros(20)
  const ZERO_VERSION: Version := Zeros(4)
  const ZERO_PUBLIC_KEY: PublicKey := Zeros(48)

  function LatestHeight(c: ClientState): Height {
    Height(ETHEREUM_CLIENT_REVISION_NUMBER, c.latestExecutionBlockNumber)
  }

  function ValidateClientState(x: Externals, c: ClientState): Result<()> {
    if c.genesisValidatorsRoot == ZERO_H256 then Err(UninitializedClientStateField)
    else if c.minSyncCommitteeParticipants == 0 then Err(UninitializedClientStateField)
    else if c.genesisTime == 0 then Err(UninitializedClientStateField)
    else if c.forkParameters == ForkParameters(ZERO_VERSION, []) then Err(UninitializedClientStateField)
    else if |c.forkParameters.forks| <= BELLATRIX_INDEX then Err(MissingBellatrixFork)
    else if c.secondsPerSlot == 0 then Err(UninitializedClientStateField)
    else if c.slotsPerEpoch == 0 then Err(UninitializedClientStateField)
    else if c.epochsPerSyncCommitteePeriod == 0 then Err(UninitializedClientStateField)
    else if c.ibcAddress == ZERO_ADDRESS then Err(UninitializedClientStateField)
    else if c.trustLevel == x.defaultTrustLevel then Err(UninitializedClientStateField)
    else if c.trustingPeriod == Duration(0, 0) then Err(UninitializedClientStateField)
    else if c.latestExecutionBlockNumber == 0 then Err(UninitializedClientStateField)
    else Ok(())
  }

  /** A storage root is never empty: it always has 32 bytes. */
  function ValidateConsensusState(c: ConsensusState): Result<()> {
    if c.slot == 0 then Err(UninitializedConsensusStateField)
    else if c.timestamp == 0 then Err(UninitializedConsensusStateField)
    else if c.currentSyncCommittee == ZERO_PUBLIC_KEY then Err(UninitializedConsensusStateField)
    else if c.nextSyncCommittee == ZERO_PUBLIC_KEY then Err(UninitializedConsensusStateField)
    else Ok(())
  }

  function BuildContext(c: ClientState, now: Time): ChainContext {
    ChainContext(
      c.forkParameters, c.secondsPerSlot, c.slotsPerEpoch, c.epochsPerSyncCommitteePeriod, c.genesisTime,
      c.genesisValidatorsRoot, c.minSyncCommitteeParticipants, c.trustLevel, now / NANOS_PER_SECOND)
  }

  function Quotient(a: nat, b: nat): nat
    requires b > 0
  {
    a / b
  }

  /** The sync committee period a slot belongs to. */
  function Period(slotsPerEpoch: u64, epochsPerPeriod: u64, slot: u64): nat
    requires slotsPerEpoch > 0 && epochsPerPeriod > 0
  {
    Quotient(Quotient(slot, slotsPerEpoch), epochsPerPeriod)
  }

  function PeriodAt(cc: ChainContext, slot: u64): Result<nat> {
    if cc.slotsPerEpoch == 0 || cc.epochsPerSyncCommitteePeriod == 0 then Err(DivisionByZero)
    else Ok(Period(cc.slotsPerEpoch, cc.epochsPerSyncCommitteePeriod, slot))
  }

  /** Unsigned 64-bit arithmetic that wraps: the enclave is built without overflow checks. */
  function TimestampAtSlot(cc: ChainContext, slot: u64): u64 {
    (cc.genesisTime + slot * cc.secondsPerSlot) % U64_LIMIT
  }

  function TimeFromSeconds(secs: u64): Result<Time> {
    if secs * NANOS_PER_SECOND <= TIME_MAX then Ok(secs * NANOS_PER_SECOND) else Err(TimestampOutOfRange)
  }

  // ---------------------------------------------------------------- headers

  function ValidateHeader(x: Externals, h: Header): Result<()> {
    if !x.committeeValid(h.trustedSyncCommittee) then Err(InvalidTrustedSyncCommittee)
    else if h.executionUpdate.blockNumber == 0 then Err(ZeroBlockNumber)
    else Ok(())
  }

  /** Before Gloas the timestamp of the finalized slot; from Gloas on the execution header's own. */
  function HeaderTimestamp(x: Externals, cc: ChainContext, h: Header): Result<Time> {
    var slot := h.consensusUpdate.finalizedSlot;
    if x.isGloas(cc.forkParameters, cc.slotsPerEpoch, slot) then
      match x.rlpTimestamp(h.executionUpdate.rlp)
      case None => Err(InvalidExecutionHeader)
      case Some(secs) => TimeFromSeconds(secs)
    else TimeFromSeconds(TimestampAtSlot(cc, slot))
  }

  // ---------------------------------------------------------------- checks made by the libraries

  /** The committee supplied by the relayer must be the one the consensus state names. */
  function NewTrustedConsensusState(c: ConsensusState, committee: SyncCommittee, isNext: bool)
    : Result<TrustedConsensusState>
  {
    var expected := if isNext then c.nextSyncCommittee else c.currentSyncCommittee;
    if committee.aggregatePubkey == expected then Ok(TrustedConsensusState(c, committee, isNext))
    else Err(UnexpectedCommitteeKey)
  }

  predicate WithinTrustingPeriod(x: Externals, now: Time, trustingPeriod: Duration, trusted: Time) {
    var end := trusted + trustingPeriod.InNanos();
    now < end || (x.trustingEndIncluded && now == end)
  }

  predicate NotFromFuture(x: Externals, now: Time, drift: Duration, header: Time) {
    var bound := now + drift.InNanos();
    header < bound || (x.driftEndIncluded && header == bound)
  }

  /** Both committee keys of the updated state: kept within a period, shifted into the next one. */
  function ComputeSyncCommittees(cc: ChainContext, c: ConsensusState, u: ConsensusUpdate)
    : Result<(PublicKey, PublicKey)>
  {
    var stored :- PeriodAt(cc, c.slot);
    var updated :- PeriodAt(cc, u.finalizedSlot);
    if updated == stored then Ok((c.currentSyncCommittee, c.nextSyncCommittee))
    else if updated == stored + 1 then
      match u.nextSyncCommittee
      case None => Err(MissingNextSyncCommittee)
      case Some(committee) => Ok((c.nextSyncCommittee, committee.aggregatePubkey))
    else Err(PeriodNotCovered)
  }

  // ---------------------------------------------------------------- what these computations amount to

  /** The context of a call, field by field: eight parameters of the client, and the host time in
      whole seconds. */
  predicate ContextOf(cc: ChainContext, client: ClientState, now: Time) {
    && cc.forkParameters == client.forkParameters
    && cc.secondsPerSlot == client.secondsPerSlot
    && cc.slotsPerEpoch == client.slotsPerEpoch
    && cc.epochsPerSyncCommitteePeriod == client.epochsPerSyncCommitteePeriod
    && cc.genesisTime == client.genesisTime
    && cc.genesisValidatorsRoot == client.genesisValidatorsRoot
    && cc.minSyncCommitteeParticipants == client.minSyncCommitteeParticipants
    && cc.trustLevel == client.trustLevel
    && cc.nowSecs * 1_000_000_000 <= now < (cc.nowSecs + 1) * 1_000_000_000
  }

  lemma ContextExact(client: ClientState, now: Time, cc: ChainContext)
    ensures cc == BuildContext(client, now) <==> ContextOf(cc, client, now)
  {}

  /** The timestamp of a header: from Gloas on the time in its own execution header, before that the
      64-bit time of its finalized slot. There is none beyond the year 9999. */
  lemma HeaderTimestampExact(x: Externals, cc: ChainContext, h: Header, t: Time)
    ensures
      HeaderTimestamp(x, cc, h) == Ok(t) <==>
      var slot, secs := h.consensusUpdate.finalizedSlot, x.rlpTimestamp(h.executionUpdate.rlp);
      if x.isGloas(cc.forkParameters, cc.slotsPerEpoch, slot) then secs.Some? && t == secs.value * 1_000_000_000
      else t == (cc.genesisTime + slot * cc.secondsPerSlot) % 0x1_0000_0000_0000_0000 * 1_000_000_000
  {}

  /** The two time checks, in seconds and nanoseconds; at the exact instant the flags decide. */
  lemma TimeChecksExact(x: Externals, now: Time, d: Duration, t: Time)
    ensures WithinTrustingPeriod(x, now, d, t) <==>
            || now - t < d.secs * 1_000_000_000 + d.nanos
            || (now - t == d.secs * 1_000_000_000 + d.nanos && x.trustingEndIncluded)
    ensures NotFromFuture(x, now, d, t) <==>
            || t - now < d.secs * 1_000_000_000 + d.nanos
            || (t - now == d.secs * 1_000_000_000 + d.nanos && x.driftEndIncluded)
  {}

  // ---------------------------------------------------------------- client state transitions

  function CheckHeader(x: Externals, client: ClientState, now: Time, trusted: ConsensusState, h: Header)
    : Result<(ClientState, ConsensusState)>
  {
    var cc := BuildContext(client, now);
    var _ :- ValidateHeader(x, h);
    var timestamp :- HeaderTimestamp(x, cc, h);
    var state :- NewTrustedConsensusState(
      trusted, h.trustedSyncCommittee.syncCommittee, h.trustedSyncCommittee.isNext);
    if !x.validateUpdates(cc, state, h.consensusUpdate, h.executionUpdate) then Err(Verification)
    else if !x.verifyAccountStorage(h.executionUpdate.stateRoot, client.ibcAddress, h.accountUpdate) then
      Err(AccountProof)
    else if !WithinTrustingPeriod(x, now, client.trustingPeriod, trusted.timestamp) then Err(OutOfTrustingPeriod)
    else if !NotFromFuture(x, now, client.maxClockDrift, timestamp) then Err(HeaderFromFuture)
    else
      var keys :- ComputeSyncCommittees(cc, trusted, h.consensusUpdate);
      var number := h.executionUpdate.blockNumber;
      Ok((if client.latestExecutionBlockNumber < number then client.(latestExecutionBlockNumber := number) else client,
          ConsensusState(
            h.consensusUpdate.finalizedSlot, h.accountUpdate.accountStorageRoot, timestamp, keys.0, keys.1)))
  }

  function Max(a: u64, b: u64): u64 {
    if a < b then b else a
  }

  /** When a header is accepted, and the two states that result; in no particular order of checks. */
  ghost predicate Accepted(
    x: Externals, client: ClientState, now: Time, trusted: ConsensusState, h: Header,
    c': ClientState, n: ConsensusState)
  {
    var cc := BuildContext(client, now);
    var state := TrustedConsensusState(
      trusted, h.trustedSyncCommittee.syncCommittee, h.trustedSyncCommittee.isNext);
    && x.committeeValid(h.trustedSyncCommittee)
    && h.executionUpdate.blockNumber > 0
    && HeaderTimestamp(x, cc, h) == Ok(n.timestamp)
    && state.syncCommittee.aggregatePubkey
       == (if state.isNext then trusted.nextSyncCommittee else trusted.currentSyncCommittee)
    && x.validateUpdates(cc, state, h.consensusUpdate, h.executionUpdate)
    && x.verifyAccountStorage(h.executionUpdate.stateRoot, client.ibcAddress, h.accountUpdate)
    && WithinTrustingPeriod(x, now, client.trustingPeriod, trusted.timestamp)
    && NotFromFuture(x, now, client.maxClockDrift, n.timestamp)
    && ComputeSyncCommittees(cc, trusted, h.consensusUpdate) == Ok((n.currentSyncCommittee, n.nextSyncCommittee))
    && n.slot == h.consensusUpdate.finalizedSlot
    && n.storageRoot == h.accountUpdate.accountStorageRoot
    && c' == client.(
         latestExecutionBlockNumber := Max(client.latestExecutionBlockNumber, h.executionUpdate.blockNumber))
  }

  /** A header is accepted exactly when every check passes, with exactly these two states. */
  lemma CheckHeaderExact(
    x: Externals, client: ClientState, now: Time, trusted: ConsensusState, h: Header,
    c': ClientState, n: ConsensusState)
    ensures CheckHeader(x, client, now, trusted, h) == Ok((c', n)) <==> Accepted(x, client, now, trusted, h, c', n)
  {
    hide HeaderTimestamp, ComputeSyncCommittees, WithinTrustingPeriod, NotFromFuture;
  }

  /** The transition as the source makes it: both states are cloned and updated field by field. It
      yields a pair of states exactly when every check passes, and then the pair with every field as
      `Accepted` says; otherwise the error of the first check that fails. */
  method CheckHeaderAndUpdateState(
    x: Externals, client: ClientState, now: Time, trusted: ConsensusState, h: Header)
    returns (r: Result<(ClientState, ConsensusState)>)
    ensures forall c', n :: r == Ok((c', n)) <==> Accepted(x, client, now, trusted, h, c', n)
    ensures r == CheckHeader(x, client, now, trusted, h)
  {
    forall c', n
      ensures CheckHeader(x, client, now, trusted, h) == Ok((c', n)) <==> Accepted(x, client, now, trusted, h, c', n)
    {
      CheckHeaderExact(x, client, now, trusted, h, c', n);
    }
    hide Accepted;
    var cc := BuildContext(client, now);
    var _ :- ValidateHeader(x, h);
    var timestamp :- HeaderTimestamp(x, cc, h);
    var state :- NewTrustedConsensusState(
      trusted, h.trustedSyncCommittee.syncCommittee, h.trustedSyncCommittee.isNext);
    if !x.validateUpdates(cc, state, h.consensusUpdate, h.executionUpdate) {
      return Err(Verification);
    }
    if !x.verifyAccountStorage(h.executionUpdate.stateRoot, client.ibcAddress, h.accountUpdate) {
      return Err(AccountProof);
    }
    if !WithinTrustingPeriod(x, now, client.trustingPeriod, trusted.timestamp) {
      return Err(OutOfTrustingPeriod);
    }
    if !NotFromFuture(x, now, client.maxClockDrift, timestamp) {
      return Err(HeaderFromFuture);
    }
    var keys :- ComputeSyncCommittees(cc, trusted, h.consensusUpdate);

    var newClient := client;
    if newClient.latestExecutionBlockNumber < h.executionUpdate.blockNumber {
      newClient := newClient.(latestExecutionBlockNumber := h.executionUpdate.blockNumber);
    }
    var newConsensus := trusted;
    newConsensus := newConsensus.(slot := h.consensusUpdate.finalizedSlot);
    newConsensus := newConsensus.(storageRoot := h.accountUpdate.accountStorageRoot);
    newConsensus := newConsensus.(timestamp := timestamp);
    newConsensus := newConsensus.(currentSyncCommittee := keys.0);
    newConsensus := newConsensus.(nextSyncCommittee := keys.1);
    return Ok((newClient, newConsensus));
  }

  function CheckMisbehaviour(
    x: Externals, client: ClientState, now: Time, clientId: string, trusted: ConsensusState, m: Misbehaviour)
    : Result<ClientState>
  {
    if !x.committeeValid(m.trustedSyncCommittee) then Err(InvalidTrustedSyncCommittee)
    else if m.clientId != clientId then Err(UnexpectedClientId)
    else
      var state :- NewTrustedConsensusState(
        trusted, m.trustedSyncCommittee.syncCommittee, m.trustedSyncCommittee.isNext);
      if !x.validateMisbehaviour(BuildContext(client, now), state, m.data) then Err(Verification)
      else if !WithinTrustingPeriod(x, now, client.trustingPeriod, trusted.timestamp) then Err(OutOfTrustingPeriod)
      else Ok(client.(frozenHeight := Some(m.trustedSyncCommittee.height)))
  }

  // ---------------------------------------------------------------- what an accepted call establishes

  lemma CheckHeaderOutcome(x: Externals, client: ClientState, now: Time, trusted: ConsensusState, h: Header)
    requires CheckHeader(x, client, now, trusted, h).Ok?
    ensures Accepted(x, client, now, trusted, h,
                     CheckHeader(x, client, now, trusted, h).value.0, CheckHeader(x, client, now, trusted, h).value.1)
  {
    hide CheckHeader, Accepted;
    var (c', n) := CheckHeader(x, client, now, trusted, h).value;
    CheckHeaderExact(x, client, now, trusted, h, c', n);
  }

  lemma CheckHeaderParameters(x: Externals, client: ClientState, now: Time, trusted: ConsensusState, h: Header)
    requires CheckHeader(x, client, now, trusted, h).Ok?
    ensures SameParameters(CheckHeader(x, client, now, trusted, h).value.0, client)
  {
    hide CheckHeader, HeaderTimestamp, ComputeSyncCommittees;
    CheckHeaderOutcome(x, client, now, trusted, h);
  }

  /** A misbehaviour is accepted exactly when it names this client, its committee is the trusted
      one, both verifiers agree and the trusted state has not expired; the client is then frozen at
      the trusted height and otherwise unchanged. */
  lemma CheckMisbehaviourExact(
    x: Externals, client: ClientState, now: Time, clientId: string, trusted: ConsensusState, m: Misbehaviour,
    c': ClientState)
    ensures
      CheckMisbehaviour(x, client, now, clientId, trusted, m) == Ok(c') <==>
      var t := m.trustedSyncCommittee;
      var expected := if t.isNext then trusted.nextSyncCommittee else trusted.currentSyncCommittee;
      && x.committeeValid(t)
      && m.clientId == clientId
      && t.syncCommittee.aggregatePubkey == expected
      && x.validateMisbehaviour(
           BuildContext(client, now), TrustedConsensusState(trusted, t.syncCommittee, t.isNext), m.data)
      && WithinTrustingPeriod(x, now, client.trustingPeriod, trusted.timestamp)
      && c' == client.(frozenHeight := Some(t.height))
  {}

  lemma CheckMisbehaviourParameters(
    x: Externals, client: ClientState, now: Time, clientId: string, trusted: ConsensusState, m: Misbehaviour)
    requires CheckMisbehaviour(x, client, now, clientId, trusted, m).Ok?
    ensures SameParameters(CheckMisbehaviour(x, client, now, clientId, trusted, m).value, client)
  {
    CheckMisbehaviourOutcome(x, client, now, clientId, trusted, m);
  }

  lemma CheckMisbehaviourOutcome(
    x: Externals, client: ClientState, now: Time, clientId: string, trusted: ConsensusState, m: Misbehaviour)
    requires CheckMisbehaviour(x, client, now, clientId, trusted, m).Ok?
    ensures CheckMisbehaviour(x, client, now, clientId, trusted, m).value
         == client.(frozenHeight := Some(m.trustedSyncCommittee.height))
    ensures m.clientId == clientId
    ensures WithinTrustingPeriod(x, now, client.trustingPeriod, trusted.timestamp)
  {
    CheckMisbehaviourExact(
      x, client, now, clientId, trusted, m, CheckMisbehaviour(x, client, now, clientId, trusted, m).value);
  }
}
