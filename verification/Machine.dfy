/** The light client as a state machine over decoded states: one client, its consensus states by
    height and the emitted messages. A step that fails leaves everything as it was. */
module Machine {
  import opened Types
  import opened Externals
  import opened Commitment
  import opened Updates
  import opened LightClient

  datatype State = State(
    clientId: string,
    client: ClientState,
    store: map<Height, ConsensusState>,
    log: seq<ProxyMessage>)

  datatype Event =
    | Submit(now: Time, message: Any)
    | CheckPresent(now: Time, prefix: bytes, path: string, value: bytes, height: Height, proof: bytes)
    | CheckAbsent(now: Time, prefix: bytes, path: string, height: Height, proof: bytes)

  /** The state right after creation; the host stores the consensus state at the latest height. */
  function Create(
    x: Externals, clientId: string, anyClient: Any, client: ClientState, consensus: ConsensusState): Result<State>
  {
    var _ :- ValidateClientState(x, client);
    if client.frozenHeight.Some? then Err(CannotInitializeFrozenClient)
    else
      var _ :- ValidateConsensusState(consensus);
      var id :- GenStateId(x, client, consensus);
      Ok(State(clientId, client, map[LatestHeight(client) := consensus],
               [CreateMessage(client, anyClient, consensus, id)]))
  }

  /** The message a created client starts with: it emits the client state as it was given. */
  ghost predicate Announces(m: ProxyMessage, height: Height, any: Any, timestamp: Time) {
    && m.UpdateState?
    && m.prevHeight.None? && m.prevStateId.None?
    && m.postHeight == height
    && m.emittedStates == [EmittedState(height, any)]
    && m.timestamp == timestamp
    && m.context == Empty
  }

  /** What creation demands of a client state, field by field. */
  ghost predicate Initialized(x: Externals, c: ClientState) {
    && (exists i :: 0 <= i < 32 && c.genesisValidatorsRoot[i] != 0)
    && c.minSyncCommitteeParticipants > 0
    && c.genesisTime > 0
    && |c.forkParameters.forks| >= 2
    && c.secondsPerSlot > 0
    && c.slotsPerEpoch > 0
    && c.epochsPerSyncCommitteePeriod > 0
    && (exists i :: 0 <= i < 20 && c.ibcAddress[i] != 0)
    && c.trustLevel != x.defaultTrustLevel
    && c.trustingPeriod.secs + c.trustingPeriod.nanos > 0
    && c.latestExecutionBlockNumber > 0
  }

  ghost predicate InitialState(c: ConsensusState) {
    && c.slot > 0
    && c.timestamp > 0
    && (exists i :: 0 <= i < 48 && c.currentSyncCommittee[i] != 0)
    && (exists i :: 0 <= i < 48 && c.nextSyncCommittee[i] != 0)
  }

  lemma {:induction false} NotZeros(b: bytes)
    ensures b != Zeros(|b|) <==> exists i :: 0 <= i < |b| && b[i] != 0
  {
    if forall i :: 0 <= i < |b| ==> b[i] == 0 {
      assert b == Zeros(|b|);
    }
  }

  lemma ClientStateValid(x: Externals, c: ClientState)
    ensures ValidateClientState(x, c).Ok? <==> Initialized(x, c)
  {
    NotZeros(c.genesisValidatorsRoot);
    NotZeros(c.ibcAddress);
  }

  lemma ConsensusStateValid(c: ConsensusState)
    ensures ValidateConsensusState(c).Ok? <==> InitialState(c)
  {
    NotZeros(c.currentSyncCommittee);
    NotZeros(c.nextSyncCommittee);
  }

  /** A client is created exactly from initialized states, unfrozen, for which there is a state id; it
      then holds the one consensus state at its height, and has announced the given client state. */
  lemma CreateExact(
    x: Externals, clientId: string, any: Any, client: ClientState, consensus: ConsensusState, s: State)
    ensures Create(x, clientId, any, client, consensus) == Ok(s) <==>
            && Initialized(x, client) && client.frozenHeight.None? && InitialState(consensus)
            && GenStateId(x, client, consensus).Ok?
            && s.clientId == clientId && s.client == client
            && var height := Height(0, client.latestExecutionBlockNumber);
               && s.store == map[height := consensus]
               && |s.log| == 1
               && Announces(s.log[0], height, any, consensus.timestamp)
               && Ok(s.log[0].postStateId) == GenStateId(x, client, consensus)
  {
    hide ValidateClientState, ValidateConsensusState, Initialized, InitialState, GenStateId;
    ClientStateValid(x, client);
    ConsensusStateValid(consensus);
    assert |s.log| == 1 ==> s.log == [s.log[0]];
  }

  function Lookup(s: State, height: Height): Result<ConsensusState> {
    if height !in s.store then Err(NotFound)
    else if s.client.frozenHeight.Some? then Err(ClientFrozen)
    else Ok(s.store[height])
  }

  function UpdateStep(x: Externals, s: State, now: Time, h: Header): Result<State> {
    var trusted :- Lookup(s, TrustedHeight(h));
    var states :- CheckHeader(x, s.client, now, trusted, h);
    var prevId :- GenStateId(x, s.client, trusted);
    var postId :- GenStateId(x, states.0, states.1);
    Ok(s.(client := states.0,
          store := s.store[HeaderHeight(h) := states.1],
          log := s.log + [UpdateMessage(
            s.client, TrustedHeight(h), trusted, prevId, HeaderHeight(h), states.1, postId)]))
  }

  function MisbehaviourStep(x: Externals, s: State, now: Time, any: Any, m: Misbehaviour): Result<State> {
    var height := m.trustedSyncCommittee.height;
    var trusted :- Lookup(s, height);
    var frozen :- CheckMisbehaviour(x, s.client, now, s.clientId, trusted, m);
    var id :- GenStateId(x, s.client, trusted);
    Ok(s.(client := frozen,
          log := s.log + [MisbehaviourMessageOf(s.client, trusted, [PrevState(height, id)], any)]))
  }

  function VerifyStep(x: Externals, s: State, e: Event): Result<State>
    requires !e.Submit?
  {
    var consensus :- Lookup(s, e.height);
    var verified :-
      if e.CheckPresent? then
        match x.verifyMembership(s.client, consensus, e.path, e.value, e.height, e.proof)
        case None => Err(Membership)
        case Some(v) => Ok(Some(v))
      else if x.verifyNonMembership(s.client, consensus, e.path, e.height, e.proof) then Ok(None)
      else Err(Membership);
    var id :- GenStateId(x, s.client, consensus);
    Ok(s.(log := s.log + [Verify(e.prefix, e.path, verified, e.height, id)]))
  }

  function Step(x: Externals, s: State, e: Event): Result<State> {
    if e.Submit? then
      var message :- DecodeClientMessage(x, e.message);
      match message
      case HeaderMessage(h) => UpdateStep(x, s, e.now, h)
      case MisbehaviourMessage(m) => MisbehaviourStep(x, s, e.now, e.message, m)
    else VerifyStep(x, s, e)
  }

  function Attempt(x: Externals, s: State, e: Event): State {
    var r := Step(x, s, e);
    if r.Ok? then r.value else s
  }

  /** The state after a sequence of attempted events. */
  function Run(x: Externals, s: State, es: seq<Event>): State {
    if es == [] then s else Attempt(x, Run(x, s, es[..|es| - 1]), es[|es| - 1])
  }

  // ---------------------------------------------------------------- what a successful step establishes

  ghost predicate UpdateOutcome(x: Externals, s: State, now: Time, h: Header, s': State) {
    var trustedHeight, height := h.trustedSyncCommittee.height, Height(0, h.executionUpdate.blockNumber);
    && trustedHeight in s.store
    && s.client.frozenHeight.None?
    && height in s'.store
    && var trusted, n := s.store[trustedHeight], s'.store[height];
       && Accepted(x, s.client, now, trusted, h, s'.client, n)
       && GenStateId(x, s.client, trusted).Ok?
       && GenStateId(x, s'.client, n).Ok?
       && s' == s.(client := s'.client,
                   store := s.store[height := n],
                   log := s.log + [UpdateMessage(
                     s.client, trustedHeight, trusted, GenStateId(x, s.client, trusted).value,
                     height, n, GenStateId(x, s'.client, n).value)])
  }

  lemma UpdateStepExact(x: Externals, s: State, now: Time, h: Header, s': State)
    ensures UpdateStep(x, s, now, h) == Ok(s') <==> UpdateOutcome(x, s, now, h, s')
  {
    hide CheckHeader, GenStateId, Accepted;
    if TrustedHeight(h) in s.store && HeaderHeight(h) in s'.store {
      CheckHeaderExact(x, s.client, now, s.store[TrustedHeight(h)], h, s'.client, s'.store[HeaderHeight(h)]);
    }
  }

  lemma UpdateStepOutcome(x: Externals, s: State, now: Time, h: Header)
    requires UpdateStep(x, s, now, h).Ok?
    ensures UpdateOutcome(x, s, now, h, UpdateStep(x, s, now, h).value)
  {
    hide UpdateStep, UpdateOutcome;
    UpdateStepExact(x, s, now, h, UpdateStep(x, s, now, h).value);
  }

  lemma UpdateOutcomeKeeps(x: Externals, s: State, now: Time, h: Header, s': State)
    requires UpdateOutcome(x, s, now, h, s')
    ensures Canonicalize(s.client) == Canonicalize(s'.client)
    ensures s'.client.frozenHeight.None?
  {
    hide GenStateId;
  }

  ghost predicate MisbehaviourOutcome(x: Externals, s: State, now: Time, any: Any, m: Misbehaviour, s': State) {
    var height := m.trustedSyncCommittee.height;
    && height in s.store
    && s.client.frozenHeight.None?
    && CheckMisbehaviour(x, s.client, now, s.clientId, s.store[height], m) == Ok(s'.client)
    && m.clientId == s.clientId
    && WithinTrustingPeriod(x, now, s.client.trustingPeriod, s.store[height].timestamp)
    && var id := GenStateId(x, s.client, s.store[height]);
       && id.Ok?
       && s' == s.(client := s.client.(frozenHeight := Some(height)),
                   log := s.log + [MisbehaviourMessageOf(
                     s.client, s.store[height], [PrevState(height, id.value)], any)])
  }

  lemma MisbehaviourStepExact(x: Externals, s: State, now: Time, any: Any, m: Misbehaviour, s': State)
    ensures MisbehaviourStep(x, s, now, any, m) == Ok(s') <==> MisbehaviourOutcome(x, s, now, any, m, s')
  {
    hide CheckMisbehaviour, GenStateId;
    var height := m.trustedSyncCommittee.height;
    if height in s.store && CheckMisbehaviour(x, s.client, now, s.clientId, s.store[height], m).Ok? {
      CheckMisbehaviourOutcome(x, s.client, now, s.clientId, s.store[height], m);
    }
  }

  /** What the external proof verifier said: a present value, or proven absence. */
  predicate Verdict(x: Externals, s: State, e: Event, value: Option<bytes>)
    requires !e.Submit? && e.height in s.store
  {
    if e.CheckPresent? then
      value.Some? && value == x.verifyMembership(s.client, s.store[e.height], e.path, e.value, e.height, e.proof)
    else
      value.None? && x.verifyNonMembership(s.client, s.store[e.height], e.path, e.height, e.proof)
  }

  ghost predicate VerifyOutcome(x: Externals, s: State, e: Event, s': State)
    requires !e.Submit?
  {
    && e.height in s.store
    && s.client.frozenHeight.None?
    && GenStateId(x, s.client, s.store[e.height]).Ok?
    && |s'.log| == |s.log| + 1
    && s'.log[|s.log|].Verify?
    && Verdict(x, s, e, s'.log[|s.log|].value)
    && s' == s.(log := s.log + [Verify(e.prefix, e.path, s'.log[|s.log|].value, e.height,
                                       GenStateId(x, s.client, s.store[e.height]).value)])
  }

  lemma VerifyStepExact(x: Externals, s: State, e: Event, s': State)
    requires !e.Submit?
    ensures VerifyStep(x, s, e) == Ok(s') <==> VerifyOutcome(x, s, e, s')
  {
    hide GenStateId;
  }

  /** The three kinds of successful step. */
  ghost predicate Outcome(x: Externals, s: State, e: Event, s': State) {
    if e.Submit? then
      match DecodeClientMessage(x, e.message)
      case Ok(HeaderMessage(h)) => UpdateOutcome(x, s, e.now, h, s')
      case Ok(MisbehaviourMessage(m)) => MisbehaviourOutcome(x, s, e.now, e.message, m, s')
      case Err(_) => false
    else VerifyOutcome(x, s, e, s')
  }

  /** A step succeeds with a state exactly when that state is the outcome of one of the three kinds. */
  lemma StepExact(x: Externals, s: State, e: Event, s': State)
    ensures Step(x, s, e) == Ok(s') <==> Outcome(x, s, e, s')
  {
    hide UpdateStep, MisbehaviourStep, VerifyStep, UpdateOutcome, MisbehaviourOutcome, VerifyOutcome;
    if e.Submit? {
      match DecodeClientMessage(x, e.message)
      case Ok(HeaderMessage(h)) => UpdateStepExact(x, s, e.now, h, s');
      case Ok(MisbehaviourMessage(m)) => MisbehaviourStepExact(x, s, e.now, e.message, m, s');
      case Err(_) =>
    } else {
      VerifyStepExact(x, s, e, s');
    }
  }

  lemma StepOutcome(x: Externals, s: State, e: Event)
    requires Step(x, s, e).Ok?
    ensures Outcome(x, s, e, Step(x, s, e).value)
  {
    hide Step, Outcome;
    StepExact(x, s, e, Step(x, s, e).value);
  }
}
