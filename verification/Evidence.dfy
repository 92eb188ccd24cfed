/** What stands behind the states and messages of a run: the header that produced a stored state, the
    verification each accepted submission passed, the misbehaviour that froze the client, and the
    client state announced at creation. */
module Evidence {
  import opened Types
  import opened Externals
  import opened Commitment
  import opened Updates
  import opened LightClient
  import opened Machine
  import opened Lifecycle

  // ---------------------------------------------------------------- verification

  /** The update verifier accepted the header on the trusted state, under every (that is, the) context
      with the client's parameters and the time of the call, and so did the account verifier. */
  ghost predicate HeaderVerified(x: Externals, client: ClientState, now: Time, trusted: ConsensusState, h: Header) {
    var t := h.trustedSyncCommittee;
    && t.syncCommittee.aggregatePubkey == (if t.isNext then trusted.nextSyncCommittee else trusted.currentSyncCommittee)
    && (forall cc :: ContextOf(cc, client, now) ==>
          x.validateUpdates(cc, TrustedConsensusState(trusted, t.syncCommittee, t.isNext),
                            h.consensusUpdate, h.executionUpdate))
    && x.verifyAccountStorage(h.executionUpdate.stateRoot, client.ibcAddress, h.accountUpdate)
  }

  ghost predicate MisbehaviourVerified(
    x: Externals, client: ClientState, now: Time, trusted: ConsensusState, m: Misbehaviour)
  {
    var t := m.trustedSyncCommittee;
    && t.syncCommittee.aggregatePubkey == (if t.isNext then trusted.nextSyncCommittee else trusted.currentSyncCommittee)
    && forall cc :: ContextOf(cc, client, now) ==>
         x.validateMisbehaviour(cc, TrustedConsensusState(trusted, t.syncCommittee, t.isNext), m.data)
  }

  lemma AcceptedVerified(
    x: Externals, client: ClientState, now: Time, trusted: ConsensusState, h: Header,
    c': ClientState, n: ConsensusState, created: ClientState)
    requires Accepted(x, client, now, trusted, h, c', n) && SameParameters(client, created)
    ensures HeaderVerified(x, created, now, trusted, h)
  {
    hide HeaderTimestamp, ComputeSyncCommittees, WithinTrustingPeriod, NotFromFuture;
    forall cc | ContextOf(cc, created, now) ensures cc == BuildContext(client, now) {
      ContextExact(client, now, cc);
    }
  }

  lemma MisbehaviourAccepted(
    x: Externals, client: ClientState, now: Time, clientId: string, trusted: ConsensusState, m: Misbehaviour,
    created: ClientState)
    requires CheckMisbehaviour(x, client, now, clientId, trusted, m).Ok? && SameParameters(client, created)
    ensures MisbehaviourVerified(x, created, now, trusted, m)
  {
    CheckMisbehaviourExact(
      x, client, now, clientId, trusted, m, CheckMisbehaviour(x, client, now, clientId, trusted, m).value);
    forall cc | ContextOf(cc, created, now) ensures cc == BuildContext(client, now) {
      ContextExact(client, now, cc);
    }
  }

  /** Every submission that succeeds in a run passed the verifiers with exactly the parameters of
      creation and the time of its own call, on the state then stored at the height it trusts. */
  lemma SubmissionVerified(
    x: Externals, clientId: string, any: Any, client: ClientState, consensus: ConsensusState, es: seq<Event>, e: Event)
    requires Create(x, clientId, any, client, consensus).Ok?
    requires e.Submit? && Step(x, Run(x, Create(x, clientId, any, client, consensus).value, es), e).Ok?
    ensures
      var r := Run(x, Create(x, clientId, any, client, consensus).value, es);
      match DecodeClientMessage(x, e.message)
      case Ok(HeaderMessage(h)) =>
        && h.trustedSyncCommittee.height in r.store
        && HeaderVerified(x, client, e.now, r.store[h.trustedSyncCommittee.height], h)
      case Ok(MisbehaviourMessage(m)) =>
        && m.trustedSyncCommittee.height in r.store
        && m.clientId == clientId
        && MisbehaviourVerified(x, client, e.now, r.store[m.trustedSyncCommittee.height], m)
      case Err(_) => false
  {
    hide Run, Step, Create, GenStateId, HeaderVerified, MisbehaviourVerified, CheckMisbehaviour, Accepted;
    var s := Create(x, clientId, any, client, consensus).value;
    var r := Run(x, s, es);
    ReachableClient(x, clientId, any, client, consensus, es);
    RunKeeps(x, s, es);
    CreateExact(x, clientId, any, client, consensus, s);
    StepOutcome(x, r, e);
    var r' := Step(x, r, e).value;
    match DecodeClientMessage(x, e.message)
    case Ok(HeaderMessage(h)) =>
      var trusted := r.store[h.trustedSyncCommittee.height];
      var n := r'.store[Height(0, h.executionUpdate.blockNumber)];
      AcceptedVerified(x, r.client, e.now, trusted, h, r'.client, n, client);
    case Ok(MisbehaviourMessage(m)) =>
      MisbehaviourAccepted(x, r.client, e.now, r.clientId, r.store[m.trustedSyncCommittee.height], m, client);
  }

  /** Promise of the verifiers: an update has at least the context's minimum of participants, and was
      not signed after the context's time. */
  ghost predicate EnforcesMinimum(x: Externals, participants: ConsensusUpdate -> nat, signed: ConsensusUpdate -> nat) {
    && (forall cc, t, u, e :: x.validateUpdates(cc, t, u, e) ==> SignedUnder(cc, participants, signed, u))
    && (forall cc, t, d :: x.validateMisbehaviour(cc, t, d) ==>
          SignedUnder(cc, participants, signed, d.update1) && SignedUnder(cc, participants, signed, d.update2))
  }

  predicate SignedUnder(
    cc: ChainContext, participants: ConsensusUpdate -> nat, signed: ConsensusUpdate -> nat, u: ConsensusUpdate)
  {
    cc.minSyncCommitteeParticipants <= participants(u) && signed(u) <= cc.nowSecs
  }

  /** Enough participants for the client that was created, and signed, in seconds, by the time of the call. */
  predicate SignedFor(
    client: ClientState, now: Time, participants: ConsensusUpdate -> nat, signed: ConsensusUpdate -> nat,
    u: ConsensusUpdate)
  {
    client.minSyncCommitteeParticipants <= participants(u) && signed(u) * 1_000_000_000 <= now
  }

  lemma SignedInContext(
    cc: ChainContext, client: ClientState, now: Time, participants: ConsensusUpdate -> nat,
    signed: ConsensusUpdate -> nat, u: ConsensusUpdate)
    requires ContextOf(cc, client, now) && SignedUnder(cc, participants, signed, u)
    ensures SignedFor(client, now, participants, signed, u)
  {}

  /** If the verifiers keep that promise, every update and misbehaviour that succeeds in a run meets the
      minimum the client was created with, and was signed by the time of its own call. */
  lemma SubmissionSigned(
    x: Externals, clientId: string, any: Any, client: ClientState, consensus: ConsensusState, es: seq<Event>, e: Event,
    participants: ConsensusUpdate -> nat, signed: ConsensusUpdate -> nat)
    requires EnforcesMinimum(x, participants, signed)
    requires Create(x, clientId, any, client, consensus).Ok?
    requires e.Submit? && Step(x, Run(x, Create(x, clientId, any, client, consensus).value, es), e).Ok?
    ensures
      match DecodeClientMessage(x, e.message)
      case Ok(HeaderMessage(h)) => SignedFor(client, e.now, participants, signed, h.consensusUpdate)
      case Ok(MisbehaviourMessage(m)) =>
        && SignedFor(client, e.now, participants, signed, m.data.update1)
        && SignedFor(client, e.now, participants, signed, m.data.update2)
      case Err(_) => false
  {
    hide Run, Step, Create, SignedFor, SignedUnder, ContextOf, DecodeClientMessage;
    SubmissionVerified(x, clientId, any, client, consensus, es, e);
    var r := Run(x, Create(x, clientId, any, client, consensus).value, es);
    var cc := BuildContext(client, e.now);
    ContextExact(client, e.now, cc);
    match DecodeClientMessage(x, e.message)
    case Ok(HeaderMessage(h)) =>
      var t := TrustedConsensusState(
        r.store[h.trustedSyncCommittee.height], h.trustedSyncCommittee.syncCommittee, h.trustedSyncCommittee.isNext);
      assert x.validateUpdates(cc, t, h.consensusUpdate, h.executionUpdate);
      SignedInContext(cc, client, e.now, participants, signed, h.consensusUpdate);
    case Ok(MisbehaviourMessage(m)) =>
      var t := TrustedConsensusState(
        r.store[m.trustedSyncCommittee.height], m.trustedSyncCommittee.syncCommittee, m.trustedSyncCommittee.isNext);
      assert x.validateMisbehaviour(cc, t, m.data);
      SignedInContext(cc, client, e.now, participants, signed, m.data.update1);
      SignedInContext(cc, client, e.now, participants, signed, m.data.update2);
  }

  // ---------------------------------------------------------------- the misbehaviour behind a freeze

  /** A submitted message that proves, to the verifier, a misbehaviour against the state at the height
      the client is frozen at. */
  ghost predicate Proves(x: Externals, client: ClientState, s: State, any: Any, m: Misbehaviour, now: Time) {
    && DecodeClientMessage(x, any) == Ok(MisbehaviourMessage(m))
    && m.clientId == s.clientId
    && s.client.frozenHeight == Some(m.trustedSyncCommittee.height)
    && m.trustedSyncCommittee.height in s.store
    && MisbehaviourVerified(x, client, now, s.store[m.trustedSyncCommittee.height], m)
  }

  ghost predicate FreezesProved(x: Externals, client: ClientState, s: State) {
    forall i :: 0 <= i < |s.log| && s.log[i].Misbehave? ==>
      exists m, now :: Proves(x, client, s, s.log[i].clientMessage, m, now)
  }

  lemma StepFreezesProved(x: Externals, client: ClientState, s: State, e: Event)
    requires FreezesProved(x, client, s) && SameParameters(s.client, client)
    requires Step(x, s, e).Ok?
    ensures FreezesProved(x, client, Step(x, s, e).value)
  {
    hide Step, GenStateId, MisbehaviourVerified, CheckMisbehaviour, Accepted, SameParameters;
    StepOutcome(x, s, e);
    var s' := Step(x, s, e).value;
    assert s.client.frozenHeight.None?;
    assert forall j :: 0 <= j < |s.log| ==> !s.log[j].Misbehave?;
    assert s'.log == s.log + [s'.log[|s.log|]];
    forall i | 0 <= i < |s'.log| && s'.log[i].Misbehave?
      ensures exists m, now :: Proves(x, client, s', s'.log[i].clientMessage, m, now)
    {
      var m := DecodeClientMessage(x, e.message).value.misbehaviour;
      MisbehaviourAccepted(x, s.client, e.now, s.clientId, s.store[m.trustedSyncCommittee.height], m, client);
      assert Proves(x, client, s', s'.log[i].clientMessage, m, e.now);
    }
  }

  lemma {:induction false} RunFreezesProved(x: Externals, client: ClientState, s: State, es: seq<Event>)
    requires FreezesProved(x, client, s) && SameParameters(s.client, client)
    ensures FreezesProved(x, client, Run(x, s, es))
  {
    hide Step, FreezesProved, SameParameters;
    if es != [] {
      var before, e := Run(x, s, es[..|es| - 1]), es[|es| - 1];
      RunFreezesProved(x, client, s, es[..|es| - 1]);
      RunKeeps(x, s, es[..|es| - 1]);
      SameParametersCanonical(s.client, client);
      SameParametersCanonical(before.client, client);
      if Step(x, before, e).Ok? {
        StepFreezesProved(x, client, before, e);
      }
    }
  }

  /** Promise of the two decoders: each yields its own kind of misbehaviour. */
  ghost predicate OwnKinds(x: Externals) {
    && (forall b :: x.decodeFinalizedHeaderMisbehaviour(b).Some? ==>
          x.decodeFinalizedHeaderMisbehaviour(b).value.data.FinalizedHeader?)
    && (forall b :: x.decodeNextSyncCommitteeMisbehaviour(b).Some? ==>
          x.decodeNextSyncCommitteeMisbehaviour(b).value.data.NextSyncCommittee?)
  }

  lemma NothingReported(x: Externals, client: ClientState, s: State)
    requires |s.log| == 1 && s.log[0].UpdateState?
    ensures FreezesProved(x, client, s)
  {}

  lemma FreezeAt(x: Externals, client: ClientState, s: State, i: nat)
    requires FreezesProved(x, client, s) && i < |s.log| && s.log[i].Misbehave?
    ensures exists m, now :: Proves(x, client, s, s.log[i].clientMessage, m, now)
  {
    hide Proves;
  }

  /** The type URL of the message says which kind of misbehaviour its body decodes to. */
  ghost predicate KindAsNamed(x: Externals, message: Any, m: Misbehaviour) {
    || (&& message.typeUrl == "/ibc.lightclients.ethereum.v1.FinalizedHeaderMisbehaviour"
        && x.decodeFinalizedHeaderMisbehaviour(message.value) == Some(m)
        && m.data.FinalizedHeader?)
    || (&& message.typeUrl == "/ibc.lightclients.ethereum.v1.NextSyncCommitteeMisbehaviour"
        && x.decodeNextSyncCommitteeMisbehaviour(message.value) == Some(m)
        && m.data.NextSyncCommittee?)
  }

  lemma NamedKind(x: Externals, client: ClientState, s: State, message: Any, m: Misbehaviour, now: Time)
    requires OwnKinds(x) && Proves(x, client, s, message, m, now)
    ensures KindAsNamed(x, message, m)
  {
    hide DecodeClientMessage, MisbehaviourVerified;
    DecodeMisbehaviourExact(x, message, m);
  }

  /** Every reported freeze is backed by the message it carries: the type URL tells the kind of the
      misbehaviour, which names this client and the frozen height and passed the verifier under the
      parameters of creation. */
  lemma FreezeProved(
    x: Externals, clientId: string, any: Any, client: ClientState, consensus: ConsensusState, es: seq<Event>, i: nat)
    requires OwnKinds(x)
    requires Create(x, clientId, any, client, consensus).Ok?
    requires var r := Run(x, Create(x, clientId, any, client, consensus).value, es);
             i < |r.log| && r.log[i].Misbehave?
    ensures
      var r := Run(x, Create(x, clientId, any, client, consensus).value, es);
      exists m, now ::
        Proves(x, client, r, r.log[i].clientMessage, m, now) && KindAsNamed(x, r.log[i].clientMessage, m)
  {
    var s := Create(x, clientId, any, client, consensus).value;
    CreateExact(x, clientId, any, client, consensus, s);
    hide Run, Create, GenStateId, Initialized, InitialState, Proves, KindAsNamed, FreezesProved;
    NothingReported(x, client, s);
    var r := Run(x, s, es);
    RunFreezesProved(x, client, s, es);
    FreezeAt(x, client, r, i);
    var m, now :| Proves(x, client, r, r.log[i].clientMessage, m, now);
    NamedKind(x, client, r, r.log[i].clientMessage, m, now);
  }

  // ---------------------------------------------------------------- the header behind a stored state

  /** The event submitted a header that produces this state at this height. */
  ghost predicate Produces(x: Externals, client: ClientState, e: Event, height: Height, c: ConsensusState) {
    && e.Submit?
    && DecodeClientMessage(x, e.message).Ok? && DecodeClientMessage(x, e.message).value.HeaderMessage?
    && var h := DecodeClientMessage(x, e.message).value.header;
       var secs := x.rlpTimestamp(h.executionUpdate.rlp);
       && height == Height(0, h.executionUpdate.blockNumber)
       && c.slot == h.consensusUpdate.finalizedSlot
       && c.storageRoot == h.accountUpdate.accountStorageRoot
       && if x.isGloas(client.forkParameters, client.slotsPerEpoch, c.slot) then
            secs.Some? && c.timestamp == secs.value * 1_000_000_000
          else
            c.timestamp
            == (client.genesisTime + c.slot * client.secondsPerSlot) % 0x1_0000_0000_0000_0000 * 1_000_000_000
  }

  lemma UpdateProduces(x: Externals, client: ClientState, s: State, e: Event, h: Header, s': State)
    requires e.Submit? && DecodeClientMessage(x, e.message) == Ok(HeaderMessage(h))
    requires UpdateOutcome(x, s, e.now, h, s') && SameParameters(s.client, client)
    ensures var height := Height(0, h.executionUpdate.blockNumber);
            Produces(x, client, e, height, s'.store[height])
  {
    hide GenStateId, HeaderTimestamp, ComputeSyncCommittees, DecodeClientMessage;
    var n := s'.store[Height(0, h.executionUpdate.blockNumber)];
    HeaderTimestampExact(x, BuildContext(s.client, e.now), h, n.timestamp);
  }

  /** Every stored state is the one given at creation, or one produced by a submitted header: slot and
      storage root are the header's, and the timestamp is the slot's or, from Gloas on, that of its
      execution header. */
  lemma {:induction false} StatesProduced(
    x: Externals, clientId: string, any: Any, client: ClientState, consensus: ConsensusState, es: seq<Event>, k: Height)
    requires Create(x, clientId, any, client, consensus).Ok?
    requires k in Run(x, Create(x, clientId, any, client, consensus).value, es).store
    ensures var c := Run(x, Create(x, clientId, any, client, consensus).value, es).store[k];
            || (k == Height(0, client.latestExecutionBlockNumber) && c == consensus)
            || exists i :: 0 <= i < |es| && Produces(x, client, es[i], k, c)
    decreases |es|
  {
    hide Step, Create, GenStateId, Produces, UpdateOutcome;
    var s := Create(x, clientId, any, client, consensus).value;
    CreateExact(x, clientId, any, client, consensus, s);
    if es != [] {
      var init, e := es[..|es| - 1], es[|es| - 1];
      var before, r := Run(x, s, init), Run(x, s, es);
      if k in before.store && before.store[k] == r.store[k] {
        StatesProduced(x, clientId, any, client, consensus, init, k);
        if i :| 0 <= i < |init| && Produces(x, client, init[i], k, r.store[k]) {
          assert es[i] == init[i];
        }
      } else {
        ReachableClient(x, clientId, any, client, consensus, init);
        StepWrites(x, before, e, k);
        UpdateProduces(x, client, before, e, DecodeClientMessage(x, e.message).value.header, r);
        assert Produces(x, client, es[|es| - 1], k, r.store[k]);
      }
    }
  }

  /** Only an update changes what is stored, and only at its own height. */
  lemma StepWrites(x: Externals, s: State, e: Event, k: Height)
    requires var s' := Attempt(x, s, e); k in s'.store && !(k in s.store && s.store[k] == s'.store[k])
    ensures e.Submit? && DecodeClientMessage(x, e.message).Ok?
    ensures DecodeClientMessage(x, e.message).value.HeaderMessage?
    ensures var h := DecodeClientMessage(x, e.message).value.header;
            UpdateOutcome(x, s, e.now, h, Attempt(x, s, e)) && k == Height(0, h.executionUpdate.blockNumber)
  {
    hide Step, GenStateId, Accepted, DecodeClientMessage;
    StepOutcome(x, s, e);
  }

  // ---------------------------------------------------------------- what creation announced

  /** The first message emits one client state; no later message emits any. */
  ghost predicate AnnouncedOnce(s: State, height: Height, any: Any, timestamp: Time) {
    && s.log != []
    && Announces(s.log[0], height, any, timestamp)
    && forall i :: 0 < i < |s.log| && s.log[i].UpdateState? ==>
         s.log[i].prevHeight.Some? && s.log[i].emittedStates == []
  }

  lemma StepAnnounced(x: Externals, s: State, e: Event, height: Height, any: Any, timestamp: Time)
    requires AnnouncedOnce(s, height, any, timestamp) && Step(x, s, e).Ok?
    ensures AnnouncedOnce(Step(x, s, e).value, height, any, timestamp)
  {
    hide Step, GenStateId, Accepted, CheckMisbehaviour, Announces;
    StepOutcome(x, s, e);
  }

  lemma {:induction false} RunAnnounced(
    x: Externals, s: State, es: seq<Event>, height: Height, any: Any, timestamp: Time)
    requires AnnouncedOnce(s, height, any, timestamp)
    ensures AnnouncedOnce(Run(x, s, es), height, any, timestamp)
  {
    hide Step, AnnouncedOnce;
    if es != [] {
      var before, e := Run(x, s, es[..|es| - 1]), es[|es| - 1];
      RunAnnounced(x, s, es[..|es| - 1], height, any, timestamp);
      if Step(x, before, e).Ok? {
        StepAnnounced(x, before, e, height, any, timestamp);
      }
    }
  }

  /** In every run the log starts with the creation message, which emits exactly the client state given
      at creation, at the height it posts, with an empty context; and nothing is emitted later. */
  lemma CreationAnnounced(
    x: Externals, clientId: string, any: Any, client: ClientState, consensus: ConsensusState, es: seq<Event>)
    requires Create(x, clientId, any, client, consensus).Ok?
    ensures AnnouncedOnce(Run(x, Create(x, clientId, any, client, consensus).value, es),
                          Height(0, client.latestExecutionBlockNumber), any, consensus.timestamp)
  {
    hide Run, Create, GenStateId, Announces;
    var s := Create(x, clientId, any, client, consensus).value;
    CreateExact(x, clientId, any, client, consensus, s);
    RunAnnounced(x, s, es, Height(0, client.latestExecutionBlockNumber), any, consensus.timestamp);
  }
}
