/** Inputs the client accepts for which an unconditional statement would be false: a slot time that
    wraps, and two updates for one block whose order matters. */
module Witnesses {
  import opened Types
  import opened Externals
  import opened Updates
  import opened LightClient
  import opened Machine
  import opened Committees
  import opened Timing
  import opened Reordering

  function Ones(n: nat): (b: bytes)
    ensures |b| == n
  {
    seq(n, i => 1)
  }

  const KEY: PublicKey := Ones(48)
  const COMMITTEE: SyncCommittee := SyncCommittee([], KEY)
  const CREATED: Height := Height(ETHEREUM_CLIENT_REVISION_NUMBER, 1)
  const WRITTEN: Height := Height(ETHEREUM_CLIENT_REVISION_NUMBER, 2)
  const FORKS: ForkParameters :=
    ForkParameters(Ones(4), [Fork(Ones(4), 0, SPEC), Fork(Ones(4), 0, SPEC)])
  const SPEC: ForkSpec := ForkSpec(0, 0, 0, 0, 0, 0, 0)

  /** A header for block 2 with the given finalized slot, trusting the state of creation. */
  function HeaderAt(slot: u64): Header {
    Header(
      TrustedSyncCommittee(CREATED, COMMITTEE, false),
      ConsensusUpdate(slot, None, []),
      ExecutionUpdate(Ones(32), WRITTEN.revisionHeight, [], []),
      AccountUpdate([], Ones(32)))
  }

  /** Verifiers that keep their promises: an update has to finalize something newer, and to bring no
      next committee. From Gloas on every execution header says one second. */
  function World(gloas: bool): Externals {
    Externals(
      forksAccepted := p => true,
      fractionAccepted := f => true,
      defaultTrustLevel := Fraction(0, 0),
      committeeValid := t => true,
      validateUpdates :=
        (cc: ChainContext, t: TrustedConsensusState, u: ConsensusUpdate, e: ExecutionUpdate) =>
          t.state.slot < u.finalizedSlot && u.nextSyncCommittee.None?,
      validateMisbehaviour := (cc, t, d) => false,
      verifyAccountStorage := (root, address, u) => true,
      verifyMembership := (client, consensus, path, value, height, proof) => None,
      verifyNonMembership := (client, consensus, path, height, proof) => false,
      isGloas := (p, slots, slot) => gloas,
      rlpTimestamp := rlp => Some(1),
      decodeHeader := b => Some(HeaderAt(2)),
      decodeFinalizedHeaderMisbehaviour := b => None,
      decodeNextSyncCommitteeMisbehaviour := b => None,
      stateIdHash := (client, consensus) => Some(StateId([])),
      trustingEndIncluded := false,
      driftEndIncluded := false)
  }

  function ClientOf(secondsPerSlot: u64): ClientState {
    ClientState(
      Ones(32), 1, 1, FORKS, secondsPerSlot, 32, 256, Ones(20), Ones(32), Fraction(2, 3),
      Duration(100, 0), Duration(0, 0), CREATED.revisionHeight, None)
  }

  const CONSENSUS: ConsensusState := ConsensusState(1, Ones(32), 1, KEY, KEY)
  const NOW: Time := 2_000_000_000
  const ANY_CLIENT: Any := Any("", [])

  /** The verifiers keep the promises that the results about runs rely on. */
  lemma WorldSound(gloas: bool, client: ClientState, committee: nat -> PublicKey)
    ensures RejectsIrrelevant(World(gloas))
    ensures SoundUpdates(World(gloas), Chain(client), committee)
  {}

  lemma ClientCreated(gloas: bool, secondsPerSlot: u64)
    requires secondsPerSlot > 0
    ensures var client := ClientOf(secondsPerSlot);
            Create(World(gloas), "", ANY_CLIENT, client, CONSENSUS)
            == Ok(State("", client, map[CREATED := CONSENSUS],
                        [CreateMessage(client, ANY_CLIENT, CONSENSUS, StateId([]))]))
  {
    assert Zeros(32)[0] != Ones(32)[0] && Zeros(20)[0] != Ones(20)[0] && Zeros(48)[0] != Ones(48)[0];
  }

  function StateAt(slot: u64): ConsensusState {
    ConsensusState(slot, Ones(32), NANOS_PER_SECOND, KEY, KEY)
  }

  /** A header whose timestamp is one second passes every check. */
  lemma HeaderAccepted(gloas: bool, secondsPerSlot: u64, slot: u64)
    requires secondsPerSlot > 0 && 1 < slot < 32
    requires gloas || (1 + slot * secondsPerSlot) % U64_LIMIT == 1
    ensures var client := ClientOf(secondsPerSlot);
            CheckHeader(World(gloas), client, NOW, CONSENSUS, HeaderAt(slot))
            == Ok((client.(latestExecutionBlockNumber := WRITTEN.revisionHeight), StateAt(slot)))
  {
    var x, client, h := World(gloas), ClientOf(secondsPerSlot), HeaderAt(slot);
    var cc := BuildContext(client, NOW);
    assert HeaderTimestamp(x, cc, h) == Ok(NANOS_PER_SECOND);
    assert Period(32, 256, 1) == 0 && Period(32, 256, slot) == 0;
    assert ComputeSyncCommittees(cc, CONSENSUS, h.consensusUpdate) == Ok((KEY, KEY));
    hide HeaderTimestamp, ComputeSyncCommittees;
  }

  /** Such a header is accepted right after creation. */
  lemma UpdateAccepted(gloas: bool, secondsPerSlot: u64, slot: u64)
    requires secondsPerSlot > 0 && 1 < slot < 32
    requires gloas || (1 + slot * secondsPerSlot) % U64_LIMIT == 1
    ensures var x, s := World(gloas), Create(World(gloas), "", ANY_CLIENT, ClientOf(secondsPerSlot), CONSENSUS);
            && s.Ok?
            && var r := UpdateStep(x, s.value, NOW, HeaderAt(slot));
               r.Ok? && r.value.store == map[CREATED := CONSENSUS, WRITTEN := StateAt(slot)]
  {
    ClientCreated(gloas, secondsPerSlot);
    HeaderAccepted(gloas, secondsPerSlot, slot);
    hide CheckHeader, Create, StateAt, ClientOf, UpdateMessage;
    var x, client, h := World(gloas), ClientOf(secondsPerSlot), HeaderAt(slot);
    assert client.frozenHeight.None? by { ClientUnfrozen(secondsPerSlot); }
    var s := Create(x, "", ANY_CLIENT, client, CONSENSUS).value;
    assert Lookup(s, TrustedHeight(h)) == Ok(CONSENSUS);
    hide Lookup;
  }

  lemma ClientUnfrozen(secondsPerSlot: u64)
    ensures ClientOf(secondsPerSlot).frozenHeight.None?
  {}

  /** A slot time that does not fit in 64 bits: the accepted pre-Gloas header of slot 2 is stored with
      a timestamp of one second. */
  lemma TimestampWraps()
    ensures var x, client := World(false), ClientOf(0x8000_0000_0000_0000);
            var s := Create(x, "", ANY_CLIENT, client, CONSENSUS);
            && s.Ok?
            && var r := Run(x, s.value, [Submit(NOW, Any(HEADER_TYPE_URL, []))]);
               && WRITTEN in r.store && r.store[WRITTEN] != CONSENSUS
               && BeforeGloas(x, client, r.store[WRITTEN])
               && r.store[WRITTEN].timestamp == NANOS_PER_SECOND
               && r.store[WRITTEN].timestamp != SlotTime(client, r.store[WRITTEN].slot) * NANOS_PER_SECOND
  {
    var x, client := World(false), ClientOf(0x8000_0000_0000_0000);
    UpdateAccepted(false, 0x8000_0000_0000_0000, 2);
    hide Create, UpdateStep;
    var s := Create(x, "", ANY_CLIENT, client, CONSENSUS).value;
    var e := Submit(NOW, Any(HEADER_TYPE_URL, []));
    assert Step(x, s, e) == UpdateStep(x, s, NOW, HeaderAt(2));
    assert [e][..|[e]| - 1] == [] && Run(x, s, []) == s;
    assert Run(x, s, [e]) == Attempt(x, s, e);
  }

  /** Under Gloas two finalized slots may name the same execution block. Both updates are accepted in
      both orders, and the one applied last decides what is stored. */
  lemma OverwritesDoNotCommute()
    ensures var x, a, b := World(true), Update(NOW, HeaderAt(2)), Update(NOW, HeaderAt(3));
            var s := Create(x, "", ANY_CLIENT, ClientOf(12), CONSENSUS);
            && s.Ok?
            && Trusts(a) != Writes(b) && Trusts(b) != Writes(a)
            && ApplyAll(x, s.value, [a, b]).Ok? && ApplyAll(x, s.value, [b, a]).Ok?
            && ApplyAll(x, s.value, [a, b]).value.store != ApplyAll(x, s.value, [b, a]).value.store
  {
    var x, a, b := World(true), Update(NOW, HeaderAt(2)), Update(NOW, HeaderAt(3));
    UpdateAccepted(true, 12, 2);
    UpdateAccepted(true, 12, 3);
    hide Create, UpdateStep, EffectOf;
    var s := Create(x, "", ANY_CLIENT, ClientOf(12), CONSENSUS).value;
    ApplyPair(x, s, a, b);
    ApplyEffect(x, s, a);
    VerdictAfter(x, s, a, EffectOf(x, s.client, s.store[Trusts(a)], a).value, b);
    CommuteExactly(x, s, a, b);
  }
}
