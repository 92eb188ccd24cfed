/** Sync committee keys stay in line with slots across period boundaries. */
module Committees {
  import opened Types
  import opened Externals
  import opened Commitment
  import opened Updates
  import opened LightClient
  import opened Machine
  import opened Lifecycle
  import opened Periods

  /** The context without the time of the call: what the periods of a client depend on. */
  function Chain(c: ClientState): ChainContext {
    BuildContext(c, 0)
  }

  /** Promise of the update verifier on one chain: an update signed by the true committee of its
      period, current or next, carries, if any, the true committee of the period after its finalized
      slot. */
  ghost predicate SoundUpdates(x: Externals, chain: ChainContext, committee: nat -> PublicKey) {
    forall cc: ChainContext, t: TrustedConsensusState, u: ConsensusUpdate, e, p: nat, q: nat ::
      && cc.(nowSecs := 0) == chain
      && x.validateUpdates(cc, t, u, e)
      && InPeriod(chain, t.state.slot, p)
      && InPeriod(chain, u.finalizedSlot, q)
      && t.syncCommittee.aggregatePubkey == committee(if t.isNext then p + 1 else p)
      && u.nextSyncCommittee.Some?
      ==> u.nextSyncCommittee.value.aggregatePubkey == committee(q + 1)
  }

  /** The keys of a consensus state are those of the period its slot lies in and of the next one. */
  ghost predicate InLine(chain: ChainContext, committee: nat -> PublicKey, c: ConsensusState) {
    && HasPeriods(chain)
    && forall p: nat :: InPeriod(chain, c.slot, p) ==>
         c.currentSyncCommittee == committee(p) && c.nextSyncCommittee == committee(p + 1)
  }

  ghost predicate StoreInLine(s: State, committee: nat -> PublicKey) {
    forall h :: h in s.store ==> InLine(Chain(s.client), committee, s.store[h])
  }

  /** One accepted update: kept keys within a period, shifted keys across a boundary. */
  lemma UpdateInLine(
    x: Externals, committee: nat -> PublicKey, client: ClientState, now: Time, trusted: ConsensusState, h: Header,
    c': ClientState, n: ConsensusState)
    requires SoundUpdates(x, Chain(client), committee)
    requires Accepted(x, client, now, trusted, h, c', n)
    requires InLine(Chain(client), committee, trusted)
    ensures InLine(Chain(client), committee, n)
  {
    hide ComputeSyncCommittees, HeaderTimestamp, InPeriod;
    var cc, chain := BuildContext(client, now), Chain(client);
    var t := TrustedConsensusState(trusted, h.trustedSyncCommittee.syncCommittee, h.trustedSyncCommittee.isNext);
    assert x.validateUpdates(cc, t, h.consensusUpdate, h.executionUpdate);
    OnePeriod(chain, trusted.slot);
    var p := Period(chain.slotsPerEpoch, chain.epochsPerSyncCommitteePeriod, trusted.slot);
    forall q: nat | InPeriod(chain, n.slot, q)
      ensures n.currentSyncCommittee == committee(q) && n.nextSyncCommittee == committee(q + 1)
    {
      SamePeriods(chain, cc, trusted.slot, p);
      SamePeriods(chain, cc, n.slot, q);
      CommitteesExact(cc, trusted, h.consensusUpdate, p, q);
    }
  }

  lemma SamePeriods(chain: ChainContext, cc: ChainContext, slot: u64, p: nat)
    requires cc.(nowSecs := 0) == chain
    ensures InPeriod(cc, slot, p) <==> InPeriod(chain, slot, p)
  {}

  lemma StepInLine(x: Externals, committee: nat -> PublicKey, s: State, e: Event)
    requires SoundUpdates(x, Chain(s.client), committee)
    requires StoreInLine(s, committee) && Step(x, s, e).Ok?
    ensures StoreInLine(Step(x, s, e).value, committee) && Chain(Step(x, s, e).value.client) == Chain(s.client)
  {
    hide Step, GenStateId, SoundUpdates, InLine, Accepted;
    StepOutcome(x, s, e);
    StepKeeps(x, s, e);
    var s' := Step(x, s, e).value;
    assert Chain(s'.client) == Chain(s.client) by { SameChain(s.client, s'.client); }
    if e.Submit? && DecodeClientMessage(x, e.message).value.HeaderMessage? {
      var h := DecodeClientMessage(x, e.message).value.header;
      UpdateInLine(x, committee, s.client, e.now, s.store[TrustedHeight(h)], h, s'.client, s'.store[HeaderHeight(h)]);
    }
  }

  lemma SameChain(c: ClientState, d: ClientState)
    requires Canonicalize(c) == Canonicalize(d)
    ensures Chain(c) == Chain(d)
  {
    SameParametersCanonical(c, d);
  }

  /** In every reachable store every consensus state names the committees of its period and the next. */
  lemma {:induction false} RunInLine(x: Externals, committee: nat -> PublicKey, s: State, es: seq<Event>)
    requires SoundUpdates(x, Chain(s.client), committee)
    requires StoreInLine(s, committee)
    ensures StoreInLine(Run(x, s, es), committee) && Chain(Run(x, s, es).client) == Chain(s.client)
  {
    hide Step, SoundUpdates, StoreInLine;
    if es != [] {
      var before, e := Run(x, s, es[..|es| - 1]), es[|es| - 1];
      RunInLine(x, committee, s, es[..|es| - 1]);
      if Step(x, before, e).Ok? {
        StepInLine(x, committee, before, e);
      }
    }
  }

  /** From a created client: one honest consensus state is enough. */
  lemma ReachableInLine(
    x: Externals, committee: nat -> PublicKey, clientId: string, any: Any, client: ClientState,
    consensus: ConsensusState, es: seq<Event>)
    requires SoundUpdates(x, Chain(client), committee)
    requires Create(x, clientId, any, client, consensus).Ok?
    requires forall p: nat :: InPeriod(Chain(client), consensus.slot, p) ==>
               consensus.currentSyncCommittee == committee(p) && consensus.nextSyncCommittee == committee(p + 1)
    ensures StoreInLine(Run(x, Create(x, clientId, any, client, consensus).value, es), committee)
  {
    hide Run, GenStateId, InPeriod, SoundUpdates;
    RunInLine(x, committee, Create(x, clientId, any, client, consensus).value, es);
  }
}
