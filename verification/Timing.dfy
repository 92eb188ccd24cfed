/** Time: expiry, the bound between refreshes, timestamps against slots, and the emitted contexts. */
module Timing {
  import opened Types
  import opened Externals
  import opened Commitment
  import opened Updates
  import opened LightClient
  import opened Machine
  import opened Lifecycle

  // ---------------------------------------------------------------- expiry

  /** The trusting period of every stored state ended before `now`. */
  ghost predicate Expired(s: State, now: Time) {
    forall h :: h in s.store ==> s.store[h].timestamp + s.client.trustingPeriod.InNanos() < now
  }

  ghost predicate AllFrom(es: seq<Event>, now: Time) {
    forall i :: 0 <= i < |es| ==> now <= es[i].now
  }

  lemma ExpiredRejects(x: Externals, s: State, e: Event, now: Time)
    requires Expired(s, now) && now <= e.now && e.Submit?
    ensures Step(x, s, e).Err?
  {
    hide Step, GenStateId;
    if Step(x, s, e).Ok? {
      StepOutcome(x, s, e);
    }
  }

  /** Expiry is absorbing: no later update or misbehaviour succeeds, whatever is submitted, and the
      client state and the store never change again. */
  lemma {:induction false} ExpiryIsAbsorbing(x: Externals, s: State, es: seq<Event>, now: Time)
    requires Expired(s, now) && AllFrom(es, now)
    ensures Run(x, s, es).client == s.client && Run(x, s, es).store == s.store
    ensures forall e: Event :: e.Submit? && now <= e.now ==> Step(x, Run(x, s, es), e).Err?
  {
    hide Step, GenStateId;
    if es != [] {
      var before, e := Run(x, s, es[..|es| - 1]), es[|es| - 1];
      ExpiryIsAbsorbing(x, s, es[..|es| - 1], now);
      if Step(x, before, e).Ok? {
        StepOutcome(x, before, e);
      }
    }
    forall e: Event | e.Submit? && now <= e.now ensures Step(x, Run(x, s, es), e).Err? {
      ExpiredRejects(x, Run(x, s, es), e, now);
    }
  }

  // ---------------------------------------------------------------- refresh bound

  ghost predicate NonDecreasing(es: seq<Event>) {
    forall i, j :: 0 <= i < j < |es| ==> es[i].now <= es[j].now
  }

  predicate IsUpdate(x: Externals, s: State, e: Event) {
    && e.Submit?
    && DecodeClientMessage(x, e.message).Ok?
    && DecodeClientMessage(x, e.message).value.HeaderMessage?
    && Step(x, s, e).Ok?
  }

  /** The host times of the creation and of the updates that succeeded in a run. */
  function RefreshTimes(x: Externals, s: State, created: Time, es: seq<Event>): (ts: seq<Time>)
    ensures |ts| > 0 && ts[0] == created
  {
    if es == [] then [created]
    else
      var before := es[..|es| - 1];
      RefreshTimes(x, s, created, before)
      + (if IsUpdate(x, Run(x, s, before), es[|es| - 1]) then [es[|es| - 1].now] else [])
  }

  function Last(ts: seq<Time>): Time
    requires ts != []
  {
    ts[|ts| - 1]
  }

  ghost predicate Refreshed(s: State, last: Time, drift: nat) {
    forall h :: h in s.store ==> s.store[h].timestamp <= last + drift
  }

  lemma AcceptedTimes(
    x: Externals, client: ClientState, now: Time, trusted: ConsensusState, h: Header,
    c': ClientState, n: ConsensusState)
    requires Accepted(x, client, now, trusted, h, c', n)
    ensures now <= trusted.timestamp + client.trustingPeriod.InNanos()
    ensures n.timestamp <= now + client.maxClockDrift.InNanos()
    ensures c'.trustingPeriod == client.trustingPeriod && c'.maxClockDrift == client.maxClockDrift
  {
    hide HeaderTimestamp, ComputeSyncCommittees, NewTrustedConsensusState;
  }

  lemma UpdateRefreshes(x: Externals, s: State, now: Time, h: Header, s': State, last: Time)
    requires UpdateOutcome(x, s, now, h, s')
    requires Refreshed(s, last, s.client.maxClockDrift.InNanos()) && last <= now
    ensures now <= last + s.client.maxClockDrift.InNanos() + s.client.trustingPeriod.InNanos()
    ensures Refreshed(s', now, s.client.maxClockDrift.InNanos())
    ensures s'.client.trustingPeriod == s.client.trustingPeriod && s'.client.maxClockDrift == s.client.maxClockDrift
  {
    hide GenStateId, Accepted;
    AcceptedTimes(x, s.client, now, s.store[TrustedHeight(h)], h, s'.client, s'.store[HeaderHeight(h)]);
  }

  /** The step for one event: either it is an update, or it leaves store and parameters alone. */
  lemma AttemptRefreshes(x: Externals, s: State, e: Event, last: Time)
    requires Refreshed(s, last, s.client.maxClockDrift.InNanos()) && last <= e.now
    ensures var s' := Attempt(x, s, e);
            && s'.client.trustingPeriod == s.client.trustingPeriod
            && s'.client.maxClockDrift == s.client.maxClockDrift
            && Refreshed(s', if IsUpdate(x, s, e) then e.now else last, s.client.maxClockDrift.InNanos())
    ensures IsUpdate(x, s, e) ==>
              e.now <= last + s.client.maxClockDrift.InNanos() + s.client.trustingPeriod.InNanos()
  {
    hide Step, GenStateId, UpdateOutcome;
    if Step(x, s, e).Ok? {
      StepOutcome(x, s, e);
      if IsUpdate(x, s, e) {
        var h := DecodeClientMessage(x, e.message).value.header;
        UpdateRefreshes(x, s, e.now, h, Step(x, s, e).value, last);
      }
    }
  }

  ghost predicate GapsBounded(ts: seq<Time>, bound: nat) {
    forall i :: 0 < i < |ts| ==> ts[i - 1] <= ts[i] <= ts[i - 1] + bound
  }

  /** With a clock that never goes back, successive refreshes are at most trusting period plus
      clock drift apart. */
  lemma {:induction false} RefreshBound(x: Externals, s: State, created: Time, es: seq<Event>)
    requires NonDecreasing(es) && AllFrom(es, created)
    requires Refreshed(s, created, s.client.maxClockDrift.InNanos())
    ensures var drift, period := s.client.maxClockDrift.InNanos(), s.client.trustingPeriod.InNanos();
            var ts, r := RefreshTimes(x, s, created, es), Run(x, s, es);
            && GapsBounded(ts, period + drift)
            && Refreshed(r, Last(ts), drift)
            && r.client.trustingPeriod == s.client.trustingPeriod && r.client.maxClockDrift == s.client.maxClockDrift
            && Last(ts) <= (if es == [] then created else es[|es| - 1].now)
  {
    hide Attempt, IsUpdate, Refreshed;
    if es != [] {
      var init, e := es[..|es| - 1], es[|es| - 1];
      RefreshBound(x, s, created, init);
      AttemptRefreshes(x, Run(x, s, init), e, Last(RefreshTimes(x, s, created, init)));
    }
  }

  // ---------------------------------------------------------------- timestamps and slots

  /** The finalized slot of the state predates Gloas for this client. */
  predicate BeforeGloas(x: Externals, client: ClientState, c: ConsensusState) {
    !x.isGloas(client.forkParameters, client.slotsPerEpoch, c.slot)
  }

  /** The exact time of a slot, in seconds. */
  function SlotTime(client: ClientState, slot: u64): nat {
    client.genesisTime + slot * client.secondsPerSlot
  }

  /** Pre-Gloas states that an update produced carry the time of their slot, modulo 2^64 seconds. */
  ghost predicate SlotTimed(x: Externals, client: ClientState, created: ConsensusState, c: ConsensusState) {
    c == created || !BeforeGloas(x, client, c)
    || c.timestamp == (SlotTime(client, c.slot) % U64_LIMIT) * NANOS_PER_SECOND
  }

  ghost predicate StoreSlotTimed(x: Externals, created: ConsensusState, s: State) {
    forall h :: h in s.store ==> SlotTimed(x, s.client, created, s.store[h])
  }

  lemma AcceptedSlotTimed(
    x: Externals, client: ClientState, now: Time, trusted: ConsensusState, h: Header,
    c': ClientState, n: ConsensusState, created: ConsensusState)
    requires Accepted(x, client, now, trusted, h, c', n)
    ensures SlotTimed(x, client, created, n)
  {
    hide ComputeSyncCommittees, NewTrustedConsensusState, WithinTrustingPeriod, NotFromFuture;
  }

  lemma StepSlotTimed(x: Externals, created: ConsensusState, s: State, e: Event)
    requires StoreSlotTimed(x, created, s) && Step(x, s, e).Ok?
    ensures StoreSlotTimed(x, created, Step(x, s, e).value)
  {
    hide Step, GenStateId, Accepted, SlotTimed;
    StepOutcome(x, s, e);
    StepKeeps(x, s, e);
    var s' := Step(x, s, e).value;
    SameParametersCanonical(s'.client, s.client);
    forall c: ConsensusState ensures SlotTimed(x, s'.client, created, c) <==> SlotTimed(x, s.client, created, c) {
      SlotTimedParameters(x, s.client, s'.client, created, c);
    }
    if e.Submit? && DecodeClientMessage(x, e.message).value.HeaderMessage? {
      var h := DecodeClientMessage(x, e.message).value.header;
      AcceptedSlotTimed(
        x, s.client, e.now, s.store[TrustedHeight(h)], h, s'.client, s'.store[HeaderHeight(h)], created);
    }
  }

  lemma SlotTimedParameters(x: Externals, c: ClientState, d: ClientState, created: ConsensusState, t: ConsensusState)
    requires SameParameters(d, c)
    ensures SlotTimed(x, d, created, t) <==> SlotTimed(x, c, created, t)
  {}

  /** The store of every run is slot-timed. */
  lemma {:induction false} RunSlotTimed(x: Externals, created: ConsensusState, s: State, es: seq<Event>)
    requires StoreSlotTimed(x, created, s)
    ensures StoreSlotTimed(x, created, Run(x, s, es))
  {
    hide Step, StoreSlotTimed;
    if es != [] {
      var before, e := Run(x, s, es[..|es| - 1]), es[|es| - 1];
      RunSlotTimed(x, created, s, es[..|es| - 1]);
      if Step(x, before, e).Ok? {
        StepSlotTimed(x, created, before, e);
      }
    }
  }

  /** The 64-bit computation does not wrap for this slot. */
  predicate NoWrap(client: ClientState, slot: u64) {
    SlotTime(client, slot) < U64_LIMIT
  }

  /** In every reachable store, for pre-Gloas states made by updates: the timestamp is the exact time
      of the slot if and only if the 64-bit computation does not wrap. */
  lemma TimestampExact(
    x: Externals, clientId: string, any: Any, client: ClientState, consensus: ConsensusState, es: seq<Event>, h: Height)
    requires Create(x, clientId, any, client, consensus).Ok?
    requires var r := Run(x, Create(x, clientId, any, client, consensus).value, es);
             h in r.store && r.store[h] != consensus && BeforeGloas(x, client, r.store[h])
    ensures var c := Run(x, Create(x, clientId, any, client, consensus).value, es).store[h];
            c.timestamp == SlotTime(client, c.slot) * NANOS_PER_SECOND <==> NoWrap(client, c.slot)
  {
    hide Run, GenStateId, ValidateClientState, ValidateConsensusState;
    var s := Create(x, clientId, any, client, consensus).value;
    var r := Run(x, s, es);
    RunSlotTimed(x, consensus, s, es);
    RunKeeps(x, s, es);
    SameParametersCanonical(r.client, client);
    SlotTimedParameters(x, client, r.client, consensus, r.store[h]);
    WrapExact(SlotTime(client, r.store[h].slot));
  }

  lemma WrapExact(t: nat)
    ensures t % U64_LIMIT == t <==> t < U64_LIMIT
  {}

  lemma ProductGrows(a: nat, n: nat, d: nat)
    requires n > 0 && d > 0
    ensures a * d < (a + n) * d
  {
    assert (a + n) * d == a * d + n * d;
    assert n * d > 0;
  }

  lemma SlotTimeOrder(client: ClientState, a: u64, b: u64)
    requires client.secondsPerSlot > 0
    ensures a < b <==> SlotTime(client, a) < SlotTime(client, b)
  {
    if a < b {
      ProductGrows(a, b - a, client.secondsPerSlot);
    } else if b < a {
      ProductGrows(b, a - b, client.secondsPerSlot);
    }
  }

  /** Over the whole store the order of such states by slot and by timestamp is the same, strictly. */
  lemma OrdersAgree(
    x: Externals, clientId: string, any: Any, client: ClientState, consensus: ConsensusState, es: seq<Event>,
    g: Height, h: Height)
    requires Create(x, clientId, any, client, consensus).Ok?
    requires var r := Run(x, Create(x, clientId, any, client, consensus).value, es);
             forall k :: k in {g, h} ==>
               && k in r.store && r.store[k] != consensus
               && BeforeGloas(x, client, r.store[k]) && NoWrap(client, r.store[k].slot)
    ensures var r := Run(x, Create(x, clientId, any, client, consensus).value, es);
            r.store[g].slot < r.store[h].slot <==> r.store[g].timestamp < r.store[h].timestamp
  {
    var r := Run(x, Create(x, clientId, any, client, consensus).value, es);
    assert client.secondsPerSlot > 0;
    hide *;
    TimestampExact(x, clientId, any, client, consensus, es, g);
    TimestampExact(x, clientId, any, client, consensus, es, h);
    SlotTimeOrder(client, r.store[g].slot, r.store[h].slot);
  }

  // ---------------------------------------------------------------- emitted contexts

  /** How the proxy evaluates a context: the two time checks on the values it carries. */
  predicate ContextAccepts(x: Externals, context: ValidationContext, t: Time) {
    match context
    case Empty => true
    case TrustingPeriod(period, drift, header, trusted) =>
      WithinTrustingPeriod(x, t, period, trusted) && NotFromFuture(x, t, drift, header)
  }

  /** The context of an update message, evaluated at any time, gives the verdict the client's own two
      checks would give at that time on the same trusted and new state. */
  lemma UpdateContextFaithful(x: Externals, s: State, now: Time, h: Header, t: Time)
    requires UpdateStep(x, s, now, h).Ok?
    ensures var s' := UpdateStep(x, s, now, h).value;
            TrustedHeight(h) in s.store && HeaderHeight(h) in s'.store && |s'.log| == |s.log| + 1
            && s'.log[|s.log|].UpdateState?
            && (ContextAccepts(x, s'.log[|s.log|].context, t) <==>
                  && WithinTrustingPeriod(x, t, s.client.trustingPeriod, s.store[TrustedHeight(h)].timestamp)
                  && NotFromFuture(x, t, s.client.maxClockDrift, s'.store[HeaderHeight(h)].timestamp))
            && ContextAccepts(x, s'.log[|s.log|].context, now)
  {
    hide UpdateStep, GenStateId, HeaderTimestamp, NewTrustedConsensusState, ComputeSyncCommittees;
    UpdateStepOutcome(x, s, now, h);
  }

  /** The context of a misbehaviour message is the trusting-period check alone, at every time after
      the epoch, and at the epoch itself exactly if the drift check admits its bound. */
  lemma MisbehaviourContextFaithful(x: Externals, s: State, now: Time, any: Any, m: Misbehaviour, t: Time)
    requires MisbehaviourStep(x, s, now, any, m).Ok?
    ensures var s' := MisbehaviourStep(x, s, now, any, m).value;
            m.trustedSyncCommittee.height in s.store && |s'.log| == |s.log| + 1
            && s'.log[|s.log|].Misbehave?
            && (ContextAccepts(x, s'.log[|s.log|].context, t) <==>
                  && WithinTrustingPeriod(
                       x, t, s.client.trustingPeriod, s.store[m.trustedSyncCommittee.height].timestamp)
                  && (t > 0 || x.driftEndIncluded))
  {
    hide MisbehaviourStep, GenStateId;
    MisbehaviourStepExact(x, s, now, any, m, MisbehaviourStep(x, s, now, any, m).value);
  }
}
