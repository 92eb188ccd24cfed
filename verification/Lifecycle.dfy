/** What every run keeps: the client's parameters, the maximality of its latest height, and the
    finality of a freeze. */
module Lifecycle {
  import opened Types
  import opened Externals
  import opened Commitment
  import opened Updates
  import opened LightClient
  import opened Machine

  // ---------------------------------------------------------------- parameters and latest height

  /** The latest height is stored and no stored height exceeds it; every revision number is 0. */
  ghost predicate LatestIsMaximal(s: State) {
    && Height(0, s.client.latestExecutionBlockNumber) in s.store
    && forall h :: h in s.store ==> h.revisionNumber == 0 && h.revisionHeight <= s.client.latestExecutionBlockNumber
  }

  lemma StepKeeps(x: Externals, s: State, e: Event)
    requires Step(x, s, e).Ok?
    ensures var s' := Step(x, s, e).value;
            && Canonicalize(s'.client) == Canonicalize(s.client)
            && s'.clientId == s.clientId
            && s.client.latestExecutionBlockNumber <= s'.client.latestExecutionBlockNumber
            && s.store.Keys <= s'.store.Keys
            && (LatestIsMaximal(s) ==> LatestIsMaximal(s'))
  {
    hide Step, GenStateId;
    StepOutcome(x, s, e);
  }

  lemma {:induction false} RunKeeps(x: Externals, s: State, es: seq<Event>)
    ensures var r := Run(x, s, es);
            && Canonicalize(r.client) == Canonicalize(s.client)
            && r.clientId == s.clientId
            && s.client.latestExecutionBlockNumber <= r.client.latestExecutionBlockNumber
            && s.store.Keys <= r.store.Keys
            && (LatestIsMaximal(s) ==> LatestIsMaximal(r))
  {
    hide Step;
    if es != [] {
      var before, e := Run(x, s, es[..|es| - 1]), es[|es| - 1];
      RunKeeps(x, s, es[..|es| - 1]);
      if Step(x, before, e).Ok? {
        StepKeeps(x, before, e);
      }
    }
  }

  lemma CanonicalValid(x: Externals, c: ClientState, d: ClientState)
    requires Canonicalize(c) == Canonicalize(d)
    requires ValidateClientState(x, c).Ok? && d.latestExecutionBlockNumber > 0
    ensures ValidateClientState(x, d).Ok?
  {
    SameParametersCanonical(c, d);
  }

  /** In every reachable state: the parameters are those of creation, the client state is still
      valid although only creation checks it, and the latest height is the maximum stored one. */
  lemma ReachableClient(
    x: Externals, clientId: string, any: Any, client: ClientState, consensus: ConsensusState, es: seq<Event>)
    requires Create(x, clientId, any, client, consensus).Ok?
    ensures var r := Run(x, Create(x, clientId, any, client, consensus).value, es);
            && SameParameters(r.client, client)
            && Initialized(x, r.client)
            && LatestIsMaximal(r)
            && client.latestExecutionBlockNumber <= r.client.latestExecutionBlockNumber
  {
    hide Step, Run, GenStateId;
    var s := Create(x, clientId, any, client, consensus).value;
    var r := Run(x, s, es);
    RunKeeps(x, s, es);
    SameParametersCanonical(r.client, client);
    CanonicalValid(x, client, r.client);
    ClientStateValid(x, r.client);
  }

  // ---------------------------------------------------------------- freezing

  /** A frozen client accepts nothing: no update, misbehaviour or proof is served any more. */
  lemma FrozenRejects(x: Externals, s: State, e: Event)
    requires s.client.frozenHeight.Some?
    ensures Step(x, s, e).Err?
  {
    hide CheckHeader, CheckMisbehaviour, GenStateId;
  }

  /** Once frozen, every run leaves the state, the store and the log exactly as they were. */
  lemma {:induction false} FreezingIsFinal(x: Externals, s: State, es: seq<Event>)
    requires s.client.frozenHeight.Some?
    ensures Run(x, s, es) == s
  {
    hide Step;
    if es != [] {
      FreezingIsFinal(x, s, es[..|es| - 1]);
      FrozenRejects(x, s, es[|es| - 1]);
    }
  }

  /** The last message of a frozen client reports the misbehaviour: it carries the submitted message,
      which names this client, and refers to the stored state at the frozen height. */
  ghost predicate ReportsFreeze(x: Externals, s: State, m: ProxyMessage) {
    && s.client.frozenHeight.Some?
    && var height := s.client.frozenHeight.value;
       && height in s.store
       && m.Misbehave?
       && |m.prevStates| == 1
       && m.prevStates[0].height == height
       && GenStateId(x, s.client, s.store[height]) == Ok(m.prevStates[0].stateId)
       && match DecodeClientMessage(x, m.clientMessage)
          case Ok(MisbehaviourMessage(mb)) =>
            mb.clientId == s.clientId && mb.trustedSyncCommittee.height == height
          case _ => false
  }

  /** At most one misbehaviour was ever reported, as the last message, exactly when frozen. */
  ghost predicate FreezeRecord(x: Externals, s: State) {
    && s.log != []
    && (forall i :: 0 <= i < |s.log| - 1 ==> !s.log[i].Misbehave?)
    && (s.log[|s.log| - 1].Misbehave? <==> s.client.frozenHeight.Some?)
    && (s.client.frozenHeight.Some? ==> ReportsFreeze(x, s, s.log[|s.log| - 1]))
  }

  lemma StepKeepsFreezeRecord(x: Externals, s: State, e: Event)
    requires FreezeRecord(x, s) && Step(x, s, e).Ok?
    ensures FreezeRecord(x, Step(x, s, e).value)
  {
    hide Step, GenStateId, Accepted;
    StepOutcome(x, s, e);
    var s' := Step(x, s, e).value;
    if e.Submit? {
      match DecodeClientMessage(x, e.message)
      case Ok(HeaderMessage(h)) =>
        UpdateOutcomeKeeps(x, s, e.now, h, s');
      case Ok(MisbehaviourMessage(m)) =>
        StableIds(x, s.client, s'.client);
    }
  }

  lemma {:induction false} RunKeepsFreezeRecord(x: Externals, s: State, es: seq<Event>)
    requires FreezeRecord(x, s)
    ensures FreezeRecord(x, Run(x, s, es))
  {
    hide Step, FreezeRecord;
    if es != [] {
      var before, e := Run(x, s, es[..|es| - 1]), es[|es| - 1];
      RunKeepsFreezeRecord(x, s, es[..|es| - 1]);
      if Step(x, before, e).Ok? {
        StepKeepsFreezeRecord(x, before, e);
      }
    }
  }

  /** In every run from creation at most one misbehaviour succeeds, and it is what froze the client. */
  lemma OneFreeze(
    x: Externals, clientId: string, any: Any, client: ClientState, consensus: ConsensusState, es: seq<Event>)
    requires Create(x, clientId, any, client, consensus).Ok?
    ensures FreezeRecord(x, Run(x, Create(x, clientId, any, client, consensus).value, es))
  {
    hide Run, GenStateId, ValidateClientState, ValidateConsensusState;
    RunKeepsFreezeRecord(x, Create(x, clientId, any, client, consensus).value, es);
  }
}
