/** The proxy's view: replaying the emitted messages against a plain map from heights to state ids. */
module Replay {
  import opened Types
  import opened Externals
  import opened Commitment
  import opened Updates
  import opened LightClient
  import opened Machine

  /** Checks one message against the ids posted so far. Creation comes first; an update must name
      the id last posted for its trusted height; a report or a proof must name current ids. */
  function Accept(ids: map<Height, StateId>, m: ProxyMessage): Option<map<Height, StateId>> {
    match m
    case UpdateState(None, None, post, id, _, _, _) =>
      if ids == map[] then Some(ids[post := id]) else None
    case UpdateState(Some(prev), Some(prevId), post, id, _, _, _) =>
      if prev in ids && ids[prev] == prevId then Some(ids[post := id]) else None
    case UpdateState(_, _, _, _, _, _, _) => None
    case Misbehave(prevStates, _, _) =>
      if forall p :: p in prevStates ==> p.height in ids && ids[p.height] == p.stateId then Some(ids) else None
    case Verify(_, _, _, height, id) =>
      if height in ids && ids[height] == id then Some(ids) else None
  }

  function ReplayLog(log: seq<ProxyMessage>): Option<map<Height, StateId>> {
    if log == [] then Some(map[])
    else
      match ReplayLog(log[..|log| - 1])
      case None => None
      case Some(ids) => Accept(ids, log[|log| - 1])
  }

  /** `ids` holds, for every stored height, the id of the current client state and the state there. */
  ghost predicate Mirrors(x: Externals, s: State, ids: map<Height, StateId>) {
    && ids.Keys == s.store.Keys
    && forall h :: h in s.store ==> GenStateId(x, s.client, s.store[h]) == Ok(ids[h])
  }

  ghost predicate Replayed(x: Externals, s: State) {
    ReplayLog(s.log).Some? && Mirrors(x, s, ReplayLog(s.log).value)
  }

  lemma ReplayAppend(log: seq<ProxyMessage>, m: ProxyMessage)
    requires ReplayLog(log).Some?
    ensures ReplayLog(log + [m]) == Accept(ReplayLog(log).value, m)
  {
    assert (log + [m])[..|log|] == log;
  }

  lemma MirrorsSameStore(x: Externals, s: State, s': State, ids: map<Height, StateId>)
    requires Mirrors(x, s, ids)
    requires Canonicalize(s'.client) == Canonicalize(s.client) && s'.store == s.store
    ensures Mirrors(x, s', ids)
  {
    hide GenStateId;
    SameParametersCanonical(s.client, s'.client);
    StableIds(x, s.client, s'.client);
  }

  lemma MirrorsWrite(x: Externals, s: State, ids: map<Height, StateId>, height: Height, n: ConsensusState, id: StateId)
    requires Mirrors(x, s, ids)
    requires GenStateId(x, s.client, n) == Ok(id)
    ensures Mirrors(x, s.(store := s.store[height := n]), ids[height := id])
  {
    hide GenStateId;
  }

  lemma UpdateReplayed(x: Externals, s: State, now: Time, h: Header, s': State)
    requires Replayed(x, s) && UpdateOutcome(x, s, now, h, s')
    ensures Replayed(x, s')
  {
    hide GenStateId, Mirrors, Accepted;
    UpdateOutcomeKeeps(x, s, now, h, s');
    var ids, m := ReplayLog(s.log).value, s'.log[|s.log|];
    assert m.prevHeight.value in ids && ids[m.prevHeight.value] == m.prevStateId.value by {
      MirrorsAt(x, s, ids, TrustedHeight(h));
    }
    ReplayAppend(s.log, m);
    var height, n := HeaderHeight(h), s'.store[HeaderHeight(h)];
    var s1 := s.(client := s'.client);
    MirrorsSameStore(x, s, s1, ids);
    MirrorsWrite(x, s1, ids, height, n, m.postStateId);
    MirrorsSameStore(x, s1.(store := s1.store[height := n]), s', ids[height := m.postStateId]);
  }

  lemma MirrorsAt(x: Externals, s: State, ids: map<Height, StateId>, height: Height)
    requires Mirrors(x, s, ids) && height in s.store
    ensures height in ids && GenStateId(x, s.client, s.store[height]) == Ok(ids[height])
  {}

  lemma MisbehaviourReplayed(x: Externals, s: State, now: Time, any: Any, m: Misbehaviour, s': State)
    requires Replayed(x, s) && MisbehaviourOutcome(x, s, now, any, m, s')
    ensures Replayed(x, s')
  {
    hide GenStateId, Mirrors;
    MirrorsAt(x, s, ReplayLog(s.log).value, m.trustedSyncCommittee.height);
    ReplayAppend(s.log, s'.log[|s.log|]);
    MirrorsSameStore(x, s, s', ReplayLog(s.log).value);
  }

  lemma VerifyReplayed(x: Externals, s: State, e: Event, s': State)
    requires !e.Submit? && Replayed(x, s) && VerifyOutcome(x, s, e, s')
    ensures Replayed(x, s')
  {
    hide GenStateId;
    ReplayAppend(s.log, s'.log[|s.log|]);
  }

  lemma StepReplayed(x: Externals, s: State, e: Event)
    requires Replayed(x, s) && Step(x, s, e).Ok?
    ensures Replayed(x, Step(x, s, e).value)
  {
    hide Step, Replayed, UpdateOutcome, MisbehaviourOutcome, VerifyOutcome;
    StepOutcome(x, s, e);
    var s' := Step(x, s, e).value;
    if e.Submit? {
      match DecodeClientMessage(x, e.message)
      case Ok(HeaderMessage(h)) => UpdateReplayed(x, s, e.now, h, s');
      case Ok(MisbehaviourMessage(m)) => MisbehaviourReplayed(x, s, e.now, e.message, m, s');
    } else {
      VerifyReplayed(x, s, e, s');
    }
  }

  lemma {:induction false} RunReplayed(x: Externals, s: State, es: seq<Event>)
    requires Replayed(x, s)
    ensures Replayed(x, Run(x, s, es))
  {
    hide Step, Replayed;
    if es != [] {
      var before, e := Run(x, s, es[..|es| - 1]), es[|es| - 1];
      RunReplayed(x, s, es[..|es| - 1]);
      if Step(x, before, e).Ok? {
        StepReplayed(x, before, e);
      }
    }
  }

  /** Replaying the log of any run never rejects a message and ends with exactly the ids of the
      stored states, whatever was overwritten, reordered or frozen on the way. */
  lemma ReplayRefines(
    x: Externals, clientId: string, any: Any, client: ClientState, consensus: ConsensusState, es: seq<Event>)
    requires Create(x, clientId, any, client, consensus).Ok?
    ensures Replayed(x, Run(x, Create(x, clientId, any, client, consensus).value, es))
  {
    hide Run, GenStateId, ValidateClientState, ValidateConsensusState;
    var s := Create(x, clientId, any, client, consensus).value;
    ReplayAppend([], s.log[0]);
    assert [] + [s.log[0]] == s.log;
    RunReplayed(x, s, es);
  }
}
