/** The host that stores encoded states refines the machine over decoded states: every call decodes
    what was encoded before, so both take the same steps and emit the same messages. */
module Refinement {
  import opened Types
  import opened Externals
  import opened Commitment
  import opened Updates
  import opened LightClient
  import opened Machine
  import ClientCodec
  import ConsensusCodec

  // ---------------------------------------------------------------- the host

  function StoredCreate(x: Externals, clientId: string, anyClient: Any, anyConsensus: Any): Result<Stored> {
    var created :- CreateClient(x, anyClient, anyConsensus);
    Ok(Stored(clientId, anyClient, map[created.height := anyConsensus], [created.message]))
  }

  function Write(b: Stored, u: ClientUpdate): Stored {
    match u
    case StateUpdate(client, consensus, height, message) =>
      b.(client := client, consensus := b.consensus[height := consensus], log := b.log + [message])
    case Freeze(client, message) => b.(client := client, log := b.log + [message])
  }

  function Emit(b: Stored, message: ProxyMessage): Stored {
    b.(log := b.log + [message])
  }

  function StoredStep(x: Externals, b: Stored, e: Event): Result<Stored> {
    match e
    case Submit(now, any) =>
      var u :- UpdateClient(x, b, now, any);
      Ok(Write(b, u))
    case CheckPresent(_, prefix, path, value, height, proof) =>
      var message :- VerifyMembership(x, b, prefix, path, value, height, proof);
      Ok(Emit(b, message))
    case CheckAbsent(_, prefix, path, height, proof) =>
      var message :- VerifyNonMembership(x, b, prefix, path, height, proof);
      Ok(Emit(b, message))
  }

  function StoredRun(x: Externals, b: Stored, es: seq<Event>): Stored {
    if es == [] then b
    else
      var before := StoredRun(x, b, es[..|es| - 1]);
      var r := StoredStep(x, before, es[|es| - 1]);
      if r.Ok? then r.value else before
  }

  // ---------------------------------------------------------------- the relation

  ghost predicate Represents(x: Externals, b: Stored, s: State) {
    && b.clientId == s.clientId
    && b.log == s.log
    && ClientCodec.Decode(x, b.client) == Ok(s.client)
    && ClientCodec.Compact(s.client)
    && b.consensus.Keys == s.store.Keys
    && forall h :: h in s.store ==> ConsensusCodec.Decode(b.consensus[h]) == Ok(s.store[h])
  }

  /** A client state that differs from a decoded one only in its moving fields survives encoding. */
  lemma Reencoded(x: Externals, any: Any, before: ClientState, after: ClientState)
    requires ClientCodec.Decode(x, any) == Ok(before) && ClientCodec.Compact(before)
    requires SameParameters(after, before)
    ensures ClientCodec.Decode(x, ClientCodec.Encode(after)) == Ok(after)
    ensures ClientCodec.Compact(after)
  {
    ClientCodec.DecodedRepresentable(x, any);
    SameParametersCanonical(after, before);
    ClientCodec.CompactFits(after);
    ClientCodec.RoundTrip(x, after);
  }

  /** A host creates a client exactly when the machine does on the decoded states. */
  lemma CreateRefines(x: Externals, clientId: string, anyClient: Any, anyConsensus: Any)
    requires IsVector(anyClient.value)
    ensures
      match StoredCreate(x, clientId, anyClient, anyConsensus)
      case Err(error) =>
        ClientCodec.Decode(x, anyClient).Ok? && ConsensusCodec.Decode(anyConsensus).Ok? ==>
          Create(x, clientId, anyClient, ClientCodec.Decode(x, anyClient).value,
                 ConsensusCodec.Decode(anyConsensus).value) == Err(error)
      case Ok(b) =>
        && ClientCodec.Decode(x, anyClient).Ok? && ConsensusCodec.Decode(anyConsensus).Ok?
        && var s := Create(x, clientId, anyClient, ClientCodec.Decode(x, anyClient).value,
                           ConsensusCodec.Decode(anyConsensus).value);
           && s.Ok? && Represents(x, b, s.value)
           && b.client == anyClient
           && b.consensus.Keys == {LatestHeight(s.value.client)}
           && b.consensus[LatestHeight(s.value.client)] == anyConsensus
           && |b.log| == 1
           && Announces(b.log[0], Height(0, s.value.client.latestExecutionBlockNumber), anyClient,
                        ConsensusCodec.Decode(anyConsensus).value.timestamp)
  {
    hide ClientCodec.Decode, ClientCodec.Compact, ConsensusCodec.Decode;
    hide ValidateClientState, ValidateConsensusState, GenStateId;
    if ClientCodec.Decode(x, anyClient).Ok? {
      ClientCodec.DecodedCompact(x, anyClient);
    }
  }

  /** Reading the stored bytes gives the machine's states. */
  lemma ReadRefines(x: Externals, b: Stored, s: State, height: Height)
    requires Represents(x, b, s)
    ensures ReadStates(x, b, height)
         == match Lookup(s, height) case Err(error) => Err(error) case Ok(consensus) => Ok((s.client, consensus))
    ensures Lookup(s, height).Ok? ==>
              IdAt(x, b.consensus, s.client, height) == GenStateId(x, s.client, Lookup(s, height).value)
  {
    hide ClientCodec.Decode, ClientCodec.Compact, ConsensusCodec.Decode, GenStateId;
  }

  /** Writing encoded states represents writing the states, if the parameters stay. */
  lemma WriteRefines(
    x: Externals, b: Stored, s: State, c: ClientState, height: Height, n: ConsensusState, message: ProxyMessage)
    requires Represents(x, b, s) && SameParameters(c, s.client)
    ensures Represents(
              x, Write(b, StateUpdate(ClientCodec.Encode(c), ConsensusCodec.Encode(n), height, message)),
              s.(client := c, store := s.store[height := n], log := s.log + [message]))
  {
    hide ClientCodec.Decode, ClientCodec.Encode, ClientCodec.Compact, ConsensusCodec.Decode, ConsensusCodec.Encode;
    Reencoded(x, b.client, s.client, c);
    ConsensusCodec.RoundTrip(n);
  }

  lemma FreezeRefines(x: Externals, b: Stored, s: State, c: ClientState, message: ProxyMessage)
    requires Represents(x, b, s) && SameParameters(c, s.client)
    ensures Represents(
              x, Write(b, Freeze(ClientCodec.Encode(c), message)), s.(client := c, log := s.log + [message]))
  {
    hide ClientCodec.Decode, ClientCodec.Encode, ClientCodec.Compact, ConsensusCodec.Decode;
    Reencoded(x, b.client, s.client, c);
  }

  lemma UpdateRefines(x: Externals, b: Stored, s: State, now: Time, h: Header)
    requires Represents(x, b, s)
    ensures
      match UpdateStateCall(x, b, now, h)
      case Err(error) => UpdateStep(x, s, now, h) == Err(error)
      case Ok(u) => UpdateStep(x, s, now, h).Ok? && Represents(x, Write(b, u), UpdateStep(x, s, now, h).value)
  {
    hide Represents, ReadStates, Lookup, SameParameters, Write, CheckHeader, GenStateId, UpdateMessage;
    hide ClientCodec.Encode, ConsensusCodec.Encode;
    ReadRefines(x, b, s, TrustedHeight(h));
    var u := UpdateStateCall(x, b, now, h);
    if u.Ok? {
      var trusted := Lookup(s, TrustedHeight(h)).value;
      var states := CheckHeader(x, s.client, now, trusted, h).value;
      CheckHeaderParameters(x, s.client, now, trusted, h);
      WriteRefines(x, b, s, states.0, HeaderHeight(h), states.1, u.value.message);
    }
  }

  lemma MisbehaviourRefines(x: Externals, b: Stored, s: State, now: Time, any: Any, m: Misbehaviour)
    requires Represents(x, b, s)
    ensures
      match SubmitMisbehaviourCall(x, b, now, any, m)
      case Err(error) => MisbehaviourStep(x, s, now, any, m) == Err(error)
      case Ok(u) =>
        MisbehaviourStep(x, s, now, any, m).Ok?
        && Represents(x, Write(b, u), MisbehaviourStep(x, s, now, any, m).value)
  {
    var height := m.trustedSyncCommittee.height;
    assert b.clientId == s.clientId;
    hide Represents, ReadStates, Lookup, SameParameters, Write, CheckMisbehaviour, GenStateId, PrevStates, IdAt;
    hide MisbehaviourMessageOf, ClientCodec.Encode;
    ReadRefines(x, b, s, height);
    PrevStatesOne(x, b.consensus, s.client, height);
    var u := SubmitMisbehaviourCall(x, b, now, any, m);
    if u.Ok? {
      var trusted := Lookup(s, height).value;
      CheckMisbehaviourParameters(x, s.client, now, s.clientId, trusted, m);
      FreezeRefines(
        x, b, s, CheckMisbehaviour(x, s.client, now, s.clientId, trusted, m).value, u.value.message);
    }
  }

  lemma EmitRefines(x: Externals, b: Stored, s: State, message: ProxyMessage)
    requires Represents(x, b, s)
    ensures Represents(x, Emit(b, message), s.(log := s.log + [message]))
  {
    hide ClientCodec.Decode, ClientCodec.Compact, ConsensusCodec.Decode;
  }

  lemma VerifyRefines(x: Externals, b: Stored, s: State, e: Event)
    requires Represents(x, b, s) && !e.Submit?
    ensures
      match StoredStep(x, b, e)
      case Err(error) => VerifyStep(x, s, e) == Err(error)
      case Ok(b') => VerifyStep(x, s, e).Ok? && Represents(x, b', VerifyStep(x, s, e).value)
  {
    hide Represents, ReadStates, Lookup, GenStateId;
    ReadRefines(x, b, s, e.height);
    forall message ensures Represents(x, Emit(b, message), s.(log := s.log + [message])) {
      EmitRefines(x, b, s, message);
    }
  }

  /** Each host step succeeds exactly when the machine's does, with the same error otherwise. */
  lemma StepRefines(x: Externals, b: Stored, s: State, e: Event)
    requires Represents(x, b, s)
    ensures
      match StoredStep(x, b, e)
      case Err(error) => Step(x, s, e) == Err(error)
      case Ok(b') => Step(x, s, e).Ok? && Represents(x, b', Step(x, s, e).value)
  {
    hide ClientCodec.Decode, ClientCodec.Encode, ConsensusCodec.Decode, ConsensusCodec.Encode;
    if e.Submit? {
      hide UpdateStateCall, SubmitMisbehaviourCall, UpdateStep, MisbehaviourStep, Represents, DecodeClientMessage;
      match DecodeClientMessage(x, e.message)
      case Ok(HeaderMessage(h)) => UpdateRefines(x, b, s, e.now, h);
      case Ok(MisbehaviourMessage(m)) => MisbehaviourRefines(x, b, s, e.now, e.message, m);
      case Err(_) =>
    } else {
      VerifyRefines(x, b, s, e);
    }
  }

  /** Over every run the stored bytes decode to the machine's state and the logs agree. */
  lemma {:induction false} RunRefines(x: Externals, b: Stored, s: State, es: seq<Event>)
    requires Represents(x, b, s)
    ensures Represents(x, StoredRun(x, b, es), Run(x, s, es))
  {
    hide Represents, StoredStep, Step;
    if es != [] {
      RunRefines(x, b, s, es[..|es| - 1]);
      StepRefines(x, StoredRun(x, b, es[..|es| - 1]), Run(x, s, es[..|es| - 1]), es[|es| - 1]);
    }
  }
}
