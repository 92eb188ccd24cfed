/** The light client's calls, on the encoded states a host stores. */
module LightClient {
  import opened Types
  import opened Externals
  import opened Commitment
  import opened Updates
  import ClientCodec
  import ConsensusCodec

  const HEADER_TYPE_URL: string := "/ibc.lightclients.ethereum.v1.Header"
  const FINALIZED_HEADER_MISBEHAVIOUR_TYPE_URL: string :=
    "/ibc.lightclients.ethereum.v1.FinalizedHeaderMisbehaviour"
  const NEXT_SYNC_COMMITTEE_MISBEHAVIOUR_TYPE_URL: string :=
    "/ibc.lightclients.ethereum.v1.NextSyncCommitteeMisbehaviour"

  /** What a host stores for one client, and the messages emitted so far. */
  datatype Stored = Stored(clientId: string, client: Any, consensus: map<Height, Any>, log: seq<ProxyMessage>)

  datatype Created = Created(height: Height, message: ProxyMessage)

  datatype ClientUpdate =
    | StateUpdate(client: Any, consensus: Any, height: Height, message: ProxyMessage)
    | Freeze(client: Any, message: ProxyMessage)

  function DecodeClientMessage(x: Externals, any: Any): Result<ClientMessage> {
    if any.typeUrl == HEADER_TYPE_URL then
      match x.decodeHeader(any.value)
      case None => Err(ProtoDecode)
      case Some(h) => Ok(HeaderMessage(h))
    else if any.typeUrl == FINALIZED_HEADER_MISBEHAVIOUR_TYPE_URL then
      match x.decodeFinalizedHeaderMisbehaviour(any.value)
      case None => Err(ProtoDecode)
      case Some(m) => Ok(MisbehaviourMessage(m))
    else if any.typeUrl == NEXT_SYNC_COMMITTEE_MISBEHAVIOUR_TYPE_URL then
      match x.decodeNextSyncCommitteeMisbehaviour(any.value)
      case None => Err(ProtoDecode)
      case Some(m) => Ok(MisbehaviourMessage(m))
    else Err(UnknownType)
  }

  /** Each type URL has its own decoder, and there are no others. */
  lemma DecodeHeaderExact(x: Externals, any: Any, h: Header)
    ensures DecodeClientMessage(x, any) == Ok(HeaderMessage(h)) <==>
            any.typeUrl == "/ibc.lightclients.ethereum.v1.Header" && x.decodeHeader(any.value) == Some(h)
  {}

  lemma DecodeMisbehaviourExact(x: Externals, any: Any, m: Misbehaviour)
    ensures DecodeClientMessage(x, any) == Ok(MisbehaviourMessage(m)) <==>
            || (any.typeUrl == "/ibc.lightclients.ethereum.v1.FinalizedHeaderMisbehaviour"
                && x.decodeFinalizedHeaderMisbehaviour(any.value) == Some(m))
            || (any.typeUrl == "/ibc.lightclients.ethereum.v1.NextSyncCommitteeMisbehaviour"
                && x.decodeNextSyncCommitteeMisbehaviour(any.value) == Some(m))
  {
    DistinctUrls();
  }

  lemma DistinctUrls()
    ensures HEADER_TYPE_URL != FINALIZED_HEADER_MISBEHAVIOUR_TYPE_URL
    ensures FINALIZED_HEADER_MISBEHAVIOUR_TYPE_URL != NEXT_SYNC_COMMITTEE_MISBEHAVIOUR_TYPE_URL
    ensures HEADER_TYPE_URL != NEXT_SYNC_COMMITTEE_MISBEHAVIOUR_TYPE_URL
  {
    assert HEADER_TYPE_URL[30] == 'H' && FINALIZED_HEADER_MISBEHAVIOUR_TYPE_URL[30] == 'F'
        && NEXT_SYNC_COMMITTEE_MISBEHAVIOUR_TYPE_URL[30] == 'N';
  }

  /** A message under one of the three type URLs whose body its decoder refuses is malformed; any other
      type URL is unknown. */
  lemma DecodeFails(x: Externals, any: Any)
    ensures DecodeClientMessage(x, any) == Err(UnknownType) <==>
            any.typeUrl !in {
              "/ibc.lightclients.ethereum.v1.Header",
              "/ibc.lightclients.ethereum.v1.FinalizedHeaderMisbehaviour",
              "/ibc.lightclients.ethereum.v1.NextSyncCommitteeMisbehaviour"}
    ensures DecodeClientMessage(x, any).Err? ==> DecodeClientMessage(x, any).error in {UnknownType, ProtoDecode}
  {}

  // ---------------------------------------------------------------- messages, from decoded states

  function CreateMessage(client: ClientState, anyClient: Any, consensus: ConsensusState, id: StateId): ProxyMessage {
    var height := LatestHeight(client);
    UpdateState(None, None, height, id, [EmittedState(height, anyClient)], consensus.timestamp, Empty)
  }

  function UpdateMessage(
    client: ClientState, trustedHeight: Height, trusted: ConsensusState, prevId: StateId,
    height: Height, consensus: ConsensusState, postId: StateId): ProxyMessage
  {
    UpdateState(Some(trustedHeight), Some(prevId), height, postId, [], consensus.timestamp,
                TrustingPeriod(client.trustingPeriod, client.maxClockDrift, consensus.timestamp, trusted.timestamp))
  }

  /** A misbehaving header may well lie in the future: no drift bound, and the epoch as header time. */
  function MisbehaviourMessageOf(
    client: ClientState, trusted: ConsensusState, prev: seq<PrevState>, any: Any): ProxyMessage
  {
    Misbehave(prev, TrustingPeriod(client.trustingPeriod, Duration(0, 0), 0, trusted.timestamp), any)
  }

  function HeaderHeight(h: Header): Height {
    Height(ETHEREUM_CLIENT_REVISION_NUMBER, h.executionUpdate.blockNumber)
  }

  function TrustedHeight(h: Header): Height {
    h.trustedSyncCommittee.height
  }

  // ---------------------------------------------------------------- calls

  function CreateClient(x: Externals, anyClient: Any, anyConsensus: Any): Result<Created> {
    var client :- ClientCodec.Decode(x, anyClient);
    var _ :- ValidateClientState(x, client);
    if client.frozenHeight.Some? then Err(CannotInitializeFrozenClient)
    else
      var consensus :- ConsensusCodec.Decode(anyConsensus);
      var _ :- ValidateConsensusState(consensus);
      var id :- GenStateId(x, client, consensus);
      Ok(Created(LatestHeight(client), CreateMessage(client, anyClient, consensus, id)))
  }

  /** A creation posts its message at the height it returns, and emits the given client state there. */
  lemma CreatedMessage(x: Externals, anyClient: Any, anyConsensus: Any)
    requires CreateClient(x, anyClient, anyConsensus).Ok?
    ensures var created := CreateClient(x, anyClient, anyConsensus).value;
            && created.message.UpdateState? && created.message.prevHeight.None?
            && created.message.postHeight == created.height
            && created.message.emittedStates == [EmittedState(created.height, anyClient)]
            && created.message.context == Empty
  {
    hide ClientCodec.Decode, ConsensusCodec.Decode, ValidateClientState, ValidateConsensusState, GenStateId;
  }

  /** Reads the client state and the consensus state at a height; a frozen client serves nothing. */
  function ReadStates(x: Externals, b: Stored, height: Height): Result<(ClientState, ConsensusState)> {
    if height !in b.consensus then Err(NotFound)
    else
      var client :- ClientCodec.Decode(x, b.client);
      if client.frozenHeight.Some? then Err(ClientFrozen)
      else
        var consensus :- ConsensusCodec.Decode(b.consensus[height]);
        Ok((client, consensus))
  }

  function UpdateStateCall(x: Externals, b: Stored, now: Time, h: Header): Result<ClientUpdate> {
    var read :- ReadStates(x, b, TrustedHeight(h));
    var (client, trusted) := read;
    var states :- CheckHeader(x, client, now, trusted, h);
    var prevId :- GenStateId(x, client, trusted);
    var postId :- GenStateId(x, states.0, states.1);
    Ok(StateUpdate(ClientCodec.Encode(states.0), ConsensusCodec.Encode(states.1), HeaderHeight(h),
                   UpdateMessage(client, TrustedHeight(h), trusted, prevId, HeaderHeight(h), states.1, postId)))
  }

  /** The state id of the given client state and the consensus state stored at a height. */
  function IdAt(x: Externals, stored: map<Height, Any>, client: ClientState, height: Height): Result<StateId> {
    if height !in stored then Err(NotFound)
    else
      var consensus :- ConsensusCodec.Decode(stored[height]);
      GenStateId(x, client, consensus)
  }

  /** One entry per height, in order; the first height that cannot be read fails the call. */
  function PrevStates(
    x: Externals, stored: map<Height, Any>, client: ClientState, heights: seq<Height>): Result<seq<PrevState>>
  {
    if heights == [] then Ok([])
    else
      var before :- PrevStates(x, stored, client, heights[..|heights| - 1]);
      var id :- IdAt(x, stored, client, heights[|heights| - 1]);
      Ok(before + [PrevState(heights[|heights| - 1], id)])
  }

  method MakePrevStates(x: Externals, stored: map<Height, Any>, client: ClientState, heights: seq<Height>)
    returns (r: Result<seq<PrevState>>)
    ensures r == PrevStates(x, stored, client, heights)
  {
    hide IdAt;
    var prev: seq<PrevState> := [];
    for i := 0 to |heights|
      invariant PrevStates(x, stored, client, heights[..i]) == Ok(prev)
    {
      assert heights[..i + 1][..i] == heights[..i];
      var id := IdAt(x, stored, client, heights[i]);
      if id.Err? {
        PrevStatesFails(x, stored, client, heights, i + 1);
        return Err(id.error);
      }
      prev := prev + [PrevState(heights[i], id.value)];
    }
    assert heights[..|heights|] == heights;
    return Ok(prev);
  }

  lemma {:induction false} PrevStatesFails(
    x: Externals, stored: map<Height, Any>, client: ClientState, heights: seq<Height>, n: nat)
    requires n <= |heights|
    requires PrevStates(x, stored, client, heights[..n]).Err?
    ensures PrevStates(x, stored, client, heights) == PrevStates(x, stored, client, heights[..n])
    decreases |heights|
  {
    hide IdAt;
    if n == |heights| {
      assert heights[..n] == heights;
    } else {
      var shorter := heights[..|heights| - 1];
      assert shorter[..n] == heights[..n];
      PrevStatesFails(x, stored, client, shorter, n);
    }
  }

  lemma PrevStatesOne(x: Externals, stored: map<Height, Any>, client: ClientState, height: Height)
    ensures PrevStates(x, stored, client, [height])
         == match IdAt(x, stored, client, height)
            case Err(error) => Err(error)
            case Ok(id) => Ok([PrevState(height, id)])
  {
    hide IdAt;
    var heights := [height];
    assert heights[..|heights| - 1] == [] && heights[|heights| - 1] == height;
    var id := IdAt(x, stored, client, height);
    if id.Ok? {
      assert [] + [PrevState(height, id.value)] == [PrevState(height, id.value)];
    }
  }

  function SubmitMisbehaviourCall(x: Externals, b: Stored, now: Time, any: Any, m: Misbehaviour): Result<ClientUpdate> {
    var trustedHeight := m.trustedSyncCommittee.height;
    var read :- ReadStates(x, b, trustedHeight);
    var (client, trusted) := read;
    var frozen :- CheckMisbehaviour(x, client, now, b.clientId, trusted, m);
    var prev :- PrevStates(x, b.consensus, client, [trustedHeight]);
    Ok(Freeze(ClientCodec.Encode(frozen), MisbehaviourMessageOf(client, trusted, prev, any)))
  }

  function UpdateClient(x: Externals, b: Stored, now: Time, any: Any): Result<ClientUpdate> {
    var message :- DecodeClientMessage(x, any);
    match message
    case HeaderMessage(h) => UpdateStateCall(x, b, now, h)
    case MisbehaviourMessage(m) => SubmitMisbehaviourCall(x, b, now, any, m)
  }

  function VerifyMembership(
    x: Externals, b: Stored, prefix: bytes, path: string, value: bytes, height: Height, proof: bytes)
    : Result<ProxyMessage>
  {
    var read :- ReadStates(x, b, height);
    match x.verifyMembership(read.0, read.1, path, value, height, proof)
    case None => Err(Membership)
    case Some(v) =>
      var id :- GenStateId(x, read.0, read.1);
      Ok(Verify(prefix, path, Some(v), height, id))
  }

  function VerifyNonMembership(
    x: Externals, b: Stored, prefix: bytes, path: string, height: Height, proof: bytes): Result<ProxyMessage>
  {
    var read :- ReadStates(x, b, height);
    if !x.verifyNonMembership(read.0, read.1, path, height, proof) then Err(Membership)
    else
      var id :- GenStateId(x, read.0, read.1);
      Ok(Verify(prefix, path, None, height, id))
  }

  // ---------------------------------------------------------------- what PrevStates delivers

  predicate Entry(x: Externals, stored: map<Height, Any>, client: ClientState, height: Height, p: PrevState) {
    p.height == height && IdAt(x, stored, client, height) == Ok(p.stateId)
  }

  /** The result is exactly the list with one entry per height, in order, each with the id of the
      state stored there; when some height has no readable state there is no such list. */
  lemma {:induction false} PrevStatesExact(
    x: Externals, stored: map<Height, Any>, client: ClientState, heights: seq<Height>, prev: seq<PrevState>)
    ensures PrevStates(x, stored, client, heights) == Ok(prev) <==>
            |prev| == |heights| && forall i :: 0 <= i < |heights| ==> Entry(x, stored, client, heights[i], prev[i])
    decreases |heights|
  {
    hide IdAt;
    if heights != [] && prev != [] {
      var n, m := |heights| - 1, |prev| - 1;
      PrevStatesExact(x, stored, client, heights[..n], prev[..m]);
      assert prev[..m] + [prev[m]] == prev;
      if PrevStates(x, stored, client, heights) == Ok(prev) {
        PrevStatesLast(x, stored, client, heights, prev);
      }
    }
  }

  lemma PrevStatesLast(
    x: Externals, stored: map<Height, Any>, client: ClientState, heights: seq<Height>, prev: seq<PrevState>)
    requires heights != [] && prev != []
    requires PrevStates(x, stored, client, heights) == Ok(prev)
    ensures PrevStates(x, stored, client, heights[..|heights| - 1]) == Ok(prev[..|prev| - 1])
    ensures Entry(x, stored, client, heights[|heights| - 1], prev[|prev| - 1])
  {
    hide IdAt;
    var before := PrevStates(x, stored, client, heights[..|heights| - 1]).value;
    assert prev[..|prev| - 1] == before;
  }
}
