/** State ids: what the proxy's messages commit to. */
module Commitment {
  import opened Types
  import opened Externals
  import ClientCodec
  import ConsensusCodec

  function Canonicalize(c: ClientState): ClientState {
    c.(latestExecutionBlockNumber := 0, frozenHeight := None)
  }

  /** The client state is cloned and its two moving fields are reset. */
  method CanonicalizeClone(c: ClientState) returns (r: ClientState)
    ensures SameParameters(r, c)
    ensures r.latestExecutionBlockNumber == 0 && r.frozenHeight.None?
  {
    r := c;
    r := r.(latestExecutionBlockNumber := 0);
    r := r.(frozenHeight := None);
  }

  function GenStateId(x: Externals, client: ClientState, consensus: ConsensusState): Result<StateId> {
    match x.stateIdHash(ClientCodec.Encode(Canonicalize(client)), ConsensusCodec.Encode(consensus))
    case None => Err(Error.Commitment)
    case Some(id) => Ok(id)
  }

  /** The two client states differ at most in latest block number and frozen height. */
  predicate SameParameters(c: ClientState, d: ClientState) {
    c == d.(latestExecutionBlockNumber := c.latestExecutionBlockNumber, frozenHeight := c.frozenHeight)
  }

  lemma SameParametersCanonical(c: ClientState, d: ClientState)
    ensures SameParameters(c, d) <==> Canonicalize(c) == Canonicalize(d)
  {
    if Canonicalize(c) == Canonicalize(d) {
      assert c == Canonicalize(c).(
        latestExecutionBlockNumber := c.latestExecutionBlockNumber, frozenHeight := c.frozenHeight);
    }
  }

  lemma CompactCanonical(c: ClientState)
    requires ClientCodec.Compact(c)
    ensures ClientCodec.Compact(Canonicalize(c))
  {}

  /** Ids survive every change of the latest block number and the frozen height. */
  lemma StableIds(x: Externals, c: ClientState, d: ClientState)
    requires SameParameters(c, d)
    ensures forall t: ConsensusState :: GenStateId(x, c, t) == GenStateId(x, d, t)
  {
    SameParametersCanonical(c, d);
  }

  /** What is hashed: first the client state without its moving fields, then the consensus state, each
      encoded under its own type URL. */
  lemma StateIdArguments(x: Externals, c: ClientState, s: ConsensusState)
    requires ClientCodec.Fits(Canonicalize(c)) && ClientCodec.Representable(x, c)
    ensures exists a, b ::
      && Hashed(x, c, s, a, b)
      && match x.stateIdHash(a, b)
         case Some(id) => GenStateId(x, c, s) == Ok(id)
         case None => GenStateId(x, c, s).Err?
  {
    var a, b := ClientCodec.Encode(Canonicalize(c)), ConsensusCodec.Encode(s);
    ClientCodec.RoundTrip(x, Canonicalize(c));
    ConsensusCodec.RoundTrip(s);
    hide ClientCodec.Decode, ConsensusCodec.Decode, ClientCodec.Representable, ClientCodec.Fits;
    assert Hashed(x, c, s, a, b);
  }

  predicate Hashed(x: Externals, c: ClientState, s: ConsensusState, a: Any, b: Any) {
    && a.typeUrl == "/ibc.lightclients.ethereum.v1.ClientState"
    && ClientCodec.Decode(x, a) == Ok(c.(latestExecutionBlockNumber := 0, frozenHeight := None))
    && b.typeUrl == "/ibc.lightclients.ethereum.v1.ConsensusState"
    && ConsensusCodec.Decode(b) == Ok(s)
  }

  /** A state id pins down the consensus state and every client parameter, and nothing else. */
  lemma CommitmentInjective(x: Externals, c: ClientState, s: ConsensusState, d: ClientState, t: ConsensusState)
    requires CollisionFree(x)
    requires ClientCodec.Fits(Canonicalize(c)) && ClientCodec.Fits(Canonicalize(d))
    requires ClientCodec.Representable(x, c) && ClientCodec.Representable(x, d)
    requires GenStateId(x, c, s).Ok?
    ensures GenStateId(x, c, s) == GenStateId(x, d, t) <==> s == t && SameParameters(c, d)
  {
    SameParametersCanonical(c, d);
    ClientCodec.EncodeInjective(x, Canonicalize(c), Canonicalize(d));
    ConsensusCodec.EncodeInjective(s, t);
  }
}
