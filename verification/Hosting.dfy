/** A host that keeps one client: it reads the encoded states a call needs, makes the call, and on
    success writes the returned states back and appends the message. */
module Hosting {
  import opened Types
  import opened Externals
  import opened Commitment
  import opened Updates
  import opened LightClient
  import opened Machine
  import opened Refinement
  import opened Encoder
  import ClientCodec
  import ConsensusCodec

  class Host {
    const clientId: string
    var client: Any
    var consensus: map<Height, Any>
    var log: seq<ProxyMessage>

    function View(): Stored
      reads this
    {
      Stored(clientId, client, consensus, log)
    }

    /** The stored client state decodes and its encoding stays within a 64-bit length. */
    ghost predicate Valid(x: Externals)
      reads this
    {
      ClientCodec.Decode(x, client).Ok? ==> ClientCodec.Compact(ClientCodec.Decode(x, client).value)
    }

    constructor (x: Externals, clientId: string, anyClient: Any, anyConsensus: Any)
      requires CreateClient(x, anyClient, anyConsensus).Ok?
      ensures Ok(View()) == StoredCreate(x, clientId, anyClient, anyConsensus)
      ensures client == anyClient && this.clientId == clientId
      ensures |log| == 1 && log[0].UpdateState? && log[0].prevHeight.None? && log[0].context == Empty
      ensures log[0].emittedStates == [EmittedState(log[0].postHeight, anyClient)]
      ensures consensus == map[log[0].postHeight := anyConsensus]
      ensures IsVector(anyClient.value) ==> Valid(x)
    {
      CreatedMessage(x, anyClient, anyConsensus);
      hide CreateClient, ClientCodec.Decode, ClientCodec.Compact;
      var created := CreateClient(x, anyClient, anyConsensus).value;
      this.clientId := clientId;
      client := anyClient;
      consensus := map[created.height := anyConsensus];
      log := [created.message];
      new;
      if IsVector(anyClient.value) {
        ClientCodec.DecodedCompact(x, anyClient);
      }
    }

    method UpdateState(x: Externals, now: Time, h: Header) returns (r: Result<()>)
      requires Valid(x)
      modifies this
      ensures Valid(x)
      ensures match UpdateStateCall(x, old(View()), now, h)
              case Err(error) => r == Err(error) && View() == old(View())
              case Ok(u) => r.Ok? && View() == Write(old(View()), u)
    {
      hide ClientCodec.Decode, ClientCodec.Encode, ClientCodec.Compact, ConsensusCodec.Decode, ConsensusCodec.Encode;
      hide CheckHeader, GenStateId;
      var read :- ReadStates(x, View(), TrustedHeight(h));
      var (clientState, trusted) := read;
      var states :- CheckHeaderAndUpdateState(x, clientState, now, trusted, h);
      var (newClient, newConsensus) := states;
      CheckHeaderParameters(x, clientState, now, trusted, h);
      Reencoded(x, client, clientState, newClient);
      var prevId :- ComputeStateId(x, clientState, trusted);
      var postId :- ComputeStateId(x, newClient, newConsensus);
      ClientCodec.CompactFits(newClient);
      client := EncodeClientState(newClient);
      var anyConsensus := EncodeConsensusState(newConsensus);
      consensus := consensus[HeaderHeight(h) := anyConsensus];
      var message := UpdateMessage(
        clientState, TrustedHeight(h), trusted, prevId, HeaderHeight(h), newConsensus, postId);
      log := log + [message];
      return Ok(());
    }

    method SubmitMisbehaviour(x: Externals, now: Time, any: Any, m: Misbehaviour) returns (r: Result<()>)
      requires Valid(x)
      modifies this
      ensures Valid(x)
      ensures match SubmitMisbehaviourCall(x, old(View()), now, any, m)
              case Err(error) => r == Err(error) && View() == old(View())
              case Ok(u) => r.Ok? && View() == Write(old(View()), u)
    {
      hide ClientCodec.Decode, ClientCodec.Encode, ClientCodec.Compact, ConsensusCodec.Decode, ConsensusCodec.Encode;
      hide CheckMisbehaviour, GenStateId, PrevStates;
      var trustedHeight := m.trustedSyncCommittee.height;
      var read :- ReadStates(x, View(), trustedHeight);
      var (clientState, trusted) := read;
      var frozen :- CheckMisbehaviour(x, clientState, now, clientId, trusted, m);
      CheckMisbehaviourOutcome(x, clientState, now, clientId, trusted, m);
      Reencoded(x, client, clientState, frozen);
      ClientCodec.CompactFits(frozen);
      var anyClient := EncodeClientState(frozen);
      var prevStates :- MakePrevStates(x, consensus, clientState, [trustedHeight]);
      client := anyClient;
      log := log + [MisbehaviourMessageOf(clientState, trusted, prevStates, any)];
      return Ok(());
    }

    /** One event: the stored state moves exactly as the specification's step says, and a failure
        changes nothing. */
    method Handle(x: Externals, e: Event) returns (r: Result<()>)
      requires Valid(x)
      modifies this
      ensures Valid(x)
      ensures match StoredStep(x, old(View()), e)
              case Err(error) => r == Err(error) && View() == old(View())
              case Ok(b) => r.Ok? && View() == b
    {
      hide UpdateStateCall, SubmitMisbehaviourCall, ReadStates, GenStateId, DecodeClientMessage, ClientCodec.Decode;
      match e
      case Submit(now, any) =>
        var message :- DecodeClientMessage(x, any);
        match message {
          case HeaderMessage(h) => r := UpdateState(x, now, h);
          case MisbehaviourMessage(m) => r := SubmitMisbehaviour(x, now, any, m);
        }
      case CheckPresent(_, prefix, path, value, height, proof) =>
        var emitted :- VerifyMembership(x, View(), prefix, path, value, height, proof);
        log := log + [emitted];
        r := Ok(());
      case CheckAbsent(_, prefix, path, height, proof) =>
        var emitted :- VerifyNonMembership(x, View(), prefix, path, height, proof);
        log := log + [emitted];
        r := Ok(());
    }

    /** A sequence of events, each handled in turn, whatever became of the ones before. */
    method HandleAll(x: Externals, es: seq<Event>)
      requires Valid(x)
      modifies this
      ensures Valid(x)
      ensures View() == StoredRun(x, old(View()), es)
    {
      hide StoredStep, ClientCodec.Decode;
      for i := 0 to |es|
        invariant Valid(x)
        invariant View() == StoredRun(x, old(View()), es[..i])
      {
        assert es[..i + 1][..i] == es[..i];
        var _ := Handle(x, es[i]);
      }
      assert es[..|es|] == es;
    }
  }
}
