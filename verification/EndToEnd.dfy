/** The main results for a host that stores bytes: they carry over through the refinement. */
module EndToEnd {
  import opened Types
  import opened Externals
  import opened Commitment
  import opened Updates
  import opened LightClient
  import opened Machine
  import opened Refinement
  import opened Lifecycle
  import opened Replay
  import opened Timing
  import opened Evidence
  import opened Hosting
  import ClientCodec
  import ConsensusCodec

  /** After any run of a host created from encoded states: its stored bytes decode, its log replays
      without a rejection to exactly the ids of the decoded stored states, and its parameters are
      those it was created with. */
  lemma HostReplay(x: Externals, clientId: string, anyClient: Any, anyConsensus: Any, es: seq<Event>)
    requires StoredCreate(x, clientId, anyClient, anyConsensus).Ok?
    requires IsVector(anyClient.value)
    ensures ClientCodec.Decode(x, anyClient).Ok?
    ensures
      var b := StoredRun(x, StoredCreate(x, clientId, anyClient, anyConsensus).value, es);
      && ClientCodec.Decode(x, b.client).Ok?
      && ReplayLog(b.log).Some?
      && var client, ids := ClientCodec.Decode(x, b.client).value, ReplayLog(b.log).value;
         && SameParameters(client, ClientCodec.Decode(x, anyClient).value)
         && ClientCodec.Compact(client)
         && b.consensus.Keys != {}
         && ids.Keys == b.consensus.Keys
         && forall h :: h in b.consensus ==>
              ConsensusCodec.Decode(b.consensus[h]).Ok?
              && GenStateId(x, client, ConsensusCodec.Decode(b.consensus[h]).value) == Ok(ids[h])
  {
    hide ClientCodec.Decode, ClientCodec.Compact, ConsensusCodec.Decode, GenStateId, ReplayLog;
    hide Run, StoredRun, StoredCreate, Create;
    CreateRefines(x, clientId, anyClient, anyConsensus);
    var client, consensus := ClientCodec.Decode(x, anyClient).value, ConsensusCodec.Decode(anyConsensus).value;
    var s := Create(x, clientId, anyClient, client, consensus).value;
    var b := StoredCreate(x, clientId, anyClient, anyConsensus).value;
    RunRefines(x, b, s, es);
    ReplayRefines(x, clientId, anyClient, client, consensus, es);
    ReachableClient(x, clientId, anyClient, client, consensus, es);
  }

  /** The same of the host itself: once set up it handles any events, and then its log replays to
      exactly the ids of the states it holds. */
  method Serve(x: Externals, clientId: string, anyClient: Any, anyConsensus: Any, es: seq<Event>)
    returns (host: Host)
    requires CreateClient(x, anyClient, anyConsensus).Ok?
    requires IsVector(anyClient.value)
    ensures fresh(host)
    ensures StoredCreate(x, clientId, anyClient, anyConsensus).Ok?
    ensures host.View() == StoredRun(x, StoredCreate(x, clientId, anyClient, anyConsensus).value, es)
    ensures ClientCodec.Decode(x, anyClient).Ok? && ClientCodec.Decode(x, host.client).Ok?
    ensures ReplayLog(host.log).Some?
    ensures var client, ids := ClientCodec.Decode(x, host.client).value, ReplayLog(host.log).value;
            && SameParameters(client, ClientCodec.Decode(x, anyClient).value)
            && ids.Keys == host.consensus.Keys
            && forall h :: h in host.consensus ==>
                 ConsensusCodec.Decode(host.consensus[h]).Ok?
                 && GenStateId(x, client, ConsensusCodec.Decode(host.consensus[h]).value) == Ok(ids[h])
  {
    hide ClientCodec.Decode, ConsensusCodec.Decode, GenStateId, ReplayLog, StoredRun, CreateClient;
    host := new Host(x, clientId, anyClient, anyConsensus);
    host.HandleAll(x, es);
    HostReplay(x, clientId, anyClient, anyConsensus, es);
    assert host.View().log == host.log && host.View().consensus == host.consensus;
  }

  /** The log of such a host starts with one emitted state: the client state it was given, at the height
      then posted. Those bytes decode to the parameters of every later client state, and no later
      message emits a state. */
  lemma HostAnnounces(x: Externals, clientId: string, anyClient: Any, anyConsensus: Any, es: seq<Event>)
    requires StoredCreate(x, clientId, anyClient, anyConsensus).Ok?
    requires IsVector(anyClient.value)
    ensures
      var b := StoredRun(x, StoredCreate(x, clientId, anyClient, anyConsensus).value, es);
      && b.log != []
      && b.log[0].UpdateState? && b.log[0].prevHeight.None? && b.log[0].context == Empty
      && b.log[0].emittedStates == [EmittedState(b.log[0].postHeight, anyClient)]
      && (forall i :: 0 < i < |b.log| && b.log[i].UpdateState? ==> b.log[i].emittedStates == [])
      && ClientCodec.Decode(x, b.client).Ok? && ClientCodec.Decode(x, b.log[0].emittedStates[0].state).Ok?
      && SameParameters(ClientCodec.Decode(x, b.client).value,
                        ClientCodec.Decode(x, b.log[0].emittedStates[0].state).value)
  {
    hide ClientCodec.Decode, ClientCodec.Compact, ConsensusCodec.Decode, GenStateId, ReplayLog, SameParameters;
    hide Run, StoredRun, StoredCreate, Create;
    CreateRefines(x, clientId, anyClient, anyConsensus);
    var client, consensus := ClientCodec.Decode(x, anyClient).value, ConsensusCodec.Decode(anyConsensus).value;
    var s := Create(x, clientId, anyClient, client, consensus).value;
    RunRefines(x, StoredCreate(x, clientId, anyClient, anyConsensus).value, s, es);
    CreationAnnounced(x, clientId, anyClient, client, consensus, es);
    HostReplay(x, clientId, anyClient, anyConsensus, es);
  }

  /** With a collision-free hash the emitted messages pin down what is stored: two hosts, created and
      run in any way, whose logs are equal hold the same consensus states under the same parameters. */
  lemma LogDeterminesStore(
    x: Externals, id1: string, client1: Any, consensus1: Any, es1: seq<Event>,
    id2: string, client2: Any, consensus2: Any, es2: seq<Event>)
    requires CollisionFree(x)
    requires StoredCreate(x, id1, client1, consensus1).Ok? && IsVector(client1.value)
    requires StoredCreate(x, id2, client2, consensus2).Ok? && IsVector(client2.value)
    requires StoredRun(x, StoredCreate(x, id1, client1, consensus1).value, es1).log
          == StoredRun(x, StoredCreate(x, id2, client2, consensus2).value, es2).log
    ensures
      var b1 := StoredRun(x, StoredCreate(x, id1, client1, consensus1).value, es1);
      var b2 := StoredRun(x, StoredCreate(x, id2, client2, consensus2).value, es2);
      && ClientCodec.Decode(x, b1.client).Ok? && ClientCodec.Decode(x, b2.client).Ok?
      && SameParameters(ClientCodec.Decode(x, b1.client).value, ClientCodec.Decode(x, b2.client).value)
      && b1.consensus.Keys == b2.consensus.Keys
      && forall h :: h in b1.consensus ==>
           ConsensusCodec.Decode(b1.consensus[h]) == ConsensusCodec.Decode(b2.consensus[h])
  {
    hide ClientCodec.Decode, ClientCodec.Compact, ConsensusCodec.Decode, GenStateId, StoredRun, StoredCreate, ReplayLog;
    hide CollisionFree;
    HostReplay(x, id1, client1, consensus1, es1);
    HostReplay(x, id2, client2, consensus2, es2);
    var b1 := StoredRun(x, StoredCreate(x, id1, client1, consensus1).value, es1);
    var b2 := StoredRun(x, StoredCreate(x, id2, client2, consensus2).value, es2);
    forall h | h in b1.consensus
      ensures ConsensusCodec.Decode(b1.consensus[h]) == ConsensusCodec.Decode(b2.consensus[h])
      ensures SameParameters(ClientCodec.Decode(x, b1.client).value, ClientCodec.Decode(x, b2.client).value)
    {
      SameIdSameState(x, b1.client, b1.consensus[h], b2.client, b2.consensus[h]);
    }
  }

  lemma SameIdSameState(x: Externals, client1: Any, consensus1: Any, client2: Any, consensus2: Any)
    requires CollisionFree(x)
    requires ClientCodec.Decode(x, client1).Ok? && ClientCodec.Compact(ClientCodec.Decode(x, client1).value)
    requires ClientCodec.Decode(x, client2).Ok? && ClientCodec.Compact(ClientCodec.Decode(x, client2).value)
    requires ConsensusCodec.Decode(consensus1).Ok? && ConsensusCodec.Decode(consensus2).Ok?
    requires
      var id1 := GenStateId(x, ClientCodec.Decode(x, client1).value, ConsensusCodec.Decode(consensus1).value);
      id1.Ok? && id1 == GenStateId(x, ClientCodec.Decode(x, client2).value, ConsensusCodec.Decode(consensus2).value)
    ensures ConsensusCodec.Decode(consensus1) == ConsensusCodec.Decode(consensus2)
    ensures SameParameters(ClientCodec.Decode(x, client1).value, ClientCodec.Decode(x, client2).value)
  {
    hide ClientCodec.Decode, ConsensusCodec.Decode, GenStateId, CollisionFree, ClientCodec.Representable;
    var c, d := ClientCodec.Decode(x, client1).value, ClientCodec.Decode(x, client2).value;
    ClientCodec.DecodedRepresentable(x, client1);
    ClientCodec.DecodedRepresentable(x, client2);
    CompactCanonical(c);
    CompactCanonical(d);
    ClientCodec.CompactFits(Canonicalize(c));
    ClientCodec.CompactFits(Canonicalize(d));
    CommitmentInjective(
      x, c, ConsensusCodec.Decode(consensus1).value, d, ConsensusCodec.Decode(consensus2).value);
  }
}
