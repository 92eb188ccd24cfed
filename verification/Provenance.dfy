/** Every stored consensus state descends from the created one by a chain of update messages. */
module Provenance {
  import opened Types
  import opened Externals
  import opened Commitment
  import opened Updates
  import opened LightClient
  import opened Machine
  import opened Lifecycle
  import opened Committees
  import opened Periods

  /** A message of the log and the consensus state it was emitted for. */
  datatype Node = Node(index: nat, state: ConsensusState)

  /** The log holds, at the node's index, a create or update message that commits to its state. */
  ghost predicate Posted(x: Externals, client: ClientState, log: seq<ProxyMessage>, n: Node) {
    && n.index < |log|
    && log[n.index].UpdateState?
    && GenStateId(x, client, n.state) == Ok(log[n.index].postStateId)
    && log[n.index].timestamp == n.state.timestamp
  }

  /** How far timestamps can advance in one update. */
  function Reach(client: ClientState): nat {
    client.trustingPeriod.InNanos() + client.maxClockDrift.InNanos()
  }

  /** The later slot lies in the same period as the earlier one, or in the next. */
  ghost predicate NextPeriodAtMost(chain: ChainContext, a: u64, b: u64) {
    forall p: nat, q: nat :: InPeriod(chain, a, p) && InPeriod(chain, b, q) ==> p <= q <= p + 1
  }

  /** A trust edge: the later message names the earlier one's height and state id as its previous
      ones; the slot grows, the period by at most one, and the timestamp by at most the reach. */
  ghost predicate Edge(client: ClientState, log: seq<ProxyMessage>, a: Node, b: Node)
    requires a.index < |log| && log[a.index].UpdateState?
    requires b.index < |log| && log[b.index].UpdateState?
  {
    && a.index < b.index
    && log[b.index].prevHeight == Some(log[a.index].postHeight)
    && log[b.index].prevStateId == Some(log[a.index].postStateId)
    && a.state.slot < b.state.slot
    && b.state.timestamp <= a.state.timestamp + Reach(client)
    && HasPeriods(Chain(client))
    && NextPeriodAtMost(Chain(client), a.state.slot, b.state.slot)
  }

  ghost predicate Linked(x: Externals, client: ClientState, log: seq<ProxyMessage>, chain: seq<Node>) {
    && chain != []
    && (forall i :: 0 <= i < |chain| ==> Posted(x, client, log, chain[i]))
    && chain[0].index == 0 && log[0].prevHeight.None?
    && (forall i :: 0 < i < |chain| ==> Edge(client, log, chain[i - 1], chain[i]))
  }

  /** The chain ends with the state stored at a height and the message that posted it there. */
  ghost predicate LeadsTo(x: Externals, s: State, chain: seq<Node>, h: Height) {
    && Linked(x, s.client, s.log, chain)
    && h in s.store
    && var last := chain[|chain| - 1];
       s.log[last.index].postHeight == h && last.state == s.store[h]
  }

  ghost predicate Descended(x: Externals, s: State) {
    forall h :: h in s.store ==> exists chain :: LeadsTo(x, s, chain, h)
  }

  // ---------------------------------------------------------------- chains survive later messages

  lemma PostedLater(
    x: Externals, client: ClientState, c': ClientState, log: seq<ProxyMessage>, m: ProxyMessage, n: Node)
    requires Canonicalize(client) == Canonicalize(c')
    requires Posted(x, client, log, n)
    ensures Posted(x, c', log + [m], n)
  {}

  lemma LinkedLater(
    x: Externals, client: ClientState, c': ClientState, log: seq<ProxyMessage>, m: ProxyMessage, chain: seq<Node>)
    requires Canonicalize(client) == Canonicalize(c')
    requires Linked(x, client, log, chain)
    ensures Linked(x, c', log + [m], chain)
  {
    hide GenStateId, NextPeriodAtMost;
    SameChain(client, c');
    SameParametersCanonical(client, c');
    forall i | 0 <= i < |chain| ensures Posted(x, c', log + [m], chain[i]) {
      PostedLater(x, client, c', log, m, chain[i]);
    }
    forall i | 0 < i < |chain| ensures Edge(c', log + [m], chain[i - 1], chain[i]) {
      assert Posted(x, client, log, chain[i - 1]) && Posted(x, client, log, chain[i]);
    }
  }

  /** A step that stores nothing new at `h` keeps the chain to it. */
  lemma LeadsToLater(x: Externals, s: State, s': State, chain: seq<Node>, h: Height)
    requires LeadsTo(x, s, chain, h)
    requires Canonicalize(s.client) == Canonicalize(s'.client)
    requires |s'.log| == |s.log| + 1 && s'.log == s.log + [s'.log[|s.log|]]
    requires h in s'.store && s'.store[h] == s.store[h]
    ensures LeadsTo(x, s', chain, h)
  {
    hide Linked;
    LinkedLater(x, s.client, s'.client, s.log, s'.log[|s.log|], chain);
    assert chain[|chain| - 1].index < |s.log| by { LinkedLast(x, s.client, s.log, chain); }
  }

  lemma LinkedLast(x: Externals, client: ClientState, log: seq<ProxyMessage>, chain: seq<Node>)
    requires Linked(x, client, log, chain)
    ensures chain != [] && Posted(x, client, log, chain[|chain| - 1])
  {
    hide GenStateId, Edge;
  }

  // ---------------------------------------------------------------- an update extends a chain

  lemma AcceptedEdge(
    x: Externals, client: ClientState, now: Time, trusted: ConsensusState, h: Header,
    c': ClientState, n: ConsensusState)
    requires RejectsIrrelevant(x)
    requires Accepted(x, client, now, trusted, h, c', n)
    ensures trusted.slot < n.slot
    ensures n.timestamp <= trusted.timestamp + Reach(client)
    ensures Reach(c') == Reach(client)
    ensures HasPeriods(Chain(client))
    ensures NextPeriodAtMost(Chain(client), trusted.slot, n.slot)
    ensures Canonicalize(c') == Canonicalize(client)
  {
    hide ComputeSyncCommittees, HeaderTimestamp, InPeriod;
    var cc := BuildContext(client, now);
    PeriodsCovered(cc, trusted, h.consensusUpdate);
    var t := TrustedConsensusState(trusted, h.trustedSyncCommittee.syncCommittee, h.trustedSyncCommittee.isNext);
    assert x.validateUpdates(cc, t, h.consensusUpdate, h.executionUpdate);
    forall p: nat, q: nat | InPeriod(Chain(client), trusted.slot, p) && InPeriod(Chain(client), n.slot, q)
      ensures p <= q <= p + 1
    {
      SamePeriods(Chain(client), cc, trusted.slot, p);
      SamePeriods(Chain(client), cc, n.slot, q);
      LaterSlot(cc, trusted.slot, p, n.slot, q);
    }
  }

  lemma LinkedExtend(x: Externals, client: ClientState, log: seq<ProxyMessage>, chain: seq<Node>, b: Node)
    requires Linked(x, client, log, chain)
    requires Posted(x, client, log, b)
    requires LastPosted(x, client, log, chain) && Edge(client, log, chain[|chain| - 1], b)
    ensures Linked(x, client, log, chain + [b])
  {
    hide GenStateId, Posted, Edge;
  }

  ghost predicate LastPosted(x: Externals, client: ClientState, log: seq<ProxyMessage>, chain: seq<Node>) {
    chain != [] && Posted(x, client, log, chain[|chain| - 1])
  }

  lemma UpdateExtends(x: Externals, s: State, now: Time, h: Header, s': State, chain: seq<Node>)
    requires RejectsIrrelevant(x)
    requires UpdateOutcome(x, s, now, h, s')
    requires LeadsTo(x, s, chain, TrustedHeight(h))
    ensures LeadsTo(x, s', chain + [Node(|s.log|, s'.store[HeaderHeight(h)])], HeaderHeight(h))
  {
    hide GenStateId, NextPeriodAtMost, Accepted, Linked, RejectsIrrelevant;
    var trusted, n := s.store[TrustedHeight(h)], s'.store[HeaderHeight(h)];
    AcceptedEdge(x, s.client, now, trusted, h, s'.client, n);
    SameChain(s.client, s'.client);
    var b := Node(|s.log|, n);
    LinkedLast(x, s.client, s.log, chain);
    LinkedLater(x, s.client, s'.client, s.log, s'.log[|s.log|], chain);
    LinkedLast(x, s'.client, s'.log, chain);
    LinkedExtend(x, s'.client, s'.log, chain, b);
  }

  lemma UpdateDescended(x: Externals, s: State, now: Time, h: Header, s': State)
    requires RejectsIrrelevant(x)
    requires Descended(x, s) && UpdateOutcome(x, s, now, h, s')
    ensures Descended(x, s')
  {
    hide GenStateId, Accepted, LeadsTo, RejectsIrrelevant;
    UpdateOutcomeKeeps(x, s, now, h, s');
    forall k | k in s'.store ensures exists chain :: LeadsTo(x, s', chain, k) {
      if k == HeaderHeight(h) {
        var chain :| LeadsTo(x, s, chain, TrustedHeight(h));
        UpdateExtends(x, s, now, h, s', chain);
      } else {
        var chain :| LeadsTo(x, s, chain, k);
        LeadsToLater(x, s, s', chain, k);
      }
    }
  }

  lemma SameStoreDescended(x: Externals, s: State, s': State)
    requires Descended(x, s)
    requires Canonicalize(s.client) == Canonicalize(s'.client)
    requires |s'.log| == |s.log| + 1 && s'.log == s.log + [s'.log[|s.log|]]
    requires s'.store == s.store
    ensures Descended(x, s')
  {
    hide LeadsTo;
    forall k | k in s'.store ensures exists chain :: LeadsTo(x, s', chain, k) {
      var chain :| LeadsTo(x, s, chain, k);
      LeadsToLater(x, s, s', chain, k);
    }
  }

  lemma StepDescended(x: Externals, s: State, e: Event)
    requires RejectsIrrelevant(x)
    requires Descended(x, s) && Step(x, s, e).Ok?
    ensures Descended(x, Step(x, s, e).value)
  {
    hide Step, GenStateId, Descended, RejectsIrrelevant, UpdateOutcome;
    StepOutcome(x, s, e);
    StepKeeps(x, s, e);
    var s' := Step(x, s, e).value;
    if e.Submit? && DecodeClientMessage(x, e.message).value.HeaderMessage? {
      UpdateDescended(x, s, e.now, DecodeClientMessage(x, e.message).value.header, s');
    } else {
      SameStoreDescended(x, s, s');
    }
  }

  lemma {:induction false} RunDescended(x: Externals, s: State, es: seq<Event>)
    requires RejectsIrrelevant(x)
    requires Descended(x, s)
    ensures Descended(x, Run(x, s, es))
  {
    hide Step, Descended, RejectsIrrelevant;
    if es != [] {
      var before, e := Run(x, s, es[..|es| - 1]), es[|es| - 1];
      RunDescended(x, s, es[..|es| - 1]);
      if Step(x, before, e).Ok? {
        StepDescended(x, before, e);
      }
    }
  }

  /** Every consensus state of a reachable store has a chain of update messages back to the create
      message, adjacent ones matching on height and state id, even through overwritten heights. */
  lemma ReachableDescended(
    x: Externals, clientId: string, any: Any, client: ClientState, consensus: ConsensusState, es: seq<Event>)
    requires RejectsIrrelevant(x)
    requires Create(x, clientId, any, client, consensus).Ok?
    ensures Descended(x, Run(x, Create(x, clientId, any, client, consensus).value, es))
  {
    hide Run, GenStateId, ValidateClientState, ValidateConsensusState, RejectsIrrelevant;
    var s := Create(x, clientId, any, client, consensus).value;
    var chain := [Node(0, consensus)];
    assert Posted(x, client, s.log, chain[0]);
    assert Linked(x, client, s.log, chain);
    assert LeadsTo(x, s, chain, LatestHeight(client));
    RunDescended(x, s, es);
  }

  lemma OneMore(n: nat, reach: nat)
    ensures (n + 1) * reach == n * reach + reach
  {}

  /** A chain has at least as many edges as the periods it spans, its slots strictly increase, and
      each edge advances the timestamp by at most trusting period plus clock drift. */
  lemma {:induction false} ChainSpan(
    x: Externals, client: ClientState, log: seq<ProxyMessage>, chain: seq<Node>, i: nat, j: nat)
    requires Linked(x, client, log, chain)
    requires i < j < |chain|
    ensures HasPeriods(Chain(client))
    ensures chain[i].state.slot < chain[j].state.slot
    ensures forall p: nat, q: nat ::
              InPeriod(Chain(client), chain[i].state.slot, p) && InPeriod(Chain(client), chain[j].state.slot, q) ==>
                p <= q <= p + (j - i)
    ensures chain[j].state.timestamp <= chain[i].state.timestamp + (j - i) * Reach(client)
    decreases j
  {
    hide GenStateId, InPeriod, Reach;
    OneMore(j - 1 - i, Reach(client));
    assert Edge(client, log, chain[j - 1], chain[j]);
    if i < j - 1 {
      ChainSpan(x, client, log, chain, i, j - 1);
      OnePeriod(Chain(client), chain[j - 1].state.slot);
    }
  }
}
