/** Independent updates commute, and so does every reordering of a run that respects dependencies. */
module Reordering {
  import opened Types
  import opened Externals
  import opened Commitment
  import opened Updates
  import opened LightClient
  import opened Machine

  /** A header and the host time it is judged at. */
  datatype Update = Update(now: Time, header: Header)

  function Writes(u: Update): Height {
    HeaderHeight(u.header)
  }

  function Trusts(u: Update): Height {
    TrustedHeight(u.header)
  }

  /** Different heights are written, and neither trusts the height the other writes. */
  predicate Independent(a: Update, b: Update) {
    Writes(a) != Writes(b) && Trusts(a) != Writes(b) && Trusts(b) != Writes(a)
  }

  function Apply(x: Externals, s: State, u: Update): Result<State> {
    UpdateStep(x, s, u.now, u.header)
  }

  /** Applies the updates in order; every one of them has to succeed. */
  function ApplyAll(x: Externals, s: State, us: seq<Update>): Result<State>
    decreases |us|
  {
    if us == [] then Ok(s)
    else
      match Apply(x, s, us[0])
      case Err(error) => Err(error)
      case Ok(s1) => ApplyAll(x, s1, us[1..])
  }

  /** Equal but for the order of the emitted messages. */
  ghost predicate Similar(s: State, t: State) {
    s.clientId == t.clientId && s.client == t.client && s.store == t.store && multiset(s.log) == multiset(t.log)
  }

  // ---------------------------------------------------------------- what an update depends on

  /** What an update writes and emits is determined by the parameters and the trusted state. */
  datatype Effect = Effect(number: u64, state: ConsensusState, message: ProxyMessage)

  function EffectOf(x: Externals, client: ClientState, trusted: ConsensusState, u: Update): Result<Effect> {
    var states :- CheckHeader(x, client, u.now, trusted, u.header);
    var prevId :- GenStateId(x, client, trusted);
    var postId :- GenStateId(x, states.0, states.1);
    Ok(Effect(u.header.executionUpdate.blockNumber, states.1,
              UpdateMessage(client, Trusts(u), trusted, prevId, Writes(u), states.1, postId)))
  }

  lemma EffectCanonical(x: Externals, c: ClientState, d: ClientState, trusted: ConsensusState, u: Update)
    requires Canonicalize(c) == Canonicalize(d)
    ensures EffectOf(x, c, trusted, u) == EffectOf(x, d, trusted, u)
  {
    CheckCanonical(x, c, d, trusted, u);
    hide CheckHeader, GenStateId;
    if CheckHeader(x, c, u.now, trusted, u.header).Ok? {
      var (c1, n) := CheckHeader(x, c, u.now, trusted, u.header).value;
      var (d1, _) := CheckHeader(x, d, u.now, trusted, u.header).value;
      SameParametersCanonical(c, d);
      SameParametersCanonical(c1, d1);
      StableIds(x, c, d);
      StableIds(x, c1, d1);
    }
  }

  /** The verdict on a header does not depend on the latest block number or the frozen height. */
  lemma CheckCanonical(x: Externals, c: ClientState, d: ClientState, trusted: ConsensusState, u: Update)
    requires Canonicalize(c) == Canonicalize(d)
    ensures c.trustingPeriod == d.trustingPeriod && c.maxClockDrift == d.maxClockDrift
    ensures
      match CheckHeader(x, c, u.now, trusted, u.header)
      case Err(error) => CheckHeader(x, d, u.now, trusted, u.header) == Err(error)
      case Ok((c1, n)) =>
        var r := CheckHeader(x, d, u.now, trusted, u.header);
        r.Ok? && r.value.1 == n && Canonicalize(r.value.0) == Canonicalize(c1)
  {
    SameParametersCanonical(c, d);
    hide HeaderTimestamp, ValidateHeader, ComputeSyncCommittees, NewTrustedConsensusState;
    hide WithinTrustingPeriod, NotFromFuture;
  }

  // ---------------------------------------------------------------- two updates

  /** The state with an effect written. */
  function Written(s: State, u: Update, f: Effect): State {
    s.(client := s.client.(latestExecutionBlockNumber := Max(s.client.latestExecutionBlockNumber, f.number)),
       store := s.store[Writes(u) := f.state],
       log := s.log + [f.message])
  }

  lemma ApplySucceeds(x: Externals, s: State, u: Update)
    ensures Apply(x, s, u).Ok? <==>
            Trusts(u) in s.store && s.client.frozenHeight.None? && EffectOf(x, s.client, s.store[Trusts(u)], u).Ok?
  {
    hide CheckHeader, GenStateId, UpdateMessage;
  }

  lemma ApplyEffect(x: Externals, s: State, u: Update)
    requires Apply(x, s, u).Ok?
    ensures Trusts(u) in s.store && s.client.frozenHeight.None?
    ensures EffectOf(x, s.client, s.store[Trusts(u)], u).Ok?
    ensures Apply(x, s, u).value == Written(s, u, EffectOf(x, s.client, s.store[Trusts(u)], u).value)
  {
    hide CheckHeader, GenStateId, UpdateMessage, Accepted;
    var trusted := s.store[Trusts(u)];
    CheckHeaderOutcome(x, s.client, u.now, trusted, u.header);
    var (c', n) := CheckHeader(x, s.client, u.now, trusted, u.header).value;
    AcceptedNumber(x, s.client, u.now, trusted, u.header, c', n);
  }

  lemma AcceptedNumber(
    x: Externals, client: ClientState, now: Time, trusted: ConsensusState, h: Header,
    c': ClientState, n: ConsensusState)
    requires Accepted(x, client, now, trusted, h, c', n)
    ensures c' == client.(
              latestExecutionBlockNumber := Max(client.latestExecutionBlockNumber, h.executionUpdate.blockNumber))
  {
    hide HeaderTimestamp, ComputeSyncCommittees, NewTrustedConsensusState, WithinTrustingPeriod, NotFromFuture;
  }

  lemma WrittenElsewhere(s: State, a: Update, f: Effect, h: Height)
    requires h != Writes(a)
    ensures var sa := Written(s, a, f);
            && Canonicalize(sa.client) == Canonicalize(s.client)
            && sa.client.frozenHeight == s.client.frozenHeight
            && (h in sa.store <==> h in s.store)
            && (h in s.store ==> sa.store[h] == s.store[h])
  {}

  lemma EffectElsewhere(x: Externals, s: State, a: Update, f: Effect, b: Update)
    requires Trusts(b) != Writes(a) && Trusts(b) in s.store
    ensures var sa := Written(s, a, f);
            Trusts(b) in sa.store
            && EffectOf(x, sa.client, sa.store[Trusts(b)], b) == EffectOf(x, s.client, s.store[Trusts(b)], b)
  {
    hide EffectOf, Written, Canonicalize;
    WrittenElsewhere(s, a, f, Trusts(b));
    EffectCanonical(x, s.client, Written(s, a, f).client, s.store[Trusts(b)], b);
  }

  /** An update that does not write what `b` trusts leaves `b`'s verdict as it was. */
  lemma VerdictAfter(x: Externals, s: State, a: Update, f: Effect, b: Update)
    requires Trusts(b) != Writes(a)
    ensures Apply(x, Written(s, a, f), b).Ok? <==> Apply(x, s, b).Ok?
  {
    hide Apply, EffectOf, Written, Canonicalize;
    ApplySucceeds(x, s, b);
    ApplySucceeds(x, Written(s, a, f), b);
    WrittenElsewhere(s, a, f, Trusts(b));
    if Trusts(b) in s.store {
      EffectElsewhere(x, s, a, f, b);
    }
  }

  /** Nor does it change what `b` writes and emits. */
  lemma EffectAfter(x: Externals, s: State, a: Update, f: Effect, b: Update)
    requires Trusts(b) != Writes(a) && Apply(x, s, b).Ok?
    ensures Trusts(b) in s.store && EffectOf(x, s.client, s.store[Trusts(b)], b).Ok?
    ensures Apply(x, Written(s, a, f), b)
         == Ok(Written(Written(s, a, f), b, EffectOf(x, s.client, s.store[Trusts(b)], b).value))
  {
    hide Apply, EffectOf, Written, Canonicalize;
    VerdictAfter(x, s, a, f, b);
    ApplyEffect(x, s, b);
    ApplyEffect(x, Written(s, a, f), b);
    EffectElsewhere(x, s, a, f, b);
  }

  lemma SameMessages(log: seq<ProxyMessage>, p: ProxyMessage, q: ProxyMessage)
    ensures multiset(log + [p] + [q]) == multiset(log + [q] + [p])
  {
    assert multiset(log + [p] + [q]) == multiset(log) + multiset{p, q};
    assert multiset(log + [q] + [p]) == multiset(log) + multiset{p, q};
  }

  lemma WrittenClientAndLog(s: State, a: Update, f: Effect, b: Update, g: Effect)
    ensures var ab, ba := Written(Written(s, a, f), b, g), Written(Written(s, b, g), a, f);
            ab.clientId == ba.clientId && ab.client == ba.client && multiset(ab.log) == multiset(ba.log)
  {
    SameMessages(s.log, f.message, g.message);
  }

  lemma WrittenStores(store: map<Height, ConsensusState>, g: Height, c: ConsensusState, h: Height, d: ConsensusState)
    ensures store[g := c][h := d] == store[h := d][g := c] <==> g != h || c == d
  {
    assert store[g := c][h := d][h] == d && store[h := d][g := c][g] == c;
    if g != h || c == d {
      assert store[g := c][h := d] == store[h := d][g := c];
    }
  }

  /** Both updates, judged on the given trusted states, produce the same consensus state: same slot
      and storage root, same timestamp, same keys. */
  predicate SameContent(
    x: Externals, client: ClientState, ta: ConsensusState, a: Update, tb: ConsensusState, b: Update)
  {
    var ca, cb := BuildContext(client, a.now), BuildContext(client, b.now);
    && a.header.consensusUpdate.finalizedSlot == b.header.consensusUpdate.finalizedSlot
    && a.header.accountUpdate.accountStorageRoot == b.header.accountUpdate.accountStorageRoot
    && HeaderTimestamp(x, ca, a.header) == HeaderTimestamp(x, cb, b.header)
    && ComputeSyncCommittees(ca, ta, a.header.consensusUpdate)
       == ComputeSyncCommittees(cb, tb, b.header.consensusUpdate)
  }

  lemma EffectState(x: Externals, client: ClientState, trusted: ConsensusState, u: Update)
    requires EffectOf(x, client, trusted, u).Ok?
    ensures var n := EffectOf(x, client, trusted, u).value.state;
            var cc := BuildContext(client, u.now);
            && n.slot == u.header.consensusUpdate.finalizedSlot
            && n.storageRoot == u.header.accountUpdate.accountStorageRoot
            && HeaderTimestamp(x, cc, u.header) == Ok(n.timestamp)
            && ComputeSyncCommittees(cc, trusted, u.header.consensusUpdate)
               == Ok((n.currentSyncCommittee, n.nextSyncCommittee))
  {
    hide CheckHeader, GenStateId, HeaderTimestamp, ComputeSyncCommittees;
    CheckHeaderOutcome(x, client, u.now, trusted, u.header);
  }

  lemma SameEffect(
    x: Externals, client: ClientState, ta: ConsensusState, a: Update, tb: ConsensusState, b: Update)
    requires EffectOf(x, client, ta, a).Ok? && EffectOf(x, client, tb, b).Ok?
    ensures EffectOf(x, client, ta, a).value.state == EffectOf(x, client, tb, b).value.state
       <==> SameContent(x, client, ta, a, tb, b)
  {
    hide EffectOf, HeaderTimestamp, ComputeSyncCommittees;
    EffectState(x, client, ta, a);
    EffectState(x, client, tb, b);
  }

  /** Updates of which neither trusts the height the other writes succeed in both orders, with the
      same client state and messages. The stores agree exactly when the updates write different
      heights, or agree in slot, storage root, timestamp and keys; all known before either is applied. */
  lemma CommuteExactly(x: Externals, s: State, a: Update, b: Update)
    requires Trusts(a) != Writes(b) && Trusts(b) != Writes(a)
    requires ApplyAll(x, s, [a, b]).Ok?
    ensures ApplyAll(x, s, [b, a]).Ok?
    ensures Trusts(a) in s.store && Trusts(b) in s.store
    ensures var ab, ba := ApplyAll(x, s, [a, b]).value, ApplyAll(x, s, [b, a]).value;
            && ab.clientId == ba.clientId && ab.client == ba.client && multiset(ab.log) == multiset(ba.log)
            && (ab.store == ba.store <==>
                  || Writes(a) != Writes(b)
                  || SameContent(x, s.client, s.store[Trusts(a)], a, s.store[Trusts(b)], b))
  {
    hide Apply, EffectOf, SameContent;
    ApplyPair(x, s, a, b);
    ApplyPair(x, s, b, a);
    ApplyEffect(x, s, a);
    var f := EffectOf(x, s.client, s.store[Trusts(a)], a).value;
    VerdictAfter(x, s, a, f, b);
    EffectAfter(x, s, a, f, b);
    ApplyEffect(x, s, b);
    var g := EffectOf(x, s.client, s.store[Trusts(b)], b).value;
    EffectAfter(x, s, b, g, a);
    WrittenClientAndLog(s, a, f, b, g);
    WrittenStores(s.store, Writes(a), f.state, Writes(b), g.state);
    SameEffect(x, s.client, s.store[Trusts(a)], a, s.store[Trusts(b)], b);
  }

  /** Two independent updates succeed in one order exactly as in the other, with the same client
      state, the same store and the same messages. */
  lemma Commute(x: Externals, s: State, a: Update, b: Update)
    requires Independent(a, b)
    requires ApplyAll(x, s, [a, b]).Ok?
    ensures ApplyAll(x, s, [b, a]).Ok?
    ensures Similar(ApplyAll(x, s, [a, b]).value, ApplyAll(x, s, [b, a]).value)
  {
    hide ApplyAll, SameContent;
    CommuteExactly(x, s, a, b);
  }

  /** Submitting an accepted update again changes nothing but appends the same message once more,
      unless it overwrote the very state it trusts; then the verifier finds nothing newer in it. */
  lemma Resubmission(x: Externals, s: State, u: Update)
    requires RejectsIrrelevant(x)
    requires Apply(x, s, u).Ok?
    ensures var s1 := Apply(x, s, u).value;
            if Trusts(u) == Writes(u) then Apply(x, s1, u).Err?
            else |s1.log| > 0 && Apply(x, s1, u) == Ok(s1.(log := s1.log + [s1.log[|s1.log| - 1]]))
  {
    hide Apply, EffectOf, RejectsIrrelevant;
    ApplyEffect(x, s, u);
    var f := EffectOf(x, s.client, s.store[Trusts(u)], u).value;
    if Trusts(u) == Writes(u) {
      var s1 := Apply(x, s, u).value;
      if Apply(x, s1, u).Ok? {
        ApplyNewer(x, s, u);
        ApplyNewer(x, s1, u);
      }
    } else {
      EffectAfter(x, s, u, f, u);
      WrittenTwice(s, u, f);
    }
  }

  lemma WrittenTwice(s: State, u: Update, f: Effect)
    ensures var s1 := Written(s, u, f);
            |s1.log| > 0 && Written(s1, u, f) == s1.(log := s1.log + [s1.log[|s1.log| - 1]])
  {
    var s1 := Written(s, u, f);
    assert s1.store[Writes(u) := f.state] == s1.store;
    assert s1.log[|s1.log| - 1] == f.message;
  }

  lemma ApplyNewer(x: Externals, s: State, u: Update)
    requires RejectsIrrelevant(x)
    requires Apply(x, s, u).Ok?
    ensures Trusts(u) in s.store && s.store[Trusts(u)].slot < u.header.consensusUpdate.finalizedSlot
    ensures Writes(u) in Apply(x, s, u).value.store
    ensures Apply(x, s, u).value.store[Writes(u)].slot == u.header.consensusUpdate.finalizedSlot
  {
    UpdateStepOutcome(x, s, u.now, u.header);
    var t := TrustedConsensusState(
      s.store[Trusts(u)], u.header.trustedSyncCommittee.syncCommittee, u.header.trustedSyncCommittee.isNext);
    hide UpdateStep, GenStateId, HeaderTimestamp, ComputeSyncCommittees;
    assert x.validateUpdates(BuildContext(s.client, u.now), t, u.header.consensusUpdate, u.header.executionUpdate);
  }

  lemma ApplyPair(x: Externals, s: State, a: Update, b: Update)
    ensures ApplyAll(x, s, [a, b]) == if Apply(x, s, a).Ok? then Apply(x, Apply(x, s, a).value, b) else Apply(x, s, a)
  {
    hide Apply;
    assert [a, b][1..] == [b];
    assert [b][1..] == [];
    if Apply(x, s, a).Ok? {
      var s1 := Apply(x, s, a).value;
      assert ApplyAll(x, s1, [b]) == Apply(x, s1, b) by {
        if Apply(x, s1, b).Ok? {
          assert ApplyAll(x, Apply(x, s1, b).value, []) == Apply(x, s1, b);
        }
      }
    }
  }

  // ---------------------------------------------------------------- runs of updates

  lemma ApplySimilar(x: Externals, s: State, t: State, u: Update)
    requires Similar(s, t)
    requires Apply(x, s, u).Ok?
    ensures Apply(x, t, u).Ok? && Similar(Apply(x, s, u).value, Apply(x, t, u).value)
  {
    hide Apply, EffectOf;
    ApplySucceeds(x, s, u);
    ApplySucceeds(x, t, u);
    ApplyEffect(x, s, u);
    ApplyEffect(x, t, u);
  }

  lemma {:induction false} ApplyAllSimilar(x: Externals, s: State, t: State, us: seq<Update>)
    requires Similar(s, t)
    requires ApplyAll(x, s, us).Ok?
    ensures ApplyAll(x, t, us).Ok? && Similar(ApplyAll(x, s, us).value, ApplyAll(x, t, us).value)
    decreases |us|
  {
    hide Apply, Similar;
    if us != [] {
      ApplySimilar(x, s, t, us[0]);
      ApplyAllSimilar(x, Apply(x, s, us[0]).value, Apply(x, t, us[0]).value, us[1..]);
    }
  }

  lemma {:induction false} ApplyAppend(x: Externals, s: State, us: seq<Update>, vs: seq<Update>)
    ensures ApplyAll(x, s, us + vs)
         == match ApplyAll(x, s, us) case Err(error) => Err(error) case Ok(s1) => ApplyAll(x, s1, vs)
    decreases |us|
  {
    hide Apply;
    if us == [] {
      assert us + vs == vs;
    } else {
      assert (us + vs)[0] == us[0] && (us + vs)[1..] == us[1..] + vs;
      if Apply(x, s, us[0]).Ok? {
        ApplyAppend(x, Apply(x, s, us[0]).value, us[1..], vs);
      }
    }
  }

  /** An update independent of everything before it can be applied first. */
  lemma {:induction false} MoveToFront(x: Externals, s: State, us: seq<Update>, u: Update)
    requires forall i :: 0 <= i < |us| ==> Independent(us[i], u)
    requires ApplyAll(x, s, us + [u]).Ok?
    ensures ApplyAll(x, s, [u] + us).Ok?
    ensures Similar(ApplyAll(x, s, us + [u]).value, ApplyAll(x, s, [u] + us).value)
    decreases |us|
  {
    hide Apply, Independent;
    if us == [] {
      assert us + [u] == [u] + us;
    } else {
      var first, rest := us[0], us[1..];
      var s1 := Apply(x, s, first);
      assert us + [u] == [first] + (rest + [u]) && ([first] + (rest + [u]))[1..] == rest + [u];
      MoveToFront(x, s1.value, rest, u);
      // first, u, rest
      var r1 := ApplyAll(x, s1.value, [u] + rest);
      ApplyAppend(x, s1.value, [u], rest);
      assert ApplyAll(x, s, [first, u] + rest) == r1 by {
        assert ([first, u] + rest)[0] == first && ([first, u] + rest)[1..] == [u] + rest;
      }
      ApplyAppend(x, s, [first, u], rest);
      Commute(x, s, first, u);
      ApplyAllSimilar(x, ApplyAll(x, s, [first, u]).value, ApplyAll(x, s, [u, first]).value, rest);
      ApplyAppend(x, s, [u, first], rest);
      assert [u, first] + rest == [u] + us;
    }
  }

  // ---------------------------------------------------------------- permutations

  /** `order` lists every position below `n` exactly once. */
  ghost predicate IsOrder(order: seq<nat>, n: nat) {
    && |order| == n
    && (forall i :: 0 <= i < n ==> order[i] < n)
    && (forall i, j :: 0 <= i < j < n ==> order[i] != order[j])
  }

  function Permuted(us: seq<Update>, order: seq<nat>): seq<Update>
    requires forall i :: 0 <= i < |order| ==> order[i] < |us|
  {
    seq(|order|, i requires 0 <= i < |order| => us[order[i]])
  }

  /** Two updates that change places are independent. */
  ghost predicate RespectsDependencies(us: seq<Update>, order: seq<nat>)
    requires forall i :: 0 <= i < |order| ==> order[i] < |us|
  {
    forall i, j :: 0 <= i < j < |order| && order[j] < order[i] ==> Independent(us[order[j]], us[order[i]])
  }

  // Taking the first update of a reordering out of the original run.

  function Without(us: seq<Update>, k: nat): seq<Update>
    requires k < |us|
  {
    us[..k] + us[k + 1..]
  }

  /** The positions of the remaining updates once position `k` is taken out. */
  function Shifted(order: seq<nat>, k: nat): seq<nat>
    requires forall i :: 0 <= i < |order| ==> order[i] != k
  {
    seq(|order|, i requires 0 <= i < |order| => if order[i] < k then order[i] else order[i] - 1)
  }

  lemma TailIsOrder(order: seq<nat>, n: nat)
    requires n > 0 && IsOrder(order, n)
    ensures forall i :: 0 <= i < |order[1..]| ==> order[1..][i] != order[0]
    ensures IsOrder(Shifted(order[1..], order[0]), n - 1)
  {
    var k, rest := order[0], order[1..];
    assert forall i :: 0 <= i < |rest| ==> rest[i] == order[i + 1];
  }

  /** What is left after the first update is picked names the same updates in the run without it. */
  lemma TailNames(us: seq<Update>, order: seq<nat>, i: nat)
    requires |us| > 0 && IsOrder(order, |us|) && i < |order| - 1
    ensures order[i + 1] != order[0] && order[i + 1] < |us|
    ensures var p := if order[i + 1] < order[0] then order[i + 1] else order[i + 1] - 1;
            p < |Without(us, order[0])| && Without(us, order[0])[p] == us[order[i + 1]]
  {}

  lemma TailRespects(us: seq<Update>, order: seq<nat>, vs: seq<Update>, tail: seq<nat>)
    requires |order| == |tail| + 1
    requires forall i :: 0 <= i < |order| ==> order[i] < |us|
    requires forall i :: 0 <= i < |tail| ==>
               && order[i + 1] != order[0]
               && tail[i] == (if order[i + 1] < order[0] then order[i + 1] else order[i + 1] - 1)
               && tail[i] < |vs| && vs[tail[i]] == us[order[i + 1]]
    requires RespectsDependencies(us, order)
    ensures RespectsDependencies(vs, tail)
    ensures Permuted(us, order) == [us[order[0]]] + Permuted(vs, tail)
  {
    hide Independent;
    forall i, j | 0 <= i < j < |tail| && tail[j] < tail[i] ensures Independent(vs[tail[j]], vs[tail[i]]) {
      assert order[j + 1] < order[i + 1];
    }
  }

  lemma TailOrder(us: seq<Update>, order: seq<nat>)
    requires |us| > 0 && IsOrder(order, |us|)
    requires RespectsDependencies(us, order)
    ensures forall i :: 0 <= i < |order[1..]| ==> order[1..][i] != order[0]
    ensures IsOrder(Shifted(order[1..], order[0]), |us| - 1)
    ensures var vs, tail := Without(us, order[0]), Shifted(order[1..], order[0]);
            && RespectsDependencies(vs, tail)
            && Permuted(us, order) == [us[order[0]]] + Permuted(vs, tail)
  {
    TailIsOrder(order, |us|);
    var vs, tail := Without(us, order[0]), Shifted(order[1..], order[0]);
    forall i | 0 <= i < |tail|
      ensures order[i + 1] != order[0] && tail[i] < |vs| && vs[tail[i]] == us[order[i + 1]]
      ensures tail[i] == (if order[i + 1] < order[0] then order[i + 1] else order[i + 1] - 1)
    {
      TailNames(us, order, i);
    }
    hide Without, Shifted, Permuted, RespectsDependencies;
    TailRespects(us, order, vs, tail);
  }

  /** Pigeonhole: every position occurs in an order. */
  lemma OrderCovers(order: seq<nat>, n: nat, k: nat)
    requires IsOrder(order, n) && k < n
    ensures k in order
  {
    if k !in order {
      var taken := Elements(order);
      OrderSize(order);
      assert taken <= Below(n) - {k};
      SubsetSize(taken, Below(n) - {k});
      assert false;
    }
  }

  function Below(n: nat): (s: set<nat>)
    ensures |s| == n
    ensures forall p: nat :: p in s <==> p < n
  {
    if n == 0 then {} else Below(n - 1) + {n - 1}
  }

  function Elements(order: seq<nat>): set<nat> {
    set p | p in order
  }

  lemma {:induction false} OrderSize(order: seq<nat>)
    requires forall i, j :: 0 <= i < j < |order| ==> order[i] != order[j]
    ensures |Elements(order)| == |order|
  {
    if order != [] {
      var last := |order| - 1;
      OrderSize(order[..last]);
      assert order[last] !in order[..last];
      assert order == order[..last] + [order[last]];
      assert Elements(order) == Elements(order[..last]) + {order[last]};
    } else {
      assert Elements(order) == {};
    }
  }

  lemma {:induction false} SubsetSize(a: set<nat>, b: set<nat>)
    requires a <= b
    ensures |a| <= |b|
  {
    if a != {} {
      var p :| p in a;
      SubsetSize(a - {p}, b - {p});
      assert p in b;
      assert |a - {p}| == |a| - 1;
      assert |b - {p}| == |b| - 1;
    }
  }

  lemma FirstMoves(us: seq<Update>, order: seq<nat>)
    requires |us| > 0 && IsOrder(order, |us|)
    requires RespectsDependencies(us, order)
    ensures forall i :: 0 <= i < order[0] ==> Independent(us[i], us[order[0]])
  {
    forall i | 0 <= i < order[0] ensures Independent(us[i], us[order[0]]) {
      OrderCovers(order, |us|, i);
      var j :| 0 <= j < |order| && order[j] == i;
      assert 0 < j;
    }
  }

  lemma NothingPermuted(order: seq<nat>)
    requires IsOrder(order, 0)
    ensures Permuted([], order) == []
  {}

  lemma FirstInRange(us: seq<Update>, order: seq<nat>)
    requires us != [] && IsOrder(order, |us|)
    ensures |order| > 0 && order[0] < |us|
  {}

  lemma WithoutLength(us: seq<Update>, k: nat)
    requires k < |us|
    ensures |Without(us, k)| == |us| - 1
  {}

  lemma SimilarTrans(s: State, t: State, r: State)
    ensures Similar(s, s)
    ensures Similar(s, t) && Similar(t, r) ==> Similar(s, r)
  {}

  lemma HeadApplied(x: Externals, s: State, u: Update, us: seq<Update>)
    requires Apply(x, s, u).Ok?
    ensures ApplyAll(x, s, [u] + us) == ApplyAll(x, Apply(x, s, u).value, us)
  {
    hide Apply;
    assert ([u] + us)[0] == u && ([u] + us)[1..] == us;
  }

  /** An update independent of those before it can be applied first, and the others then follow. */
  lemma FirstApplied(x: Externals, s: State, us: seq<Update>, k: nat)
    requires k < |us| && forall i :: 0 <= i < k ==> Independent(us[i], us[k])
    requires ApplyAll(x, s, us).Ok?
    ensures Apply(x, s, us[k]).Ok? && ApplyAll(x, Apply(x, s, us[k]).value, Without(us, k)).Ok?
    ensures Similar(ApplyAll(x, s, us).value, ApplyAll(x, Apply(x, s, us[k]).value, Without(us, k)).value)
  {
    hide Apply, Independent, Similar;
    var before, u, after := us[..k], us[k], us[k + 1..];
    assert us == (before + [u]) + after;
    ApplyAppend(x, s, before + [u], after);
    MoveToFront(x, s, before, u);
    ApplyAllSimilar(x, ApplyAll(x, s, before + [u]).value, ApplyAll(x, s, [u] + before).value, after);
    ApplyAppend(x, s, [u] + before, after);
    assert ([u] + before) + after == [u] + Without(us, k);
    assert Apply(x, s, u).Ok? by {
      assert ([u] + before)[0] == u;
    }
    HeadApplied(x, s, u, Without(us, k));
  }

  /** Any reordering of a successful run of updates in which only independent updates change places
      succeeds too, with the same client state, store and messages. */
  lemma {:induction false} Reordered(x: Externals, s: State, us: seq<Update>, order: seq<nat>)
    requires IsOrder(order, |us|) && RespectsDependencies(us, order)
    requires ApplyAll(x, s, us).Ok?
    ensures ApplyAll(x, s, Permuted(us, order)).Ok?
    ensures Similar(ApplyAll(x, s, us).value, ApplyAll(x, s, Permuted(us, order)).value)
    decreases |us|
  {
    hide Apply, Independent, Similar, RespectsDependencies, Permuted, Without, Shifted;
    if us == [] {
      assert Permuted(us, order) == [] by { NothingPermuted(order); }
      SimilarTrans(ApplyAll(x, s, us).value, ApplyAll(x, s, us).value, ApplyAll(x, s, us).value);
    } else {
      assert |order| > 0 && order[0] < |us| by { FirstInRange(us, order); }
      var k := order[0];
      FirstMoves(us, order);
      TailOrder(us, order);
      FirstApplied(x, s, us, k);
      var s1, vs, tail := Apply(x, s, us[k]).value, Without(us, k), Shifted(order[1..], k);
      assert |vs| == |us| - 1 by { WithoutLength(us, k); }
      Reordered(x, s1, vs, tail);
      HeadApplied(x, s, us[k], Permuted(vs, tail));
      SimilarTrans(
        ApplyAll(x, s, us).value, ApplyAll(x, s1, vs).value, ApplyAll(x, s1, Permuted(vs, tail)).value);
    }
  }

  // ---------------------------------------------------------------- updates as submitted events

  /** The events that submit the given updates, encoded in whatever way decodes to their headers. */
  ghost predicate Submits(x: Externals, es: seq<Event>, us: seq<Update>) {
    && |es| == |us|
    && forall i :: 0 <= i < |es| ==>
         && es[i].Submit? && es[i].now == us[i].now
         && DecodeClientMessage(x, es[i].message) == Ok(HeaderMessage(us[i].header))
  }

  /** A run of submitted headers that all succeed is the machine's run on those events. */
  lemma {:induction false} ApplyAllIsRun(x: Externals, s: State, es: seq<Event>, us: seq<Update>)
    requires Submits(x, es, us)
    requires ApplyAll(x, s, us).Ok?
    ensures Run(x, s, es) == ApplyAll(x, s, us).value
    decreases |us|
  {
    hide UpdateStep;
    if us != [] {
      var n := |us| - 1;
      var before := ApplyAll(x, s, us[..n]);
      assert us == us[..n] + [us[n]];
      ApplyAppend(x, s, us[..n], [us[n]]);
      assert Submits(x, es[..n], us[..n]);
      ApplyAllIsRun(x, s, es[..n], us[..n]);
      ApplyOne(x, before.value, us[n]);
      assert Step(x, before.value, es[n]) == Apply(x, before.value, us[n]);
    }
  }

  lemma ApplyOne(x: Externals, s: State, u: Update)
    ensures ApplyAll(x, s, [u]) == Apply(x, s, u)
  {
    hide Apply;
    assert [u][1..] == [];
    if Apply(x, s, u).Ok? {
      assert ApplyAll(x, Apply(x, s, u).value, []) == Apply(x, s, u);
    }
  }

  /** Submitting the updates in any dependency-respecting order gives the machine the same client
      state and store, and the same messages in another order. */
  lemma RunReordered(x: Externals, s: State, es: seq<Event>, us: seq<Update>, fs: seq<Event>, order: seq<nat>)
    requires IsOrder(order, |us|) && RespectsDependencies(us, order)
    requires ApplyAll(x, s, us).Ok?
    requires Submits(x, es, us) && Submits(x, fs, Permuted(us, order))
    ensures Similar(Run(x, s, es), Run(x, s, fs))
  {
    hide Apply, Submits, Similar;
    Reordered(x, s, us, order);
    ApplyAllIsRun(x, s, es, us);
    ApplyAllIsRun(x, s, fs, Permuted(us, order));
  }
}
