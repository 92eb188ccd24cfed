/** The schema of an encoded client state and its nested messages: which field holds what, read and
    written. */
module ClientSchema {
  import opened Types
  import opened Externals
  import opened Wire
  import opened WellKnown
  import opened Fields
  import opened WireLaws
  import opened ClientCodec

  // ---------------------------------------------------------------- a fork's generalized indices

  predicate SpecFieldOk(f: Field) {
    1 <= f.tag <= 7 ==> f.value.Varint?
  }

  function SpecOf(fs: seq<Field>): ForkSpec {
    ForkSpec(ToU32(UintAt(fs, 1)), ToU32(UintAt(fs, 2)), ToU32(UintAt(fs, 3)), ToU32(UintAt(fs, 4)),
             ToU32(UintAt(fs, 5)), ToU32(UintAt(fs, 6)), ToU32(UintAt(fs, 7)))
  }

  lemma SpecMerged(fs: seq<Field>, f: Field)
    ensures MergeForkSpec(SpecOf(fs), f) == if SpecFieldOk(f) then Some(SpecOf(fs + [f])) else None
  {
    hide UintAt, ToU32;
    ReadNext(fs, f, 1, 0);
    ReadNext(fs, f, 2, 0);
    ReadNext(fs, f, 3, 0);
    ReadNext(fs, f, 4, 0);
    ReadNext(fs, f, 5, 0);
    ReadNext(fs, f, 6, 0);
    ReadNext(fs, f, 7, 0);
  }

  lemma SpecReads()
    ensures Reads(MergeForkSpec, EMPTY_SPEC, SpecFieldOk, SpecOf)
  {
    assert SpecOf([]) == EMPTY_SPEC;
    hide SpecOf, SpecFieldOk, MergeForkSpec;
    forall fs, f ensures MergeForkSpec(SpecOf(fs), f) == if SpecFieldOk(f) then Some(SpecOf(fs + [f])) else None {
      SpecMerged(fs, f);
    }
  }

  // ---------------------------------------------------------------- a fork

  const FORK_LIMIT: nat := RECURSION_LIMIT - 3

  predicate ForkFieldOk(f: Field) {
    && (f.tag == 1 ==> f.value.Payload?)
    && (f.tag == 2 ==> f.value.Varint?)
    && (f.tag == 3 ==> f.value.Payload? && AllIn(SpecFieldOk, f.value.payload, FORK_LIMIT))
  }

  function ForkOf(fs: seq<Field>): RawFork {
    RawFork(BytesAt(fs, 1), UintAt(fs, 2), Sub(SpecOf, fs, 3, FORK_LIMIT))
  }

  lemma ForkMerged(fs: seq<Field>, f: Field)
    requires All(ForkFieldOk, fs)
    ensures MergeFork(ForkOf(fs), f) == if ForkFieldOk(f) then Some(ForkOf(fs + [f])) else None
  {
    hide SpecOf, AllIn, MergeBytes, AllUnder, UintAt, BytesAt, Payloads, Inner, Parsed, Reads;
    ReadNext(fs, f, 1, FORK_LIMIT);
    ReadNext(fs, f, 2, FORK_LIMIT);
    ReadNext(fs, f, 3, FORK_LIMIT);
    if f.tag == 3 && f.value.Payload? {
      assert AllUnder(SpecFieldOk, fs, 3, FORK_LIMIT) by { SpecsOk(fs); }
      SpecReads();
      SubNext(MergeForkSpec, EMPTY_SPEC, SpecFieldOk, SpecOf, fs, f, FORK_LIMIT);
    }
  }

  lemma SpecsOk(fs: seq<Field>)
    requires All(ForkFieldOk, fs)
    ensures AllUnder(SpecFieldOk, fs, 3, FORK_LIMIT)
  {
    hide AllIn;
    forall i | 0 <= i < |fs| && fs[i].tag == 3
      ensures fs[i].value.Payload? && AllIn(SpecFieldOk, fs[i].value.payload, FORK_LIMIT)
    {
      assert ForkFieldOk(fs[i]);
    }
  }

  lemma ForkReads()
    ensures Reads(MergeFork, EMPTY_FORK, ForkFieldOk, ForkOf)
  {
    assert ForkOf([]) == EMPTY_FORK;
    hide ForkOf, ForkFieldOk, MergeFork, All;
    forall fs, f | All(ForkFieldOk, fs)
      ensures MergeFork(ForkOf(fs), f) == if ForkFieldOk(f) then Some(ForkOf(fs + [f])) else None
    {
      ForkMerged(fs, f);
    }
  }

  // ---------------------------------------------------------------- fork parameters

  const FORKS_LIMIT: nat := RECURSION_LIMIT - 2

  predicate ForksFieldOk(f: Field) {
    && (f.tag == 1 ==> f.value.Payload?)
    && (f.tag == 2 ==> f.value.Payload? && AllIn(ForkFieldOk, f.value.payload, FORKS_LIMIT))
  }

  /** One fork per payload, in order. */
  function ForkList(ps: seq<bytes>): seq<RawFork> {
    seq(|ps|, i requires 0 <= i < |ps| => ForkOf(Parsed(ps[i], FORKS_LIMIT)))
  }

  function ForkParametersOf(fs: seq<Field>): RawForkParameters {
    RawForkParameters(BytesAt(fs, 1), ForkList(Payloads(fs, 2)))
  }

  lemma ForksMergedNext(fs: seq<Field>, f: Field)
    ensures MergeForkParameters(ForkParametersOf(fs), f)
         == if ForksFieldOk(f) then Some(ForkParametersOf(fs + [f])) else None
  {
    hide ForkOf, UintAt, BytesAt, Payloads, Inner, ForkFieldOk, All;
    ReadNext(fs, f, 1, 0);
    ReadNext(fs, f, 2, 0);
    if f.tag == 2 && f.value.Payload? {
      var p, ps := f.value.payload, Payloads(fs, 2);
      ForkReads();
      FoldReads(MergeFork, EMPTY_FORK, ForkFieldOk, ForkOf, Parsed(p, FORKS_LIMIT));
      assert ForkList(ps + [p]) == ForkList(ps) + [ForkOf(Parsed(p, FORKS_LIMIT))];
    }
  }

  lemma ForkParametersReads()
    ensures Reads(MergeForkParameters, EMPTY_FORKS, ForksFieldOk, ForkParametersOf)
  {
    assert ForkParametersOf([]) == EMPTY_FORKS;
    hide ForkParametersOf, ForksFieldOk, MergeForkParameters;
    forall fs, f
      ensures MergeForkParameters(ForkParametersOf(fs), f)
           == if ForksFieldOk(f) then Some(ForkParametersOf(fs + [f])) else None
    {
      ForksMergedNext(fs, f);
    }
  }

  // ---------------------------------------------------------------- the client state

  const LIMIT: nat := RECURSION_LIMIT - 1

  /** The wire type each tag has to come with. */
  predicate FieldOk(f: Field) {
    && (f.tag in {2, 3, 5, 6, 7, 13} ==> f.value.Varint?)
    && (f.tag in {1, 8, 9} ==> f.value.Payload?)
    && (f.tag == 4 ==> f.value.Payload? && AllIn(ForksFieldOk, f.value.payload, LIMIT))
    && (f.tag in {10, 11, 12, 14} ==> f.value.Payload? && AllIn(PairFieldOk, f.value.payload, LIMIT))
  }

  /** What the fields say, tag by tag. */
  function Read(fs: seq<Field>): RawClientState {
    RawClientState(
      BytesAt(fs, 1), UintAt(fs, 2), UintAt(fs, 3), Sub(ForkParametersOf, fs, 4, LIMIT),
      UintAt(fs, 5), UintAt(fs, 6), UintAt(fs, 7), BytesAt(fs, 8), BytesAt(fs, 9),
      Sub(UintPairOf, fs, 10, LIMIT), Sub(SecondsNanosOf, fs, 11, LIMIT), Sub(SecondsNanosOf, fs, 12, LIMIT),
      UintAt(fs, 13), Sub(UintPairOf, fs, 14, LIMIT))
  }

  /** The readings that a field with one tag cannot change. */
  lemma Others(fs: seq<Field>, f: Field)
    ensures forall tag: nat :: tag != f.tag ==>
              && UintAt(fs + [f], tag) == UintAt(fs, tag) && BytesAt(fs + [f], tag) == BytesAt(fs, tag)
              && Payloads(fs + [f], tag) == Payloads(fs, tag) && Inner(fs + [f], tag, LIMIT) == Inner(fs, tag, LIMIT)
  {
    forall tag: nat | tag != f.tag
      ensures && UintAt(fs + [f], tag) == UintAt(fs, tag) && BytesAt(fs + [f], tag) == BytesAt(fs, tag)
              && Payloads(fs + [f], tag) == Payloads(fs, tag) && Inner(fs + [f], tag, LIMIT) == Inner(fs, tag, LIMIT)
    {
      OtherTag(fs, f, tag, LIMIT);
    }
  }

  lemma ScalarMerged(fs: seq<Field>, f: Field)
    requires f.tag !in {4, 10, 11, 12, 14}
    ensures MergeClientState(Read(fs), f) == if FieldOk(f) then Some(Read(fs + [f])) else None
  {
    hide UintAt, BytesAt, Payloads, Inner, UintPairOf, SecondsNanosOf, ForkParametersOf;
    Others(fs, f);
    ReadNext(fs, f, f.tag, LIMIT);
  }

  lemma SubsOk(fs: seq<Field>, tag: nat)
    requires All(FieldOk, fs)
    ensures tag == 4 ==> AllUnder(ForksFieldOk, fs, tag, LIMIT)
    ensures tag in {10, 11, 12, 14} ==> AllUnder(PairFieldOk, fs, tag, LIMIT)
  {
    hide AllIn;
    forall i | 0 <= i < |fs| && fs[i].tag == tag ensures FieldOk(fs[i]) {
    }
  }

  lemma SubMerged(fs: seq<Field>, f: Field)
    requires All(FieldOk, fs)
    requires f.tag in {4, 10, 11, 12, 14} && f.value.Payload?
    ensures MergeClientState(Read(fs), f) == if FieldOk(f) then Some(Read(fs + [f])) else None
  {
    hide UintAt, BytesAt, Payloads, Inner, UintPairOf, SecondsNanosOf, ForkParametersOf, Reads, AllIn, AllUnder;
    hide MergeBytes, All;
    Others(fs, f);
    SubsOk(fs, f.tag);
    PairsRead();
    ForkParametersReads();
    if f.tag == 4 {
      SubNext(MergeForkParameters, EMPTY_FORKS, ForksFieldOk, ForkParametersOf, fs, f, LIMIT);
    } else if f.tag in {10, 14} {
      SubNext(MergeUintPair, NO_PAIR, PairFieldOk, UintPairOf, fs, f, LIMIT);
    } else {
      SubNext(MergeSecondsNanos, NO_SECONDS, PairFieldOk, SecondsNanosOf, fs, f, LIMIT);
    }
  }

  lemma MergedField(fs: seq<Field>, f: Field)
    requires All(FieldOk, fs)
    ensures MergeClientState(Read(fs), f) == if FieldOk(f) then Some(Read(fs + [f])) else None
  {
    if f.tag in {4, 10, 11, 12, 14} {
      if f.value.Payload? {
        hide Read, FieldOk, MergeClientState, All;
        SubMerged(fs, f);
      } else {
        hide Read, All;
      }
    } else {
      hide Read, FieldOk, MergeClientState, All;
      ScalarMerged(fs, f);
    }
  }

  /** Decoding accepts exactly the sequences of right fields and yields what they say. */
  lemma FieldsRead(fs: seq<Field>)
    ensures Fold(MergeClientState, EMPTY_CLIENT_STATE, fs) == if All(FieldOk, fs) then Some(Read(fs)) else None
  {
    assert Read([]) == EMPTY_CLIENT_STATE;
    hide Read, FieldOk, All, MergeClientState;
    forall gs, f | All(FieldOk, gs)
      ensures MergeClientState(Read(gs), f) == if FieldOk(f) then Some(Read(gs + [f])) else None
    {
      MergedField(gs, f);
    }
    FoldReads(MergeClientState, EMPTY_CLIENT_STATE, FieldOk, Read, fs);
  }

  // ---------------------------------------------------------------- the domain state

  predicate SaysSpec(fs: seq<Field>, s: ForkSpec) {
    && s.finalizedRootGindex == ToU32(UintAt(fs, 1))
    && s.currentSyncCommitteeGindex == ToU32(UintAt(fs, 2))
    && s.nextSyncCommitteeGindex == ToU32(UintAt(fs, 3))
    && s.executionPayloadGindex == ToU32(UintAt(fs, 4))
    && s.executionPayloadStateRootGindex == ToU32(UintAt(fs, 5))
    && s.executionPayloadBlockNumberGindex == ToU32(UintAt(fs, 6))
    && s.executionBlockHashGindex == ToU32(UintAt(fs, 7))
  }

  predicate SaysFork(fs: seq<Field>, f: Fork) {
    && f.version == BytesAt(fs, 1)
    && f.epoch == UintAt(fs, 2)
    && Payloads(fs, 3) != []
    && SaysSpec(Inner(fs, 3, 97), f.spec)
  }

  predicate SaysForks(fs: seq<Field>, p: ForkParameters) {
    && p.genesisVersion == BytesAt(fs, 1)
    && |p.forks| == |Payloads(fs, 2)|
    && forall i :: 0 <= i < |p.forks| ==> SaysFork(Parsed(Payloads(fs, 2)[i], 98), p.forks[i])
  }

  /** Seconds and nanoseconds add up to the duration; a sum that needs more than 63 bits for its
      seconds stands for the longest one. */
  predicate SaysDuration(fs: seq<Field>, d: Duration) {
    var total := ToI64(UintAt(fs, 1)) * 1_000_000_000 + ToI32(UintAt(fs, 2));
    0 <= total && d.secs * 1_000_000_000 + d.nanos
                  == if total <= 9_223_372_036_854_775_807_999_999_999 then total
                     else 9_223_372_036_854_775_807_999_999_999
  }

  /** The fields of an encoded client state say it is `c`: every value under its own tag. */
  predicate Says(fs: seq<Field>, c: ClientState) {
    && c.genesisValidatorsRoot == BytesAt(fs, 1)
    && c.minSyncCommitteeParticipants == UintAt(fs, 2)
    && c.genesisTime == UintAt(fs, 3)
    && Payloads(fs, 4) != [] && SaysForks(Inner(fs, 4, 99), c.forkParameters)
    && c.secondsPerSlot == UintAt(fs, 5)
    && c.slotsPerEpoch == UintAt(fs, 6)
    && c.epochsPerSyncCommitteePeriod == UintAt(fs, 7)
    && c.ibcAddress == BytesAt(fs, 8)
    && c.ibcCommitmentsSlot == BytesAt(fs, 9)
    && Payloads(fs, 10) != []
    && c.trustLevel.numerator == UintAt(Inner(fs, 10, 99), 1)
    && c.trustLevel.denominator == UintAt(Inner(fs, 10, 99), 2)
    && Payloads(fs, 11) != [] && SaysDuration(Inner(fs, 11, 99), c.trustingPeriod)
    && Payloads(fs, 12) != [] && SaysDuration(Inner(fs, 12, 99), c.maxClockDrift)
    && c.latestExecutionBlockNumber == UintAt(fs, 13)
    && (c.frozenHeight.None? <==> Payloads(fs, 14) == [])
    && (c.frozenHeight.Some? ==>
          && c.frozenHeight.value.revisionNumber == UintAt(Inner(fs, 14, 99), 1)
          && c.frozenHeight.value.revisionHeight == UintAt(Inner(fs, 14, 99), 2))
  }

  lemma {:induction false} ForksConverted(raw: seq<RawFork>, forks: seq<Fork>)
    ensures FromRawForks(raw) == Ok(forks) <==>
            && |forks| == |raw|
            && forall i :: 0 <= i < |forks| ==>
                 && raw[i].version == forks[i].version && raw[i].epoch == forks[i].epoch
                 && raw[i].spec == Some(forks[i].spec)
    decreases |raw|
  {
    if raw != [] && forks != [] {
      ForksConverted(raw[1..], forks[1..]);
      assert forks == [forks[0]] + forks[1..];
      assert forall i :: 0 < i < |raw| ==> raw[i] == raw[1..][i - 1];
      assert forall i :: 0 < i < |forks| ==> forks[i] == forks[1..][i - 1];
      if FromRawForks(raw) == Ok(forks) {
        assert FromRawForks(raw).value[1..] == FromRawForks(raw[1..]).value;
      }
    }
  }

  lemma ForkSays(fs: seq<Field>, f: Fork)
    ensures SaysFork(fs, f) <==>
            ForkOf(fs).version == f.version && ForkOf(fs).epoch == f.epoch && ForkOf(fs).spec == Some(f.spec)
  {
    hide UintAt, BytesAt, Payloads, Inner, ToU32;
  }

  lemma ForksSay(fs: seq<Field>, p: ForkParameters)
    ensures SaysForks(fs, p) <==>
            && ForkParametersOf(fs).genesisForkVersion == p.genesisVersion
            && FromRawForks(ForkParametersOf(fs).forks) == Ok(p.forks)
  {
    hide UintAt, BytesAt, Payloads, Inner, ForkOf, SaysFork, FromRawForks, Parsed;
    var ps := Payloads(fs, 2);
    ForksConverted(ForkList(ps), p.forks);
    forall i | 0 <= i < |ps| && i < |p.forks|
      ensures SaysFork(Parsed(ps[i], 98), p.forks[i]) <==>
              && ForkList(ps)[i].version == p.forks[i].version && ForkList(ps)[i].epoch == p.forks[i].epoch
              && ForkList(ps)[i].spec == Some(p.forks[i].spec)
    {
      ForkSays(Parsed(ps[i], 98), p.forks[i]);
    }
  }

  lemma DurationSays(fs: seq<Field>, d: Duration)
    ensures FromRawDuration(SecondsNanosOf(fs)) == Some(d) <==> SaysDuration(fs, d)
  {
    hide UintAt, ToI64, ToI32;
  }

  lemma StateSays(x: Externals, fs: seq<Field>, c: ClientState)
    ensures FromRaw(x, Read(fs)) == Ok(c) <==>
            Says(fs, c) && x.forksAccepted(c.forkParameters) && x.fractionAccepted(c.trustLevel)
  {
    hide UintAt, BytesAt, Payloads, Inner, SecondsNanosOf, ForkParametersOf, SaysForks, SaysDuration;
    hide FromRawForks, FromRawDuration;
    ForksSay(Inner(fs, 4, LIMIT), c.forkParameters);
    DurationSays(Inner(fs, 11, LIMIT), c.trustingPeriod);
    DurationSays(Inner(fs, 12, LIMIT), c.maxClockDrift);
  }

  /** Bytes decode to `c` exactly when they come under the type URL, split into fields of the right
      wire types, the fields of each tag say what `c` has there, and the constructors of fork
      parameters and trust level accept. */
  lemma DecodeExact(x: Externals, any: Any, c: ClientState)
    ensures Decode(x, any) == Ok(c) <==>
            && any.typeUrl == "/ibc.lightclients.ethereum.v1.ClientState"
            && ParseFields(any.value, 100).Some?
            && All(FieldOk, ParseFields(any.value, 100).value)
            && Says(ParseFields(any.value, 100).value, c)
            && x.forksAccepted(c.forkParameters) && x.fractionAccepted(c.trustLevel)
  {
    hide All, Read, FieldOk, FromRaw, MergeClientState, Says;
    if ParseFields(any.value, 100).Some? {
      var fs := ParseFields(any.value, 100).value;
      FieldsRead(fs);
      StateSays(x, fs, c);
    }
  }

  // ---------------------------------------------------------------- what the encoder writes

  /** A duration as the raw struct can hold it. */
  function Cut(d: Duration): Duration {
    if d.secs <= I64_MAX then d else Duration(I64_MAX, d.nanos)
  }

  function Written(c: ClientState): ClientState {
    c.(trustingPeriod := Cut(c.trustingPeriod), maxClockDrift := Cut(c.maxClockDrift))
  }

  lemma WrittenSays(fs: seq<Field>, c: ClientState)
    requires Read(fs) == ToRaw(c)
    ensures Says(fs, Written(c))
  {
    hide UintAt, BytesAt, Payloads, Inner, SecondsNanosOf, ForkParametersOf, SaysForks, SaysDuration;
    hide FromRawForks, FromRawDuration, ToRawDuration, ToRawForks;
    RawForksRoundTrip(c.forkParameters.forks);
    ForksSay(Inner(fs, 4, LIMIT), c.forkParameters);
    DurationRoundTrip(c.trustingPeriod);
    DurationRoundTrip(c.maxClockDrift);
    DurationSays(Inner(fs, 11, LIMIT), Cut(c.trustingPeriod));
    DurationSays(Inner(fs, 12, LIMIT), Cut(c.maxClockDrift));
  }

  /** A sub-message in canonical order. */
  predicate CanonicalIn(p: bytes, high: nat, limit: nat) {
    ParseFields(p, limit).Some? && Canonical(Parsed(p, limit), 1, high)
  }

  predicate SpecCanonical(f: Field) {
    f.tag == 3 ==> f.value.Payload? && CanonicalIn(f.value.payload, 8, FORK_LIMIT)
  }

  predicate ForkCanonical(f: Field) {
    f.tag == 2 ==> f.value.Payload? && CanonicalIn(f.value.payload, 4, FORKS_LIMIT)
                   && All(SpecCanonical, Parsed(f.value.payload, FORKS_LIMIT))
  }

  /** The genesis version comes before the forks. */
  predicate ForksCanonicalIn(p: bytes) {
    && ParseFields(p, LIMIT).Some?
    && (forall i :: 0 <= i < |Parsed(p, LIMIT)| ==>
          Parsed(p, LIMIT)[i].tag == 2 || (i == 0 && Parsed(p, LIMIT)[i].tag == 1))
    && All(ForkCanonical, Parsed(p, LIMIT))
  }

  predicate NestedCanonical(f: Field) {
    && (f.tag == 4 ==> f.value.Payload? && ForksCanonicalIn(f.value.payload))
    && (f.tag in {10, 11, 12, 14} ==> f.value.Payload? && CanonicalIn(f.value.payload, 3, LIMIT))
  }

  lemma SpecOrdered(s: ForkSpec)
    ensures Canonical(ForkSpecFields(s), 1, 8)
  {
    hide Canonical, UintField;
    UintPart(1, s.finalizedRootGindex, f => true);
    UintPart(2, s.currentSyncCommitteeGindex, f => true);
    UintPart(3, s.nextSyncCommitteeGindex, f => true);
    UintPart(4, s.executionPayloadGindex, f => true);
    UintPart(5, s.executionPayloadStateRootGindex, f => true);
    UintPart(6, s.executionPayloadBlockNumberGindex, f => true);
    UintPart(7, s.executionBlockHashGindex, f => true);
    CanonicalSeven(
      UintField(1, s.finalizedRootGindex), UintField(2, s.currentSyncCommitteeGindex),
      UintField(3, s.nextSyncCommitteeGindex), UintField(4, s.executionPayloadGindex),
      UintField(5, s.executionPayloadStateRootGindex), UintField(6, s.executionPayloadBlockNumberGindex),
      UintField(7, s.executionBlockHashGindex), 1);
  }

  lemma SpecShaped(s: ForkSpec)
    ensures AllShaped(ForkSpecFields(s))
  {
    ShapedSeven(
      UintField(1, s.finalizedRootGindex), UintField(2, s.currentSyncCommitteeGindex),
      UintField(3, s.nextSyncCommitteeGindex), UintField(4, s.executionPayloadGindex),
      UintField(5, s.executionPayloadStateRootGindex), UintField(6, s.executionPayloadBlockNumberGindex),
      UintField(7, s.executionBlockHashGindex));
  }

  lemma SpecWritten(s: ForkSpec)
    ensures CanonicalIn(FieldsBytes(ForkSpecFields(s)), 8, FORK_LIMIT)
  {
    SpecShaped(s);
    ForkSpecLength(s);
    hide ForkSpecFields, FieldsBytes, Canonical, AllShaped;
    FittingRoundTrip(ForkSpecFields(s), FORK_LIMIT);
    SpecOrdered(s);
  }

  lemma ForkOrdered(fork: RawFork)
    ensures Canonical(ForkFields(fork), 1, 4) && All(SpecCanonical, ForkFields(fork))
  {
    var f1, f2, f3 := BytesField(1, fork.version), UintField(2, fork.epoch), MessageField(3, ForkSpecBytes(fork.spec));
    if fork.spec.Some? {
      SpecWritten(fork.spec.value);
    }
    hide CanonicalIn, FieldsBytes, ForkSpecFields, Canonical, All, BytesField, UintField, MessageField;
    BytesPart(1, fork.version, SpecCanonical);
    UintPart(2, fork.epoch, SpecCanonical);
    MessagePart(3, ForkSpecBytes(fork.spec), SpecCanonical);
    CanonicalAppend(f1, f2, 1, 2, 3);
    CanonicalAppend(f1 + f2, f3, 1, 3, 4);
    AllAppend(SpecCanonical, f1, f2);
    AllAppend(SpecCanonical, f1 + f2, f3);
  }

  lemma ForkWritten(fork: RawFork)
    requires ForkFits(fork)
    ensures ForkCanonical(Field(2, Payload(FieldsBytes(ForkFields(fork)))))
  {
    ShapedAppend(BytesField(1, fork.version), UintField(2, fork.epoch));
    ShapedAppend(BytesField(1, fork.version) + UintField(2, fork.epoch), MessageField(3, ForkSpecBytes(fork.spec)));
    assert AllShaped(ForkFields(fork));
    hide ForkFields, FieldsBytes, Canonical, All, AllShaped;
    FittingRoundTrip(ForkFields(fork), FORKS_LIMIT);
    ForkOrdered(fork);
  }

  lemma {:induction false} RepeatedWritten(forks: seq<RawFork>)
    requires ForksFit(forks)
    ensures forall i :: 0 <= i < |RepeatedForks(forks)| ==> RepeatedForks(forks)[i].tag == 2
    ensures All(ForkCanonical, RepeatedForks(forks))
  {
    hide ForkCanonical;
    if forks != [] {
      ForkWritten(forks[0]);
      RepeatedWritten(forks[1..]);
      AllAppend(ForkCanonical, [Field(2, Payload(FieldsBytes(ForkFields(forks[0]))))], RepeatedForks(forks[1..]));
    }
  }

  lemma ForksWritten(m: RawForkParameters)
    requires |FieldsBytes(ForkParametersFields(m))| < U64_LIMIT
    ensures ForksCanonicalIn(FieldsBytes(ForkParametersFields(m)))
  {
    var version, forks := BytesField(1, m.genesisForkVersion), RepeatedForks(m.forks);
    RepeatedForksShaped(m.forks);
    ShapedAppend(version, forks);
    FittingRoundTrip(version + forks, LIMIT);
    FieldsBytesAppend(version, forks);
    RepeatedForksFit(m.forks);
    RepeatedWritten(m.forks);
    assert All(ForkCanonical, version);
    hide ForkCanonical, FieldsBytes;
    AllAppend(ForkCanonical, version, forks);
  }

  lemma SmallFieldsWritten(fs: seq<Field>)
    requires (forall i :: 0 <= i < |fs| ==> Writable(fs[i])) && Canonical(fs, 1, 3)
    ensures CanonicalIn(FieldsBytes(fs), 3, LIMIT)
  {
    hide FieldsBytes, Canonical, Writable;
    FieldsRoundTrip(fs, LIMIT);
  }

  lemma PairsWritten(t: SecondsNanos, p: UintPair)
    ensures CanonicalIn(FieldsBytes(SecondsNanosFields(t)), 3, LIMIT)
    ensures CanonicalIn(FieldsBytes(UintPairFields(p)), 3, LIMIT)
  {
    hide FieldsBytes, Canonical, CanonicalIn;
    PairsCanonical(t, p);
    SmallFieldsWritten(SecondsNanosFields(t));
    SmallFieldsWritten(UintPairFields(p));
  }

  lemma AllSeven(ok: Field -> bool, a: seq<Field>, b: seq<Field>, c: seq<Field>, d: seq<Field>,
                 e: seq<Field>, f: seq<Field>, g: seq<Field>)
    requires All(ok, a) && All(ok, b) && All(ok, c) && All(ok, d) && All(ok, e) && All(ok, f) && All(ok, g)
    ensures All(ok, a + b + c + d + e + f + g)
  {
    hide All;
    AllAppend(ok, a, b);
    AllAppend(ok, a + b, c);
    AllAppend(ok, a + b + c, d);
    AllAppend(ok, a + b + c + d, e);
    AllAppend(ok, a + b + c + d + e, f);
    AllAppend(ok, a + b + c + d + e + f, g);
  }

  lemma ParametersOrdered(m: RawClientState)
    ensures Canonical(ParameterFields(m), 1, 8)
  {
    hide FieldsBytes, ForkParametersBytes, Canonical, UintField, BytesField, MessageField;
    BytesPart(1, m.genesisValidatorsRoot, f => true);
    UintPart(2, m.minSyncCommitteeParticipants, f => true);
    UintPart(3, m.genesisTime, f => true);
    MessagePart(4, ForkParametersBytes(m.forkParameters), f => true);
    UintPart(5, m.secondsPerSlot, f => true);
    UintPart(6, m.slotsPerEpoch, f => true);
    UintPart(7, m.epochsPerSyncCommitteePeriod, f => true);
    CanonicalSeven(
      BytesField(1, m.genesisValidatorsRoot), UintField(2, m.minSyncCommitteeParticipants),
      UintField(3, m.genesisTime), MessageField(4, ForkParametersBytes(m.forkParameters)),
      UintField(5, m.secondsPerSlot), UintField(6, m.slotsPerEpoch), UintField(7, m.epochsPerSyncCommitteePeriod), 1);
  }

  lemma ForksNested(m: RawClientState)
    requires m.forkParameters.Some? ==> |ForkParametersBytes(m.forkParameters).value| < U64_LIMIT
    ensures All(NestedCanonical, MessageField(4, ForkParametersBytes(m.forkParameters)))
  {
    if m.forkParameters.Some? {
      ForksWritten(m.forkParameters.value);
    }
    hide FieldsBytes, ForkParametersFields, ForksCanonicalIn, CanonicalIn;
    MessagePart(4, ForkParametersBytes(m.forkParameters), NestedCanonical);
  }

  lemma ParametersNested(m: RawClientState)
    requires m.forkParameters.Some? ==> |ForkParametersBytes(m.forkParameters).value| < U64_LIMIT
    ensures All(NestedCanonical, ParameterFields(m))
  {
    ForksNested(m);
    hide FieldsBytes, ForkParametersBytes, ForksCanonicalIn, CanonicalIn, All, Canonical;
    hide UintField, BytesField, MessageField;
    BytesPart(1, m.genesisValidatorsRoot, NestedCanonical);
    UintPart(2, m.minSyncCommitteeParticipants, NestedCanonical);
    UintPart(3, m.genesisTime, NestedCanonical);
    UintPart(5, m.secondsPerSlot, NestedCanonical);
    UintPart(6, m.slotsPerEpoch, NestedCanonical);
    UintPart(7, m.epochsPerSyncCommitteePeriod, NestedCanonical);
    AllSeven(
      NestedCanonical, BytesField(1, m.genesisValidatorsRoot), UintField(2, m.minSyncCommitteeParticipants),
      UintField(3, m.genesisTime), MessageField(4, ForkParametersBytes(m.forkParameters)),
      UintField(5, m.secondsPerSlot), UintField(6, m.slotsPerEpoch), UintField(7, m.epochsPerSyncCommitteePeriod));
  }

  predicate EmptyOrCanonical(p: Option<bytes>) {
    p.Some? ==> CanonicalIn(p.value, 3, LIMIT)
  }

  lemma PairsCanonicalIn(m: RawClientState)
    ensures EmptyOrCanonical(UintPairBytes(m.trustLevel)) && EmptyOrCanonical(UintPairBytes(m.frozenHeight))
    ensures EmptyOrCanonical(SecondsNanosBytes(m.trustingPeriod))
    ensures EmptyOrCanonical(SecondsNanosBytes(m.maxClockDrift))
  {
    hide CanonicalIn, FieldsBytes, SecondsNanosFields, UintPairFields;
    PairsWritten(
      if m.trustingPeriod.Some? then m.trustingPeriod.value else NO_SECONDS,
      if m.trustLevel.Some? then m.trustLevel.value else NO_PAIR);
    PairsWritten(
      if m.maxClockDrift.Some? then m.maxClockDrift.value else NO_SECONDS,
      if m.frozenHeight.Some? then m.frozenHeight.value else NO_PAIR);
  }

  lemma PolicyOrdered(m: RawClientState)
    ensures Canonical(PolicyFields(m), 8, 15)
  {
    hide FieldsBytes, SecondsNanosBytes, UintPairBytes, Canonical, UintField, BytesField, MessageField;
    BytesPart(8, m.ibcAddress, f => true);
    BytesPart(9, m.ibcCommitmentsSlot, f => true);
    MessagePart(10, UintPairBytes(m.trustLevel), f => true);
    MessagePart(11, SecondsNanosBytes(m.trustingPeriod), f => true);
    MessagePart(12, SecondsNanosBytes(m.maxClockDrift), f => true);
    UintPart(13, m.latestExecutionBlockNumber, f => true);
    MessagePart(14, UintPairBytes(m.frozenHeight), f => true);
    CanonicalSeven(
      BytesField(8, m.ibcAddress), BytesField(9, m.ibcCommitmentsSlot), MessageField(10, UintPairBytes(m.trustLevel)),
      MessageField(11, SecondsNanosBytes(m.trustingPeriod)), MessageField(12, SecondsNanosBytes(m.maxClockDrift)),
      UintField(13, m.latestExecutionBlockNumber), MessageField(14, UintPairBytes(m.frozenHeight)), 8);
  }

  lemma PairNested(tag: nat, p: Option<bytes>)
    requires tag in {10, 11, 12, 14} && EmptyOrCanonical(p)
    ensures All(NestedCanonical, MessageField(tag, p))
  {
    hide ForksCanonicalIn, CanonicalIn;
    MessagePart(tag, p, NestedCanonical);
  }

  lemma PolicyNested(m: RawClientState)
    ensures All(NestedCanonical, PolicyFields(m))
  {
    PairsCanonicalIn(m);
    hide FieldsBytes, SecondsNanosBytes, UintPairBytes, ForksCanonicalIn, CanonicalIn, EmptyOrCanonical;
    hide All, Canonical, UintField, BytesField, MessageField;
    BytesPart(8, m.ibcAddress, NestedCanonical);
    BytesPart(9, m.ibcCommitmentsSlot, NestedCanonical);
    PairNested(10, UintPairBytes(m.trustLevel));
    PairNested(11, SecondsNanosBytes(m.trustingPeriod));
    PairNested(12, SecondsNanosBytes(m.maxClockDrift));
    UintPart(13, m.latestExecutionBlockNumber, NestedCanonical);
    PairNested(14, UintPairBytes(m.frozenHeight));
    AllSeven(
      NestedCanonical, BytesField(8, m.ibcAddress), BytesField(9, m.ibcCommitmentsSlot),
      MessageField(10, UintPairBytes(m.trustLevel)), MessageField(11, SecondsNanosBytes(m.trustingPeriod)),
      MessageField(12, SecondsNanosBytes(m.maxClockDrift)), UintField(13, m.latestExecutionBlockNumber),
      MessageField(14, UintPairBytes(m.frozenHeight)));
  }

  /** The encoder writes each field at most once, in the order of tags, omits zeros, and puts every value
      under its own tag, at every level; a span beyond 63-bit seconds is cut. */
  lemma EncodeExact(c: ClientState)
    requires Fits(c)
    ensures Encode(c).typeUrl == "/ibc.lightclients.ethereum.v1.ClientState"
    ensures ParseFields(Encode(c).value, 100).Some?
    ensures var fs := ParseFields(Encode(c).value, 100).value;
            && Says(fs, c.(trustingPeriod := Cut(c.trustingPeriod), maxClockDrift := Cut(c.maxClockDrift)))
            && Canonical(fs, 1, 15)
            && All(NestedCanonical, fs)
  {
    var m := ToRaw(c);
    RawRoundTrip(m);
    FieldsShaped(m);
    FittingRoundTrip(ClientStateFields(m), 100);
    ForksPayloadFits(m);
    ParametersOrdered(m);
    PolicyOrdered(m);
    ParametersNested(m);
    PolicyNested(m);
    CanonicalAppend(ParameterFields(m), PolicyFields(m), 1, 8, 15);
    AllAppend(NestedCanonical, ParameterFields(m), PolicyFields(m));
    FieldsRead(ClientStateFields(m));
    hide Says, NestedCanonical, Read, FieldOk, All, ParameterFields, PolicyFields, ToRaw, Canonical;
    WrittenSays(ClientStateFields(m), c);
  }

  /** Fields unknown to the schema, of any wire type and put anywhere, do not change what is decoded. */
  lemma UnknownFields(x: Externals, c: ClientState, k: nat, items: Items)
    requires Fits(c) && Representable(x, c)
    requires k <= |ClientStateFields(ToRaw(c))|
    requires AllAbove(items, 14) && ValidItems(items) && ItemsDepth(items) <= 100
    ensures var fs := ClientStateFields(ToRaw(c));
            Decode(x, Any(CLIENT_STATE_TYPE_URL,
                          FieldsBytes(fs[..k]) + (ItemsBytes(items) + FieldsBytes(fs[k..])))) == Ok(c)
  {
    RawUnknownFields(ToRaw(c), k, items);
    RawStructRoundTrip(x, c);
    hide ClientStateFields, FieldsBytes, ItemsBytes, FromRaw, ToRaw, DecodeRaw;
  }

  lemma RawUnknownFields(m: RawClientState, k: nat, items: Items)
    requires RawFits(m) && k <= |ClientStateFields(m)|
    requires AllAbove(items, 14) && ValidItems(items) && ItemsDepth(items) <= 100
    ensures var fs := ClientStateFields(m);
            DecodeRaw(FieldsBytes(fs[..k]) + (ItemsBytes(items) + FieldsBytes(fs[k..]))) == Some(m)
  {
    var fs := ClientStateFields(m);
    StateFields(m);
    StateIgnores();
    hide *;
    assert fs[..k] + fs[k..] == fs;
    UnknownIgnored(MergeClientState, 14, EMPTY_CLIENT_STATE, fs[..k], fs[k..], items, 100);
  }

  lemma StateFields(m: RawClientState)
    requires RawFits(m)
    ensures forall i :: 0 <= i < |ClientStateFields(m)| ==> Writable(ClientStateFields(m)[i])
    ensures Fold(MergeClientState, EMPTY_CLIENT_STATE, ClientStateFields(m)) == Some(m)
  {
    FieldsShaped(m);
    PayloadsFit(ClientStateFields(m));
    RawRoundTrip(m);
    FittingRoundTrip(ClientStateFields(m), 100);
    hide Fold, ParseFields, ClientStateFields, FieldsBytes, Writable, MergeClientState, AllShaped;
  }

  lemma StateIgnores()
    ensures Ignores(MergeClientState, 14)
  {
    hide WithUint, WithPayload;
  }
}
