/** Client states as protobuf messages: domain state, raw struct, fields and bytes. */
module ClientCodec {
  import opened Types
  import opened Externals
  import opened Wire
  import opened WellKnown

  const CLIENT_STATE_TYPE_URL: string := "/ibc.lightclients.ethereum.v1.ClientState"

  datatype RawFork = RawFork(version: bytes, epoch: u64, spec: Option<ForkSpec>)

  datatype RawForkParameters = RawForkParameters(genesisForkVersion: bytes, forks: seq<RawFork>)

  datatype RawClientState = RawClientState(
    genesisValidatorsRoot: bytes,
    minSyncCommitteeParticipants: u64,
    genesisTime: u64,
    forkParameters: Option<RawForkParameters>,
    secondsPerSlot: u64,
    slotsPerEpoch: u64,
    epochsPerSyncCommitteePeriod: u64,
    ibcAddress: bytes,
    ibcCommitmentsSlot: bytes,
    trustLevel: Option<UintPair>,
    trustingPeriod: Option<SecondsNanos>,
    maxClockDrift: Option<SecondsNanos>,
    latestExecutionBlockNumber: u64,
    frozenHeight: Option<UintPair>)

  const EMPTY_SPEC: ForkSpec := ForkSpec(0, 0, 0, 0, 0, 0, 0)
  const EMPTY_FORK: RawFork := RawFork([], 0, None)
  const EMPTY_FORKS: RawForkParameters := RawForkParameters([], [])
  const EMPTY_CLIENT_STATE: RawClientState :=
    RawClientState([], 0, 0, None, 0, 0, 0, [], [], None, None, None, 0, None)

  // ---------------------------------------------------------------- fork parameters

  function MergeForkSpec(m: ForkSpec, f: Field): Option<ForkSpec> {
    if f.tag == 0 || f.tag > 7 then Some(m)
    else if f.value.Varint? then Some(WithGindex(m, f.tag, ToU32(f.value.v)))
    else None
  }

  function WithGindex(m: ForkSpec, tag: nat, v: u32): ForkSpec {
    match tag
    case 1 => m.(finalizedRootGindex := v)
    case 2 => m.(currentSyncCommitteeGindex := v)
    case 3 => m.(nextSyncCommitteeGindex := v)
    case 4 => m.(executionPayloadGindex := v)
    case 5 => m.(executionPayloadStateRootGindex := v)
    case 6 => m.(executionPayloadBlockNumberGindex := v)
    case 7 => m.(executionBlockHashGindex := v)
    case _ => m
  }

  function ForkSpecFields(s: ForkSpec): seq<Field> {
    UintField(1, s.finalizedRootGindex) + UintField(2, s.currentSyncCommitteeGindex)
    + UintField(3, s.nextSyncCommitteeGindex) + UintField(4, s.executionPayloadGindex)
    + UintField(5, s.executionPayloadStateRootGindex) + UintField(6, s.executionPayloadBlockNumberGindex)
    + UintField(7, s.executionBlockHashGindex)
  }

  function ForkSpecBytes(s: Option<ForkSpec>): Option<bytes> {
    if s.None? then None else Some(FieldsBytes(ForkSpecFields(s.value)))
  }

  function MergeFork(m: RawFork, f: Field): Option<RawFork> {
    match (f.tag, f.value)
    case (1, Payload(p)) => Some(m.(version := p))
    case (2, Varint(v)) => Some(m.(epoch := v))
    case (3, Payload(p)) =>
      var before := if m.spec.Some? then m.spec.value else EMPTY_SPEC;
      (match MergeBytes(MergeForkSpec, before, p, RECURSION_LIMIT - 3)
       case None => None
       case Some(s) => Some(m.(spec := Some(s))))
    case _ => if 1 <= f.tag <= 3 then None else Some(m)
  }

  function ForkFields(f: RawFork): seq<Field> {
    BytesField(1, f.version) + UintField(2, f.epoch) + MessageField(3, ForkSpecBytes(f.spec))
  }

  function MergeForkParameters(m: RawForkParameters, f: Field): Option<RawForkParameters> {
    match (f.tag, f.value)
    case (1, Payload(p)) => Some(m.(genesisForkVersion := p))
    case (2, Payload(p)) =>
      (match MergeBytes(MergeFork, EMPTY_FORK, p, RECURSION_LIMIT - 2)
       case None => None
       case Some(fork) => Some(m.(forks := m.forks + [fork])))
    case _ => if f.tag == 1 || f.tag == 2 then None else Some(m)
  }

  function RepeatedForks(forks: seq<RawFork>): seq<Field> {
    if forks == [] then [] else [Field(2, Payload(FieldsBytes(ForkFields(forks[0]))))] + RepeatedForks(forks[1..])
  }

  function ForkParametersFields(m: RawForkParameters): seq<Field> {
    BytesField(1, m.genesisForkVersion) + RepeatedForks(m.forks)
  }

  function ForkParametersBytes(m: Option<RawForkParameters>): Option<bytes> {
    if m.None? then None else Some(FieldsBytes(ForkParametersFields(m.value)))
  }

  lemma StepGindex(m: ForkSpec, tag: nat, v: u32)
    requires 1 <= tag <= 7
    requires v == 0 ==> WithGindex(m, tag, v) == m
    ensures Fold(MergeForkSpec, m, UintField(tag, v)) == Some(WithGindex(m, tag, v))
  {
    FoldOne(MergeForkSpec, m, Field(tag, Varint(v)));
  }

  lemma ForkSpecFold(s: ForkSpec)
    ensures Fold(MergeForkSpec, EMPTY_SPEC, ForkSpecFields(s)) == Some(s)
  {
    var s0 := EMPTY_SPEC;
    var f1, s1 := UintField(1, s.finalizedRootGindex), s0.(finalizedRootGindex := s.finalizedRootGindex);
    StepGindex(s0, 1, s.finalizedRootGindex);
    var f2 := UintField(2, s.currentSyncCommitteeGindex);
    var s2 := s1.(currentSyncCommitteeGindex := s.currentSyncCommitteeGindex);
    StepGindex(s1, 2, s.currentSyncCommitteeGindex);
    FoldThen(MergeForkSpec, s0, f1, s1, f2, s2);
    var f3, s3 := UintField(3, s.nextSyncCommitteeGindex), s2.(nextSyncCommitteeGindex := s.nextSyncCommitteeGindex);
    StepGindex(s2, 3, s.nextSyncCommitteeGindex);
    FoldThen(MergeForkSpec, s0, f1 + f2, s2, f3, s3);
    var f4, s4 := UintField(4, s.executionPayloadGindex), s3.(executionPayloadGindex := s.executionPayloadGindex);
    StepGindex(s3, 4, s.executionPayloadGindex);
    FoldThen(MergeForkSpec, s0, f1 + f2 + f3, s3, f4, s4);
    var f5 := UintField(5, s.executionPayloadStateRootGindex);
    var s5 := s4.(executionPayloadStateRootGindex := s.executionPayloadStateRootGindex);
    StepGindex(s4, 5, s.executionPayloadStateRootGindex);
    FoldThen(MergeForkSpec, s0, f1 + f2 + f3 + f4, s4, f5, s5);
    var f6 := UintField(6, s.executionPayloadBlockNumberGindex);
    var s6 := s5.(executionPayloadBlockNumberGindex := s.executionPayloadBlockNumberGindex);
    StepGindex(s5, 6, s.executionPayloadBlockNumberGindex);
    FoldThen(MergeForkSpec, s0, f1 + f2 + f3 + f4 + f5, s5, f6, s6);
    var f7, s7 := UintField(7, s.executionBlockHashGindex), s6.(executionBlockHashGindex := s.executionBlockHashGindex);
    StepGindex(s6, 7, s.executionBlockHashGindex);
    FoldThen(MergeForkSpec, s0, f1 + f2 + f3 + f4 + f5 + f6, s6, f7, s7);
  }

  lemma ForkSpecRoundTrip(s: ForkSpec)
    ensures MergeBytes(MergeForkSpec, EMPTY_SPEC, FieldsBytes(ForkSpecFields(s)), RECURSION_LIMIT - 3) == Some(s)
  {
    FieldsRoundTrip(ForkSpecFields(s), RECURSION_LIMIT - 3);
    ForkSpecFold(s);
  }

  lemma ForkFold(f: RawFork)
    ensures Fold(MergeFork, EMPTY_FORK, ForkFields(f)) == Some(f)
  {
    var m0 := EMPTY_FORK;
    var f1, m1 := BytesField(1, f.version), m0.(version := f.version);
    FoldOne(MergeFork, m0, Field(1, Payload(f.version)));
    var f2, m2 := UintField(2, f.epoch), m1.(epoch := f.epoch);
    FoldOne(MergeFork, m1, Field(2, Varint(f.epoch)));
    FoldThen(MergeFork, m0, f1, m1, f2, m2);
    if f.spec.Some? {
      ForkSpecRoundTrip(f.spec.value);
      FoldOne(MergeFork, m2, Field(3, Payload(ForkSpecBytes(f.spec).value)));
    }
    FoldThen(MergeFork, m0, f1 + f2, m2, MessageField(3, ForkSpecBytes(f.spec)), f);
  }

  lemma ForkRoundTrip(f: RawFork)
    requires |FieldsBytes(ForkFields(f))| < U64_LIMIT
    ensures MergeBytes(MergeFork, EMPTY_FORK, FieldsBytes(ForkFields(f)), RECURSION_LIMIT - 2) == Some(f)
  {
    ForkFold(f);
    ShapedAppend(BytesField(1, f.version), UintField(2, f.epoch));
    ShapedAppend(BytesField(1, f.version) + UintField(2, f.epoch), MessageField(3, ForkSpecBytes(f.spec)));
    hide ForkFields, FieldsBytes, MergeFork;
    FittingRoundTrip(ForkFields(f), RECURSION_LIMIT - 2);
  }

  predicate ForkFits(f: RawFork) {
    |FieldsBytes(ForkFields(f))| < U64_LIMIT
  }

  predicate ForksFit(forks: seq<RawFork>) {
    forks != [] ==> ForkFits(forks[0]) && ForksFit(forks[1..])
  }

  lemma {:induction false} RepeatedForksFit(forks: seq<RawFork>)
    requires |FieldsBytes(RepeatedForks(forks))| < U64_LIMIT
    ensures ForksFit(forks)
  {
    if forks != [] {
      var first := Field(2, Payload(FieldsBytes(ForkFields(forks[0]))));
      FieldsBytesAppend([first], RepeatedForks(forks[1..]));
      assert FieldsBytes([first]) == FieldBytes(first) + FieldsBytes([]);
      RepeatedForksFit(forks[1..]);
    }
  }

  lemma OneForkFold(m: RawForkParameters, fork: RawFork)
    requires ForkFits(fork)
    ensures Fold(MergeForkParameters, m, [Field(2, Payload(FieldsBytes(ForkFields(fork))))])
         == Some(m.(forks := m.forks + [fork]))
  {
    ForkRoundTrip(fork);
    FoldOne(MergeForkParameters, m, Field(2, Payload(FieldsBytes(ForkFields(fork)))));
  }

  function Appended(m: RawForkParameters, forks: seq<RawFork>): RawForkParameters {
    m.(forks := m.forks + forks)
  }

  lemma AppendedOne(m: RawForkParameters, forks: seq<RawFork>)
    requires forks != []
    ensures Appended(Appended(m, [forks[0]]), forks[1..]) == Appended(m, forks)
  {
    assert m.forks + [forks[0]] + forks[1..] == m.forks + forks;
  }

  /** A repeated field appends its elements in order. */
  lemma {:induction false} RepeatedForksFold(m: RawForkParameters, forks: seq<RawFork>)
    requires ForksFit(forks)
    ensures Fold(MergeForkParameters, m, RepeatedForks(forks)) == Some(Appended(m, forks))
    decreases |forks|
  {
    if forks == [] {
      assert Appended(m, forks) == m;
    } else {
      var m1 := Appended(m, [forks[0]]);
      OneForkFold(m, forks[0]);
      RepeatedForksFold(m1, forks[1..]);
      AppendedOne(m, forks);
      FoldThen(MergeForkParameters, m, [Field(2, Payload(FieldsBytes(ForkFields(forks[0]))))], m1,
               RepeatedForks(forks[1..]), Appended(m, forks));
    }
  }

  lemma {:induction false} RepeatedForksShaped(forks: seq<RawFork>)
    ensures AllShaped(RepeatedForks(forks))
  {
    if forks != [] {
      RepeatedForksShaped(forks[1..]);
    }
  }

  lemma ForkParametersRoundTrip(m: RawForkParameters)
    requires |FieldsBytes(ForkParametersFields(m))| < U64_LIMIT
    ensures MergeBytes(MergeForkParameters, EMPTY_FORKS, FieldsBytes(ForkParametersFields(m)), RECURSION_LIMIT - 1)
         == Some(m)
  {
    RepeatedForksShaped(m.forks);
    FittingRoundTrip(ForkParametersFields(m), RECURSION_LIMIT - 1);
    FieldsBytesAppend(BytesField(1, m.genesisForkVersion), RepeatedForks(m.forks));
    var m1 := EMPTY_FORKS.(genesisForkVersion := m.genesisForkVersion);
    FoldOne(MergeForkParameters, EMPTY_FORKS, Field(1, Payload(m.genesisForkVersion)));
    RepeatedForksFit(m.forks);
    RepeatedForksFold(m1, m.forks);
    assert m1.forks + m.forks == m.forks;
    FoldThen(MergeForkParameters, EMPTY_FORKS, BytesField(1, m.genesisForkVersion), m1, RepeatedForks(m.forks), m);
  }

  // ---------------------------------------------------------------- raw struct to bytes and back

  /** Merges a sub-message into a field that may already be present. */
  function MergeInto<M>(merge: (M, Field) -> Option<M>, empty: M, before: Option<M>, p: bytes): Option<M> {
    MergeBytes(merge, if before.Some? then before.value else empty, p, RECURSION_LIMIT - 1)
  }

  function MergeClientState(m: RawClientState, f: Field): Option<RawClientState> {
    if f.tag == 0 || f.tag > 14 then Some(m)
    else if f.tag in {2, 3, 5, 6, 7, 13} then
      if f.value.Varint? then Some(WithUint(m, f.tag, f.value.v)) else None
    else if f.value.Payload? then WithPayload(m, f.tag, f.value.payload)
    else None
  }

  function WithUint(m: RawClientState, tag: nat, v: u64): RawClientState {
    match tag
    case 2 => m.(minSyncCommitteeParticipants := v)
    case 3 => m.(genesisTime := v)
    case 5 => m.(secondsPerSlot := v)
    case 6 => m.(slotsPerEpoch := v)
    case 7 => m.(epochsPerSyncCommitteePeriod := v)
    case 13 => m.(latestExecutionBlockNumber := v)
    case _ => m
  }

  function WithPayload(m: RawClientState, tag: nat, p: bytes): Option<RawClientState> {
    match tag
    case 1 => Some(m.(genesisValidatorsRoot := p))
    case 4 =>
      (match MergeInto(MergeForkParameters, EMPTY_FORKS, m.forkParameters, p)
       case None => None
       case Some(v) => Some(m.(forkParameters := Some(v))))
    case 8 => Some(m.(ibcAddress := p))
    case 9 => Some(m.(ibcCommitmentsSlot := p))
    case 10 =>
      (match MergeInto(MergeUintPair, NO_PAIR, m.trustLevel, p)
       case None => None
       case Some(v) => Some(m.(trustLevel := Some(v))))
    case 11 =>
      (match MergeInto(MergeSecondsNanos, NO_SECONDS, m.trustingPeriod, p)
       case None => None
       case Some(v) => Some(m.(trustingPeriod := Some(v))))
    case 12 =>
      (match MergeInto(MergeSecondsNanos, NO_SECONDS, m.maxClockDrift, p)
       case None => None
       case Some(v) => Some(m.(maxClockDrift := Some(v))))
    case 14 =>
      (match MergeInto(MergeUintPair, NO_PAIR, m.frozenHeight, p)
       case None => None
       case Some(v) => Some(m.(frozenHeight := Some(v))))
    case _ => Some(m)
  }

  function ParameterFields(m: RawClientState): seq<Field> {
    BytesField(1, m.genesisValidatorsRoot) + UintField(2, m.minSyncCommitteeParticipants)
    + UintField(3, m.genesisTime) + MessageField(4, ForkParametersBytes(m.forkParameters))
    + UintField(5, m.secondsPerSlot) + UintField(6, m.slotsPerEpoch)
    + UintField(7, m.epochsPerSyncCommitteePeriod)
  }

  function PolicyFields(m: RawClientState): seq<Field> {
    BytesField(8, m.ibcAddress) + BytesField(9, m.ibcCommitmentsSlot)
    + MessageField(10, UintPairBytes(m.trustLevel))
    + MessageField(11, SecondsNanosBytes(m.trustingPeriod)) + MessageField(12, SecondsNanosBytes(m.maxClockDrift))
    + UintField(13, m.latestExecutionBlockNumber) + MessageField(14, UintPairBytes(m.frozenHeight))
  }

  /** All fields in tag order. */
  function ClientStateFields(m: RawClientState): seq<Field> {
    ParameterFields(m) + PolicyFields(m)
  }

  function DecodeRaw(b: bytes): Option<RawClientState> {
    MergeBytes(MergeClientState, EMPTY_CLIENT_STATE, b, RECURSION_LIMIT)
  }

  /** The length of the encoding fits in 64 bits, as the length of any byte vector does. */
  predicate RawFits(m: RawClientState) {
    |FieldsBytes(ClientStateFields(m))| < U64_LIMIT
  }

  lemma StepUint(m: RawClientState, tag: nat, v: u64)
    requires tag in {2, 3, 5, 6, 7, 13}
    requires v == 0 ==> WithUint(m, tag, v) == m
    ensures Fold(MergeClientState, m, UintField(tag, v)) == Some(WithUint(m, tag, v))
  {
    FoldOne(MergeClientState, m, Field(tag, Varint(v)));
  }

  lemma StepPayload(m: RawClientState, tag: nat, p: bytes)
    requires tag in {1, 4, 8, 9, 10, 11, 12, 14}
    ensures Fold(MergeClientState, m, [Field(tag, Payload(p))]) == WithPayload(m, tag, p)
  {
    FoldOne(MergeClientState, m, Field(tag, Payload(p)));
  }

  lemma StepForks(m: RawClientState, v: Option<RawForkParameters>)
    requires m.forkParameters.None?
    requires v.Some? ==> |ForkParametersBytes(v).value| < U64_LIMIT
    ensures Fold(MergeClientState, m, MessageField(4, ForkParametersBytes(v))) == Some(m.(forkParameters := v))
  {
    if v.Some? {
      ForkParametersRoundTrip(v.value);
      StepPayload(m, 4, ForkParametersBytes(v).value);
    }
  }

  lemma StepPair(m: RawClientState, tag: nat, v: Option<UintPair>)
    requires (tag == 10 && m.trustLevel.None?) || (tag == 14 && m.frozenHeight.None?)
    ensures Fold(MergeClientState, m, MessageField(tag, UintPairBytes(v)))
         == Some(if tag == 10 then m.(trustLevel := v) else m.(frozenHeight := v))
  {
    if v.Some? {
      UintPairRoundTrip(v.value, RECURSION_LIMIT - 1);
      StepPayload(m, tag, UintPairBytes(v).value);
    }
  }

  lemma StepSeconds(m: RawClientState, tag: nat, v: Option<SecondsNanos>)
    requires (tag == 11 && m.trustingPeriod.None?) || (tag == 12 && m.maxClockDrift.None?)
    ensures Fold(MergeClientState, m, MessageField(tag, SecondsNanosBytes(v)))
         == Some(if tag == 11 then m.(trustingPeriod := v) else m.(maxClockDrift := v))
  {
    if v.Some? {
      SecondsNanosRoundTrip(v.value, RECURSION_LIMIT - 1);
      StepPayload(m, tag, SecondsNanosBytes(v).value);
    }
  }

  /** The raw struct with only its first seven fields set. */
  function ParametersOnly(m: RawClientState): RawClientState {
    EMPTY_CLIENT_STATE.(
      genesisValidatorsRoot := m.genesisValidatorsRoot,
      minSyncCommitteeParticipants := m.minSyncCommitteeParticipants,
      genesisTime := m.genesisTime,
      forkParameters := m.forkParameters,
      secondsPerSlot := m.secondsPerSlot,
      slotsPerEpoch := m.slotsPerEpoch,
      epochsPerSyncCommitteePeriod := m.epochsPerSyncCommitteePeriod)
  }

  lemma ParametersFold(m: RawClientState)
    requires m.forkParameters.Some? ==> |ForkParametersBytes(m.forkParameters).value| < U64_LIMIT
    ensures Fold(MergeClientState, EMPTY_CLIENT_STATE, ParameterFields(m)) == Some(ParametersOnly(m))
  {
    var m0 := EMPTY_CLIENT_STATE;
    var f1, m1 := BytesField(1, m.genesisValidatorsRoot), m0.(genesisValidatorsRoot := m.genesisValidatorsRoot);
    StepPayload(m0, 1, m.genesisValidatorsRoot);
    var f2 := UintField(2, m.minSyncCommitteeParticipants);
    var m2 := m1.(minSyncCommitteeParticipants := m.minSyncCommitteeParticipants);
    StepUint(m1, 2, m.minSyncCommitteeParticipants);
    FoldThen(MergeClientState, m0, f1, m1, f2, m2);
    var f3, m3 := UintField(3, m.genesisTime), m2.(genesisTime := m.genesisTime);
    StepUint(m2, 3, m.genesisTime);
    FoldThen(MergeClientState, m0, f1 + f2, m2, f3, m3);
    var f4, m4 := MessageField(4, ForkParametersBytes(m.forkParameters)), m3.(forkParameters := m.forkParameters);
    StepForks(m3, m.forkParameters);
    FoldThen(MergeClientState, m0, f1 + f2 + f3, m3, f4, m4);
    var f5, m5 := UintField(5, m.secondsPerSlot), m4.(secondsPerSlot := m.secondsPerSlot);
    StepUint(m4, 5, m.secondsPerSlot);
    FoldThen(MergeClientState, m0, f1 + f2 + f3 + f4, m4, f5, m5);
    var f6, m6 := UintField(6, m.slotsPerEpoch), m5.(slotsPerEpoch := m.slotsPerEpoch);
    StepUint(m5, 6, m.slotsPerEpoch);
    FoldThen(MergeClientState, m0, f1 + f2 + f3 + f4 + f5, m5, f6, m6);
    var f7 := UintField(7, m.epochsPerSyncCommitteePeriod);
    StepUint(m6, 7, m.epochsPerSyncCommitteePeriod);
    FoldThen(MergeClientState, m0, f1 + f2 + f3 + f4 + f5 + f6, m6, f7, ParametersOnly(m));
  }

  lemma PolicyFold(m: RawClientState)
    ensures Fold(MergeClientState, ParametersOnly(m), PolicyFields(m)) == Some(m)
  {
    var m0 := ParametersOnly(m);
    var f1, m1 := BytesField(8, m.ibcAddress), m0.(ibcAddress := m.ibcAddress);
    StepPayload(m0, 8, m.ibcAddress);
    var f2, m2 := BytesField(9, m.ibcCommitmentsSlot), m1.(ibcCommitmentsSlot := m.ibcCommitmentsSlot);
    StepPayload(m1, 9, m.ibcCommitmentsSlot);
    FoldThen(MergeClientState, m0, f1, m1, f2, m2);
    var f3, m3 := MessageField(10, UintPairBytes(m.trustLevel)), m2.(trustLevel := m.trustLevel);
    StepPair(m2, 10, m.trustLevel);
    FoldThen(MergeClientState, m0, f1 + f2, m2, f3, m3);
    var f4, m4 := MessageField(11, SecondsNanosBytes(m.trustingPeriod)), m3.(trustingPeriod := m.trustingPeriod);
    StepSeconds(m3, 11, m.trustingPeriod);
    FoldThen(MergeClientState, m0, f1 + f2 + f3, m3, f4, m4);
    var f5, m5 := MessageField(12, SecondsNanosBytes(m.maxClockDrift)), m4.(maxClockDrift := m.maxClockDrift);
    StepSeconds(m4, 12, m.maxClockDrift);
    FoldThen(MergeClientState, m0, f1 + f2 + f3 + f4, m4, f5, m5);
    var f6 := UintField(13, m.latestExecutionBlockNumber);
    var m6 := m5.(latestExecutionBlockNumber := m.latestExecutionBlockNumber);
    StepUint(m5, 13, m.latestExecutionBlockNumber);
    FoldThen(MergeClientState, m0, f1 + f2 + f3 + f4 + f5, m5, f6, m6);
    StepPair(m6, 14, m.frozenHeight);
    FoldThen(MergeClientState, m0, f1 + f2 + f3 + f4 + f5 + f6, m6, MessageField(14, UintPairBytes(m.frozenHeight)), m);
  }

  lemma FieldsShaped(m: RawClientState)
    ensures AllShaped(ClientStateFields(m))
  {
    ShapedSeven(
      BytesField(1, m.genesisValidatorsRoot), UintField(2, m.minSyncCommitteeParticipants),
      UintField(3, m.genesisTime), MessageField(4, ForkParametersBytes(m.forkParameters)),
      UintField(5, m.secondsPerSlot), UintField(6, m.slotsPerEpoch), UintField(7, m.epochsPerSyncCommitteePeriod));
    ShapedSeven(
      BytesField(8, m.ibcAddress), BytesField(9, m.ibcCommitmentsSlot), MessageField(10, UintPairBytes(m.trustLevel)),
      MessageField(11, SecondsNanosBytes(m.trustingPeriod)), MessageField(12, SecondsNanosBytes(m.maxClockDrift)),
      UintField(13, m.latestExecutionBlockNumber), MessageField(14, UintPairBytes(m.frozenHeight)));
    ShapedAppend(ParameterFields(m), PolicyFields(m));
  }

  lemma ForksPayloadFits(m: RawClientState)
    requires RawFits(m) && m.forkParameters.Some?
    ensures |ForkParametersBytes(m.forkParameters).value| < U64_LIMIT
  {
    FieldsShaped(m);
    PayloadsFit(ClientStateFields(m));
    var before := BytesField(1, m.genesisValidatorsRoot) + UintField(2, m.minSyncCommitteeParticipants)
      + UintField(3, m.genesisTime);
    var f := Field(4, Payload(ForkParametersBytes(m.forkParameters).value));
    assert ParameterFields(m)[|before|] == f;
    assert ClientStateFields(m)[|before|] == f;
  }

  /** Every raw struct whose encoding has a 64-bit length survives the wire. */
  lemma RawRoundTrip(m: RawClientState)
    requires RawFits(m)
    ensures DecodeRaw(FieldsBytes(ClientStateFields(m))) == Some(m)
  {
    FieldsShaped(m);
    FittingRoundTrip(ClientStateFields(m), RECURSION_LIMIT);
    if m.forkParameters.Some? {
      ForksPayloadFits(m);
    }
    ParametersFold(m);
    PolicyFold(m);
    FoldThen(MergeClientState, EMPTY_CLIENT_STATE, ParameterFields(m), ParametersOnly(m), PolicyFields(m), m);
  }

  // ---------------------------------------------------------------- domain state to raw struct and back

  function ToRawForks(forks: seq<Fork>): seq<RawFork> {
    if forks == [] then []
    else [RawFork(forks[0].version, forks[0].epoch, Some(forks[0].spec))] + ToRawForks(forks[1..])
  }

  function FromRawForks(raw: seq<RawFork>): Result<seq<Fork>> {
    if raw == [] then Ok([])
    else if |raw[0].version| != 4 then Err(InvalidRawState)
    else if raw[0].spec.None? then Err(ProtoMissingField)
    else
      var rest :- FromRawForks(raw[1..]);
      Ok([Fork(raw[0].version, raw[0].epoch, raw[0].spec.value)] + rest)
  }

  function FromRawForkParameters(x: Externals, m: RawForkParameters): Result<ForkParameters> {
    if |m.genesisForkVersion| != 4 then Err(InvalidRawState)
    else
      var forks :- FromRawForks(m.forks);
      var p := ForkParameters(m.genesisForkVersion, forks);
      if x.forksAccepted(p) then Ok(p) else Err(InvalidRawState)
  }

  /** A raw duration has signed 64-bit seconds; longer spans are cut to the largest of them. */
  function ToRawDuration(d: Duration): SecondsNanos {
    SecondsNanos(if d.secs <= I64_MAX then d.secs else I64_MAX, d.nanos)
  }

  /** Normalises a raw duration; a negative one is rejected, one that overflows is cut. */
  function FromRawDuration(r: SecondsNanos): Option<Duration> {
    var total := r.seconds * NANOS_PER_SECOND + r.nanos;
    if total < 0 then None
    else if total / NANOS_PER_SECOND > I64_MAX then Some(Duration(I64_MAX, NANOS_PER_SECOND - 1))
    else Some(Duration(total / NANOS_PER_SECOND, total % NANOS_PER_SECOND))
  }

  function ToRaw(c: ClientState): RawClientState {
    RawClientState(
      c.genesisValidatorsRoot,
      c.minSyncCommitteeParticipants,
      c.genesisTime,
      Some(RawForkParameters(c.forkParameters.genesisVersion, ToRawForks(c.forkParameters.forks))),
      c.secondsPerSlot,
      c.slotsPerEpoch,
      c.epochsPerSyncCommitteePeriod,
      c.ibcAddress,
      c.ibcCommitmentsSlot,
      Some(UintPair(c.trustLevel.numerator, c.trustLevel.denominator)),
      Some(ToRawDuration(c.trustingPeriod)),
      Some(ToRawDuration(c.maxClockDrift)),
      c.latestExecutionBlockNumber,
      if c.frozenHeight.None? then None
      else Some(UintPair(c.frozenHeight.value.revisionNumber, c.frozenHeight.value.revisionHeight)))
  }

  function FromRaw(x: Externals, m: RawClientState): Result<ClientState> {
    if m.forkParameters.None? then Err(ProtoMissingField)
    else
      var forkParameters :- FromRawForkParameters(x, m.forkParameters.value);
      if m.trustLevel.None? then Err(ProtoMissingField)
      else if |m.genesisValidatorsRoot| != 32 || |m.ibcCommitmentsSlot| != 32 then Err(InvalidRawState)
      else if |m.ibcAddress| != 20 then Err(UnexpectedStoreAddress)
      else
        var trustLevel := Fraction(m.trustLevel.value.first, m.trustLevel.value.second);
        if !x.fractionAccepted(trustLevel) then Err(Verification)
        else
          var trustingPeriod :- RequireDuration(m.trustingPeriod, MissingTrustingPeriod);
          var maxClockDrift :- RequireDuration(m.maxClockDrift, NegativeMaxClockDrift);
          Ok(ClientState(
            m.genesisValidatorsRoot,
            m.minSyncCommitteeParticipants,
            m.genesisTime,
            forkParameters,
            m.secondsPerSlot,
            m.slotsPerEpoch,
            m.epochsPerSyncCommitteePeriod,
            m.ibcAddress,
            m.ibcCommitmentsSlot,
            trustLevel,
            trustingPeriod,
            maxClockDrift,
            m.latestExecutionBlockNumber,
            if m.frozenHeight.None? then None
            else Some(Height(m.frozenHeight.value.first, m.frozenHeight.value.second))))
  }

  function RequireDuration(r: Option<SecondsNanos>, error: Error): Result<Duration> {
    if r.None? then Err(error)
    else
      match FromRawDuration(r.value)
      case None => Err(error)
      case Some(d) => Ok(d)
  }

  // ---------------------------------------------------------------- domain state to Any and back

  function Encode(c: ClientState): Any {
    Any(CLIENT_STATE_TYPE_URL, FieldsBytes(ClientStateFields(ToRaw(c))))
  }

  function Decode(x: Externals, any: Any): Result<ClientState> {
    if any.typeUrl != CLIENT_STATE_TYPE_URL then Err(UnknownType)
    else
      match DecodeRaw(any.value)
      case None => Err(ProtoDecode)
      case Some(m) => FromRaw(x, m)
  }

  // ---------------------------------------------------------------- round trips

  predicate Fits(c: ClientState) {
    RawFits(ToRaw(c))
  }

  /** What the decoder can produce: both durations within signed 64-bit seconds, and fork
      parameters and trust level that their constructors accept. */
  predicate Representable(x: Externals, c: ClientState) {
    && c.trustingPeriod.secs <= I64_MAX
    && c.maxClockDrift.secs <= I64_MAX
    && x.forksAccepted(c.forkParameters)
    && x.fractionAccepted(c.trustLevel)
  }

  lemma {:induction false} RawForksRoundTrip(forks: seq<Fork>)
    ensures FromRawForks(ToRawForks(forks)) == Ok(forks)
  {
    if forks != [] {
      RawForksRoundTrip(forks[1..]);
      assert ToRawForks(forks)[1..] == ToRawForks(forks[1..]);
      assert [forks[0]] + forks[1..] == forks;
    }
  }

  lemma DurationRoundTrip(d: Duration)
    ensures FromRawDuration(ToRawDuration(d)) == Some(if d.secs <= I64_MAX then d else Duration(I64_MAX, d.nanos))
  {
    var r := ToRawDuration(d);
    assert (r.seconds * NANOS_PER_SECOND + d.nanos) / NANOS_PER_SECOND == r.seconds;
    assert (r.seconds * NANOS_PER_SECOND + d.nanos) % NANOS_PER_SECOND == d.nanos;
  }

  lemma RawStructRoundTrip(x: Externals, c: ClientState)
    ensures FromRaw(x, ToRaw(c)) == Ok(c) <==> Representable(x, c)
  {
    RawForksRoundTrip(c.forkParameters.forks);
    DurationRoundTrip(c.trustingPeriod);
    DurationRoundTrip(c.maxClockDrift);
  }

  /** Decoding inverts encoding exactly on the representable client states. */
  lemma RoundTrip(x: Externals, c: ClientState)
    requires Fits(c)
    ensures Decode(x, Encode(c)) == Ok(c) <==> Representable(x, c)
  {
    RawRoundTrip(ToRaw(c));
    RawStructRoundTrip(x, c);
  }

  /** The client state with its two moving fields at their smallest leaves room for any of their
      values within a 64-bit length. */
  predicate Compact(c: ClientState) {
    |FieldsBytes(ClientStateFields(ToRaw(c.(latestExecutionBlockNumber := 0, frozenHeight := None))))| + 64 < U64_LIMIT
  }

  function FixedPolicyFields(m: RawClientState): seq<Field> {
    BytesField(8, m.ibcAddress) + BytesField(9, m.ibcCommitmentsSlot)
    + MessageField(10, UintPairBytes(m.trustLevel))
    + MessageField(11, SecondsNanosBytes(m.trustingPeriod)) + MessageField(12, SecondsNanosBytes(m.maxClockDrift))
  }

  lemma EncodedLength(m: RawClientState)
    ensures |FieldsBytes(ClientStateFields(m))|
         == |FieldsBytes(ParameterFields(m))| + |FieldsBytes(FixedPolicyFields(m))|
            + |FieldsBytes(UintField(13, m.latestExecutionBlockNumber))|
            + |FieldsBytes(MessageField(14, UintPairBytes(m.frozenHeight)))|
  {
    FieldsBytesAppend(ParameterFields(m), PolicyFields(m));
    var latest, frozen := UintField(13, m.latestExecutionBlockNumber), MessageField(14, UintPairBytes(m.frozenHeight));
    FieldsBytesAppend(FixedPolicyFields(m) + latest, frozen);
    FieldsBytesAppend(FixedPolicyFields(m), latest);
  }

  lemma PairPayloadLength(tag: nat, p: UintPair)
    requires tag < 15
    ensures |FieldsBytes(MessageField(tag, UintPairBytes(Some(p))))| <= 24
  {
    FieldsBytesAppend(UintField(1, p.first), UintField(2, p.second));
    UintFieldLength(1, p.first);
    UintFieldLength(2, p.second);
    assert |FieldsBytes(UintPairFields(p))| <= 22;
    SmallPayloadLength(tag, FieldsBytes(UintPairFields(p)));
  }

  lemma CompactFits(c: ClientState)
    requires Compact(c)
    ensures Fits(c)
  {
    var m, base := ToRaw(c), ToRaw(c.(latestExecutionBlockNumber := 0, frozenHeight := None));
    EncodedLength(m);
    EncodedLength(base);
    UintFieldLength(13, m.latestExecutionBlockNumber);
    if m.frozenHeight.Some? {
      PairPayloadLength(14, m.frozenHeight.value);
    }
  }

  lemma FromRawDurationBounded(r: SecondsNanos)
    ensures FromRawDuration(r).Some? ==> FromRawDuration(r).value.secs <= I64_MAX
  {}

  lemma FromRawRepresentable(x: Externals, m: RawClientState)
    requires FromRaw(x, m).Ok?
    ensures Representable(x, FromRaw(x, m).value)
  {
    FromRawDurationBounded(m.trustingPeriod.value);
    FromRawDurationBounded(m.maxClockDrift.value);
  }

  /** Everything the decoder accepts is representable. */
  lemma DecodedRepresentable(x: Externals, any: Any)
    requires Decode(x, any).Ok?
    ensures Representable(x, Decode(x, any).value)
  {
    FromRawRepresentable(x, DecodeRaw(any.value).value);
  }

  /** Representable client states have different encodings. */
  lemma EncodeInjective(x: Externals, c: ClientState, d: ClientState)
    requires Fits(c) && Fits(d) && Representable(x, c) && Representable(x, d)
    ensures Encode(c) == Encode(d) <==> c == d
  {
    RoundTrip(x, c);
    RoundTrip(x, d);
  }

  /** Two spans the format cannot tell apart: both are cut to the same number of seconds. */
  lemma LongPeriodsCollide(c: ClientState)
    ensures Encode(c.(trustingPeriod := Duration(I64_MAX + 1, 0))) == Encode(c.(trustingPeriod := Duration(I64_MAX, 0)))
  {
    assert ToRaw(c.(trustingPeriod := Duration(I64_MAX + 1, 0))) == ToRaw(c.(trustingPeriod := Duration(I64_MAX, 0)));
  }

  // ---------------------------------------------------------------- the size of what was decoded

  function ForkSpecSize(s: ForkSpec): nat {
    |FieldsBytes(ForkSpecFields(s))|
  }

  function ForkSize(f: RawFork): nat {
    |FieldsBytes(ForkFields(f))|
  }

  function ForkParametersSize(m: RawForkParameters): nat {
    |FieldsBytes(ForkParametersFields(m))|
  }

  function ForksOf(m: RawClientState): RawForkParameters {
    if m.forkParameters.Some? then m.forkParameters.value else EMPTY_FORKS
  }

  function ForksSize(m: RawClientState): nat {
    ForkParametersSize(ForksOf(m))
  }

  lemma ForkSpecParts(s: ForkSpec)
    ensures ForkSpecSize(s)
         == |FieldsBytes(UintField(1, s.finalizedRootGindex))|
            + |FieldsBytes(UintField(2, s.currentSyncCommitteeGindex))|
            + |FieldsBytes(UintField(3, s.nextSyncCommitteeGindex))|
            + |FieldsBytes(UintField(4, s.executionPayloadGindex))|
            + |FieldsBytes(UintField(5, s.executionPayloadStateRootGindex))|
            + |FieldsBytes(UintField(6, s.executionPayloadBlockNumberGindex))|
            + |FieldsBytes(UintField(7, s.executionBlockHashGindex))|
  {
    var f1, f2, f3 := UintField(1, s.finalizedRootGindex), UintField(2, s.currentSyncCommitteeGindex),
                      UintField(3, s.nextSyncCommitteeGindex);
    var f4, f5 := UintField(4, s.executionPayloadGindex), UintField(5, s.executionPayloadStateRootGindex);
    var f6, f7 := UintField(6, s.executionPayloadBlockNumberGindex), UintField(7, s.executionBlockHashGindex);
    AppendSeven(f1, f2, f3, f4, f5, f6, f7);
  }

  lemma ForkSpecLength(s: ForkSpec)
    ensures ForkSpecSize(s) <= 77
  {
    hide ForkSpecSize;
    ForkSpecParts(s);
    UintFieldLength(1, s.finalizedRootGindex);
    UintFieldLength(2, s.currentSyncCommitteeGindex);
    UintFieldLength(3, s.nextSyncCommitteeGindex);
    UintFieldLength(4, s.executionPayloadGindex);
    UintFieldLength(5, s.executionPayloadStateRootGindex);
    UintFieldLength(6, s.executionPayloadBlockNumberGindex);
    UintFieldLength(7, s.executionBlockHashGindex);
  }

  lemma UintLonger(tag: nat, v: u64, w: u64)
    requires v <= w
    ensures |FieldsBytes(UintField(tag, v))| <= |FieldBytes(Field(tag, Varint(w)))|
  {
    FieldLonger(Field(tag, Varint(v)), Field(tag, Varint(w)));
  }

  lemma GindexGrows(m: ForkSpec, tag: nat, v: u32)
    requires 1 <= tag <= 7
    ensures ForkSpecSize(WithGindex(m, tag, v)) <= ForkSpecSize(m) + |FieldsBytes(UintField(tag, v))|
  {
    hide ForkSpecSize, FieldsBytes, UintField;
    ForkSpecParts(m);
    ForkSpecParts(WithGindex(m, tag, v));
  }

  lemma ForkSpecGrows()
    ensures Grows(MergeForkSpec, ForkSpecSize)
  {
    hide ForkSpecSize, FieldsBytes, FieldBytes, UintField, WithGindex;
    forall m: ForkSpec, f | MergeForkSpec(m, f).Some?
      ensures ForkSpecSize(MergeForkSpec(m, f).value) <= ForkSpecSize(m) + |FieldBytes(f)|
    {
      if 1 <= f.tag <= 7 {
        GindexGrows(m, f.tag, ToU32(f.value.v));
        UintLonger(f.tag, ToU32(f.value.v), f.value.v);
      }
    }
  }

  lemma ForkParts(f: RawFork)
    ensures ForkSize(f)
         == |FieldsBytes(BytesField(1, f.version))| + |FieldsBytes(UintField(2, f.epoch))|
            + (if f.spec.None? then 0 else ForkSpecSize(f.spec.value) + 2)
  {
    FieldsBytesAppend(BytesField(1, f.version), UintField(2, f.epoch));
    FieldsBytesAppend(BytesField(1, f.version) + UintField(2, f.epoch), MessageField(3, ForkSpecBytes(f.spec)));
    if f.spec.Some? {
      ForkSpecLength(f.spec.value);
      SmallPayloadLength(3, ForkSpecBytes(f.spec).value);
    }
  }

  lemma ForkGrows()
    ensures Grows(MergeFork, ForkSize)
  {
    forall m: RawFork, f | MergeFork(m, f).Some?
      ensures ForkSize(MergeFork(m, f).value) <= ForkSize(m) + |FieldBytes(f)|
    {
      hide ForkSize, FieldsBytes, MergeBytes;
      ForkParts(m);
      ForkParts(MergeFork(m, f).value);
      if f.tag == 1 {
        FieldLonger(f, f);
      } else if f.tag == 2 {
        UintLonger(2, f.value.v, f.value.v);
      } else if f.tag == 3 {
        ForkSpecGrows();
        MergeGrows(MergeForkSpec, ForkSpecSize, if m.spec.Some? then m.spec.value else EMPTY_SPEC,
                   f.value.payload, RECURSION_LIMIT - 3);
        assert ForkSpecSize(EMPTY_SPEC) == 0;
      }
    }
  }

  lemma ForkParametersParts(m: RawForkParameters)
    ensures ForkParametersSize(m)
         == |FieldsBytes(BytesField(1, m.genesisForkVersion))| + |FieldsBytes(RepeatedForks(m.forks))|
  {
    FieldsBytesAppend(BytesField(1, m.genesisForkVersion), RepeatedForks(m.forks));
  }

  lemma {:induction false} OneMoreFork(forks: seq<RawFork>, fork: RawFork)
    ensures RepeatedForks(forks + [fork]) == RepeatedForks(forks) + [Field(2, Payload(FieldsBytes(ForkFields(fork))))]
  {
    if forks == [] {
      assert forks + [fork] == [fork] && [fork][1..] == [];
    } else {
      assert (forks + [fork])[0] == forks[0] && (forks + [fork])[1..] == forks[1..] + [fork];
      OneMoreFork(forks[1..], fork);
    }
  }

  lemma ForkParametersGrows()
    ensures Grows(MergeForkParameters, ForkParametersSize)
  {
    forall m: RawForkParameters, f | MergeForkParameters(m, f).Some?
      ensures ForkParametersSize(MergeForkParameters(m, f).value) <= ForkParametersSize(m) + |FieldBytes(f)|
    {
      hide ForkParametersSize, FieldsBytes, FieldBytes, MergeBytes;
      ForkParametersParts(m);
      ForkParametersParts(MergeForkParameters(m, f).value);
      if f.tag == 1 {
        FieldLonger(f, f);
      } else if f.tag == 2 {
        var fork := MergeBytes(MergeFork, EMPTY_FORK, f.value.payload, RECURSION_LIMIT - 2).value;
        ForkGrows();
        MergeGrows(MergeFork, ForkSize, EMPTY_FORK, f.value.payload, RECURSION_LIMIT - 2);
        var g := Field(2, Payload(FieldsBytes(ForkFields(fork))));
        OneMoreFork(m.forks, fork);
        FieldsBytesAppend(RepeatedForks(m.forks), [g]);
        FieldLonger(g, f);
      }
    }
  }

  lemma OtherFields(m: RawClientState, f: Field)
    requires MergeClientState(m, f).Some? && f.tag != 4
    ensures MergeClientState(m, f).value.forkParameters == m.forkParameters
  {
    hide MergeBytes;
  }

  lemma ForksGrow()
    ensures Grows(MergeClientState, ForksSize)
  {
    forall m: RawClientState, f | MergeClientState(m, f).Some?
      ensures ForksSize(MergeClientState(m, f).value) <= ForksSize(m) + |FieldBytes(f)|
    {
      if f.tag == 4 {
        ForksMerged(m, f);
      } else {
        hide MergeClientState;
        OtherFields(m, f);
      }
    }
  }

  lemma ForksMerged(m: RawClientState, f: Field)
    requires MergeClientState(m, f).Some? && f.tag == 4
    ensures ForksSize(MergeClientState(m, f).value) <= ForksSize(m) + |FieldBytes(f)|
  {
    hide ForkParametersSize, MergeBytes;
    ForkParametersGrows();
    MergeGrows(MergeForkParameters, ForkParametersSize, ForksOf(m), f.value.payload, RECURSION_LIMIT - 1);
  }

  lemma {:induction false} ForksRestored(raw: seq<RawFork>)
    requires FromRawForks(raw).Ok?
    ensures ToRawForks(FromRawForks(raw).value) == raw
  {
    if raw != [] {
      ForksRestored(raw[1..]);
      assert FromRawForks(raw).value[1..] == FromRawForks(raw[1..]).value;
    }
  }

  lemma ForkParametersRestored(x: Externals, m: RawClientState)
    requires FromRaw(x, m).Ok?
    ensures ToRaw(FromRaw(x, m).value).forkParameters == m.forkParameters
  {
    hide FromRawForks, ToRawForks, FromRawDuration;
    ForksRestored(m.forkParameters.value.forks);
  }

  /** The fork parameters of a decoded client state take no more bytes than were decoded. */
  lemma DecodedForks(x: Externals, any: Any)
    requires Decode(x, any).Ok?
    ensures |ForkParametersBytes(ToRaw(Decode(x, any).value).forkParameters).value| <= |any.value|
  {
    var m := DecodeRaw(any.value).value;
    ForkParametersRestored(x, m);
    hide FromRaw, ToRaw, MergeBytes, MergeClientState;
    ForksGrow();
    MergeGrows(MergeClientState, ForksSize, EMPTY_CLIENT_STATE, any.value, RECURSION_LIMIT);
  }

  lemma ParametersLength(c: ClientState)
    requires |ForkParametersBytes(ToRaw(c).forkParameters).value| < U64_LIMIT
    ensures |FieldsBytes(ParameterFields(ToRaw(c)))| <= 100 + |ForkParametersBytes(ToRaw(c).forkParameters).value|
  {
    var m := ToRaw(c);
    PayloadLength(4, ForkParametersBytes(m.forkParameters).value);
    SmallPayloadLength(1, c.genesisValidatorsRoot);
    UintFieldLength(2, m.minSyncCommitteeParticipants);
    UintFieldLength(3, m.genesisTime);
    UintFieldLength(5, m.secondsPerSlot);
    UintFieldLength(6, m.slotsPerEpoch);
    UintFieldLength(7, m.epochsPerSyncCommitteePeriod);
    AppendSeven(
      BytesField(1, m.genesisValidatorsRoot), UintField(2, m.minSyncCommitteeParticipants),
      UintField(3, m.genesisTime), MessageField(4, ForkParametersBytes(m.forkParameters)),
      UintField(5, m.secondsPerSlot), UintField(6, m.slotsPerEpoch), UintField(7, m.epochsPerSyncCommitteePeriod));
  }

  lemma SecondsPayloadLength(tag: nat, p: SecondsNanos)
    requires tag < 15
    ensures |FieldsBytes(MessageField(tag, SecondsNanosBytes(Some(p))))| <= 24
  {
    SecondsNanosRoundTrip(p, 0);
    SmallPayloadLength(tag, FieldsBytes(SecondsNanosFields(p)));
  }

  lemma FixedPolicyLength(c: ClientState)
    ensures |FieldsBytes(FixedPolicyFields(ToRaw(c)))| <= 128
  {
    var m := ToRaw(c);
    var f1, f2 := BytesField(8, m.ibcAddress), BytesField(9, m.ibcCommitmentsSlot);
    var f3 := MessageField(10, UintPairBytes(m.trustLevel));
    var f4 := MessageField(11, SecondsNanosBytes(m.trustingPeriod));
    var f5 := MessageField(12, SecondsNanosBytes(m.maxClockDrift));
    SmallPayloadLength(8, c.ibcAddress);
    SmallPayloadLength(9, c.ibcCommitmentsSlot);
    PairPayloadLength(10, m.trustLevel.value);
    SecondsPayloadLength(11, m.trustingPeriod.value);
    SecondsPayloadLength(12, m.maxClockDrift.value);
    AppendSeven(f1, f2, f3, f4, f5, [], []);
    assert f1 + f2 + f3 + f4 + f5 + [] + [] == f1 + f2 + f3 + f4 + f5;
  }

  /** Re-encoding what was decoded takes at most 263 bytes more than were decoded, whatever the two
      moving fields have become: only integers of fixed width can grow, fork parameters never do. */
  lemma ReencodedLength(x: Externals, any: Any, latest: u64, frozen: Option<Height>)
    requires Decode(x, any).Ok? && |any.value| < U64_LIMIT
    ensures var c := Decode(x, any).value.(latestExecutionBlockNumber := latest, frozenHeight := frozen);
            |Encode(c).value| <= |any.value| + 263
  {
    DecodedForks(x, any);
    hide Decode;
    var d := Decode(x, any).value;
    var c := d.(latestExecutionBlockNumber := latest, frozenHeight := frozen);
    var m := ToRaw(c);
    assert m.forkParameters == ToRaw(d).forkParameters;
    hide ForkParametersBytes, ToRawForks;
    EncodedLength(m);
    ParametersLength(c);
    FixedPolicyLength(c);
    UintFieldLength(13, m.latestExecutionBlockNumber);
    if m.frozenHeight.Some? {
      PairPayloadLength(14, m.frozenHeight.value);
    }
  }

  /** A client state decoded from a byte vector leaves room for its moving fields. */
  lemma DecodedCompact(x: Externals, any: Any)
    requires Decode(x, any).Ok? && IsVector(any.value)
    ensures Compact(Decode(x, any).value)
  {
    hide Decode;
    ReencodedLength(x, any, 0, None);
  }

  /** Whatever bytes were accepted, re-encoding the result yields bytes that decode to it again. */
  lemma Normalises(x: Externals, any: Any)
    requires Decode(x, any).Ok? && IsVector(any.value)
    ensures Decode(x, Encode(Decode(x, any).value)) == Decode(x, any)
  {
    hide Decode, Encode, Compact, Fits;
    DecodedRepresentable(x, any);
    DecodedCompact(x, any);
    CompactFits(Decode(x, any).value);
    RoundTrip(x, Decode(x, any).value);
  }
}
