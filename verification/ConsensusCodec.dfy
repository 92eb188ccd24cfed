/** Consensus states as protobuf messages: domain state, raw struct, fields and bytes. */
module ConsensusCodec {
  import opened Types
  import opened Wire
  import opened WellKnown

  const CONSENSUS_STATE_TYPE_URL: string := "/ibc.lightclients.ethereum.v1.ConsensusState"

  datatype RawConsensusState = RawConsensusState(
    slot: u64,
    storageRoot: bytes,
    timestamp: Option<SecondsNanos>,
    currentSyncCommittee: bytes,
    nextSyncCommittee: bytes)

  const EMPTY_CONSENSUS_STATE: RawConsensusState := RawConsensusState(0, [], None, [], [])

  // ---------------------------------------------------------------- raw struct to bytes and back

  function MergeConsensusState(m: RawConsensusState, f: Field): Option<RawConsensusState> {
    match (f.tag, f.value)
    case (1, Varint(v)) => Some(m.(slot := v))
    case (2, Payload(p)) => Some(m.(storageRoot := p))
    case (3, Payload(p)) =>
      var before := if m.timestamp.Some? then m.timestamp.value else NO_SECONDS;
      (match MergeBytes(MergeSecondsNanos, before, p, RECURSION_LIMIT - 1)
       case None => None
       case Some(t) => Some(m.(timestamp := Some(t))))
    case (4, Payload(p)) => Some(m.(currentSyncCommittee := p))
    case (5, Payload(p)) => Some(m.(nextSyncCommittee := p))
    case _ => if 1 <= f.tag <= 5 then None else Some(m)
  }

  function ConsensusStateFields(m: RawConsensusState): seq<Field> {
    UintField(1, m.slot) + BytesField(2, m.storageRoot) + MessageField(3, SecondsNanosBytes(m.timestamp))
    + BytesField(4, m.currentSyncCommittee) + BytesField(5, m.nextSyncCommittee)
  }

  function DecodeRaw(b: bytes): Option<RawConsensusState> {
    MergeBytes(MergeConsensusState, EMPTY_CONSENSUS_STATE, b, RECURSION_LIMIT)
  }

  // ---------------------------------------------------------------- domain state to raw struct and back

  function ToRawTimestamp(t: Time): SecondsNanos {
    SecondsNanos(t / NANOS_PER_SECOND, t % NANOS_PER_SECOND)
  }

  function FromRawTimestamp(t: SecondsNanos): Result<Time> {
    if t.nanos < 0 then Err(InvalidRawState)
    else
      var nanos := t.seconds * NANOS_PER_SECOND + t.nanos;
      if t.nanos < NANOS_PER_SECOND && 0 <= nanos <= TIME_MAX then Ok(nanos) else Err(TimestampOutOfRange)
  }

  function ToRaw(c: ConsensusState): RawConsensusState {
    RawConsensusState(c.slot, c.storageRoot, Some(ToRawTimestamp(c.timestamp)),
                      c.currentSyncCommittee, c.nextSyncCommittee)
  }

  function ToPublicKey(b: bytes): Result<PublicKey> {
    if |b| == 48 then Ok(b) else Err(InvalidRawState)
  }

  function FromRaw(m: RawConsensusState): Result<ConsensusState> {
    if m.nextSyncCommittee == [] then Err(InvalidRawState)
    else
      var next :- ToPublicKey(m.nextSyncCommittee);
      if m.timestamp.None? || |m.storageRoot| != 32 then Err(InvalidRawState)
      else
        var timestamp :- FromRawTimestamp(m.timestamp.value);
        var current :- ToPublicKey(m.currentSyncCommittee);
        Ok(ConsensusState(m.slot, m.storageRoot, timestamp, current, next))
  }

  // ---------------------------------------------------------------- domain state to Any and back

  function Encode(c: ConsensusState): Any {
    Any(CONSENSUS_STATE_TYPE_URL, FieldsBytes(ConsensusStateFields(ToRaw(c))))
  }

  function Decode(any: Any): Result<ConsensusState> {
    if any.typeUrl != CONSENSUS_STATE_TYPE_URL then Err(UnknownType)
    else
      match DecodeRaw(any.value)
      case None => Err(ProtoDecode)
      case Some(m) => FromRaw(m)
  }

  // ---------------------------------------------------------------- round trips

  predicate Fits(b: bytes) {
    |b| < U64_LIMIT
  }

  lemma MergeTimestampField(m: RawConsensusState, t: Option<SecondsNanos>)
    requires m.timestamp.None?
    ensures Fold(MergeConsensusState, m, MessageField(3, SecondsNanosBytes(t))) == Some(m.(timestamp := t))
  {
    if t.Some? {
      SecondsNanosRoundTrip(t.value, RECURSION_LIMIT - 1);
      FoldOne(MergeConsensusState, m, Field(3, Payload(SecondsNanosBytes(t).value)));
    }
  }

  lemma ConsensusStateFold(m: RawConsensusState)
    ensures Fold(MergeConsensusState, EMPTY_CONSENSUS_STATE, ConsensusStateFields(m)) == Some(m)
  {
    var m0 := EMPTY_CONSENSUS_STATE;
    var f1, m1 := UintField(1, m.slot), m0.(slot := m.slot);
    FoldOne(MergeConsensusState, m0, Field(1, Varint(m.slot)));
    var f2, m2 := BytesField(2, m.storageRoot), m1.(storageRoot := m.storageRoot);
    FoldOne(MergeConsensusState, m1, Field(2, Payload(m.storageRoot)));
    FoldThen(MergeConsensusState, m0, f1, m1, f2, m2);
    var f3, m3 := MessageField(3, SecondsNanosBytes(m.timestamp)), m2.(timestamp := m.timestamp);
    MergeTimestampField(m2, m.timestamp);
    FoldThen(MergeConsensusState, m0, f1 + f2, m2, f3, m3);
    var f4, m4 := BytesField(4, m.currentSyncCommittee), m3.(currentSyncCommittee := m.currentSyncCommittee);
    FoldOne(MergeConsensusState, m3, Field(4, Payload(m.currentSyncCommittee)));
    FoldThen(MergeConsensusState, m0, f1 + f2 + f3, m3, f4, m4);
    var f5 := BytesField(5, m.nextSyncCommittee);
    FoldOne(MergeConsensusState, m4, Field(5, Payload(m.nextSyncCommittee)));
    FoldThen(MergeConsensusState, m0, f1 + f2 + f3 + f4, m4, f5, m);
  }

  /** Every raw struct whose byte strings have a 64-bit length survives the wire. */
  lemma RawRoundTrip(m: RawConsensusState)
    requires Fits(m.storageRoot) && Fits(m.currentSyncCommittee) && Fits(m.nextSyncCommittee)
    ensures DecodeRaw(FieldsBytes(ConsensusStateFields(m))) == Some(m)
  {
    if m.timestamp.Some? {
      SecondsNanosRoundTrip(m.timestamp.value, RECURSION_LIMIT - 1);
    }
    FieldsRoundTrip(ConsensusStateFields(m), RECURSION_LIMIT);
    ConsensusStateFold(m);
  }

  lemma FieldsWritable(c: ConsensusState)
    ensures forall i :: 0 <= i < |ConsensusStateFields(ToRaw(c))| ==> Writable(ConsensusStateFields(ToRaw(c))[i])
  {
    var m := ToRaw(c);
    var f1, f2 := UintField(1, m.slot), BytesField(2, m.storageRoot);
    var f3 := MessageField(3, SecondsNanosBytes(m.timestamp));
    var f4, f5 := BytesField(4, m.currentSyncCommittee), BytesField(5, m.nextSyncCommittee);
    SecondsNanosRoundTrip(ToRawTimestamp(c.timestamp), RECURSION_LIMIT - 1);
    WritableAppend(f1, f2);
    WritableAppend(f1 + f2, f3);
    WritableAppend(f1 + f2 + f3, f4);
    WritableAppend(f1 + f2 + f3 + f4, f5);
  }

  /** The division and remainder that split a timestamp are undone. */
  lemma RawStructRoundTrip(c: ConsensusState)
    ensures FromRaw(ToRaw(c)) == Ok(c)
  {
    var t := ToRawTimestamp(c.timestamp);
    assert t.seconds * NANOS_PER_SECOND + t.nanos == c.timestamp;
    assert FromRawTimestamp(t) == Ok(c.timestamp);
  }

  /** Decoding inverts encoding for every consensus state. */
  lemma RoundTrip(c: ConsensusState)
    ensures Decode(Encode(c)) == Ok(c)
  {
    var m := ToRaw(c);
    assert DecodeRaw(Encode(c).value) == Some(m) by { RawRoundTrip(m); }
    assert FromRaw(m) == Ok(c) by { RawStructRoundTrip(c); }
  }

  /** Whatever bytes were accepted, re-encoding the result yields bytes that decode to it again. */
  lemma Normalises(any: Any)
    requires Decode(any).Ok?
    ensures Decode(Encode(Decode(any).value)) == Decode(any)
  {
    RoundTrip(Decode(any).value);
  }

  /** No two consensus states share an encoding. */
  lemma EncodeInjective(c: ConsensusState, d: ConsensusState)
    ensures Encode(c) == Encode(d) <==> c == d
  {
    RoundTrip(c);
    RoundTrip(d);
  }
}
