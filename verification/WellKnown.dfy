/** Two sub-message layouts shared by several fields: seconds and nanoseconds
    (google.protobuf.Timestamp and google.protobuf.Duration), and a pair of unsigned integers
    (the IBC height and the trust level's fraction). */
module WellKnown {
  import opened Types
  import opened Wire

  datatype SecondsNanos = SecondsNanos(seconds: i64, nanos: i32)

  const NO_SECONDS: SecondsNanos := SecondsNanos(0, 0)

  function MergeSecondsNanos(m: SecondsNanos, f: Field): Option<SecondsNanos> {
    match (f.tag, f.value)
    case (1, Varint(v)) => Some(m.(seconds := ToI64(v)))
    case (2, Varint(v)) => Some(m.(nanos := ToI32(v)))
    case _ => if f.tag == 1 || f.tag == 2 then None else Some(m)
  }

  function SecondsNanosFields(t: SecondsNanos): seq<Field> {
    UintField(1, FromSigned(t.seconds)) + UintField(2, FromSigned(t.nanos))
  }

  function SecondsNanosBytes(t: Option<SecondsNanos>): Option<bytes> {
    if t.None? then None else Some(FieldsBytes(SecondsNanosFields(t.value)))
  }

  lemma SecondsNanosFold(t: SecondsNanos)
    ensures Fold(MergeSecondsNanos, NO_SECONDS, SecondsNanosFields(t)) == Some(t)
  {
    var t1 := SecondsNanos(t.seconds, 0);
    FoldOne(MergeSecondsNanos, NO_SECONDS, Field(1, Varint(FromSigned(t.seconds))));
    FoldOne(MergeSecondsNanos, t1, Field(2, Varint(FromSigned(t.nanos))));
    FoldThen(MergeSecondsNanos, NO_SECONDS, UintField(1, FromSigned(t.seconds)), t1,
             UintField(2, FromSigned(t.nanos)), t);
  }

  /** Negative seconds and nanoseconds survive the unsigned varints they travel in. */
  lemma SecondsNanosRoundTrip(t: SecondsNanos, limit: nat)
    ensures MergeBytes(MergeSecondsNanos, NO_SECONDS, FieldsBytes(SecondsNanosFields(t)), limit) == Some(t)
    ensures |FieldsBytes(SecondsNanosFields(t))| <= 22
  {
    FieldsRoundTrip(SecondsNanosFields(t), limit);
    SecondsNanosFold(t);
    FieldsBytesAppend(UintField(1, FromSigned(t.seconds)), UintField(2, FromSigned(t.nanos)));
    UintFieldLength(1, FromSigned(t.seconds));
    UintFieldLength(2, FromSigned(t.nanos));
  }

  datatype UintPair = UintPair(first: u64, second: u64)

  const NO_PAIR: UintPair := UintPair(0, 0)

  function MergeUintPair(m: UintPair, f: Field): Option<UintPair> {
    match (f.tag, f.value)
    case (1, Varint(v)) => Some(m.(first := v))
    case (2, Varint(v)) => Some(m.(second := v))
    case _ => if f.tag == 1 || f.tag == 2 then None else Some(m)
  }

  function UintPairFields(p: UintPair): seq<Field> {
    UintField(1, p.first) + UintField(2, p.second)
  }

  function UintPairBytes(p: Option<UintPair>): Option<bytes> {
    if p.None? then None else Some(FieldsBytes(UintPairFields(p.value)))
  }

  lemma UintPairRoundTrip(p: UintPair, limit: nat)
    ensures MergeBytes(MergeUintPair, NO_PAIR, FieldsBytes(UintPairFields(p)), limit) == Some(p)
  {
    FieldsRoundTrip(UintPairFields(p), limit);
    var p1 := UintPair(p.first, 0);
    FoldOne(MergeUintPair, NO_PAIR, Field(1, Varint(p.first)));
    FoldOne(MergeUintPair, p1, Field(2, Varint(p.second)));
    FoldThen(MergeUintPair, NO_PAIR, UintField(1, p.first), p1, UintField(2, p.second), p);
  }
}
