/** The schema of an encoded consensus state: which field holds what, read and written. */
module ConsensusSchema {
  import opened Types
  import opened Wire
  import opened WellKnown
  import opened Fields
  import opened WireLaws
  import opened ConsensusCodec

  const LIMIT: nat := RECURSION_LIMIT - 1

  /** The wire type each tag has to come with. */
  predicate FieldOk(f: Field) {
    && (f.tag == 1 ==> f.value.Varint?)
    && (f.tag in {2, 4, 5} ==> f.value.Payload?)
    && (f.tag == 3 ==> f.value.Payload? && AllIn(PairFieldOk, f.value.payload, LIMIT))
  }

  /** What the fields say: tag 1 the slot, 2 the storage root, 3 the timestamp, 4 the current and 5 the
      next sync committee. */
  function Read(fs: seq<Field>): RawConsensusState {
    RawConsensusState(
      UintAt(fs, 1), BytesAt(fs, 2), Sub(SecondsNanosOf, fs, 3, LIMIT), BytesAt(fs, 4), BytesAt(fs, 5))
  }

  lemma MergedField(fs: seq<Field>, f: Field)
    requires All(FieldOk, fs)
    ensures MergeConsensusState(Read(fs), f) == if FieldOk(f) then Some(Read(fs + [f])) else None
  {
    hide SecondsNanosOf, AllIn, MergeBytes, AllUnder, UintAt, BytesAt, Payloads, Inner, Parsed, Reads;
    ReadNext(fs, f, 1, LIMIT);
    ReadNext(fs, f, 2, LIMIT);
    ReadNext(fs, f, 3, LIMIT);
    ReadNext(fs, f, 4, LIMIT);
    ReadNext(fs, f, 5, LIMIT);
    if f.tag == 3 && f.value.Payload? {
      TimestampsOk(fs);
      PairsRead();
      SubNext(MergeSecondsNanos, NO_SECONDS, PairFieldOk, SecondsNanosOf, fs, f, LIMIT);
    }
  }

  lemma TimestampsOk(fs: seq<Field>)
    requires All(FieldOk, fs)
    ensures AllUnder(PairFieldOk, fs, 3, LIMIT)
  {
    hide AllIn;
    forall i | 0 <= i < |fs| && fs[i].tag == 3
      ensures fs[i].value.Payload? && AllIn(PairFieldOk, fs[i].value.payload, LIMIT)
    {
      assert FieldOk(fs[i]);
    }
  }

  /** Decoding accepts exactly the sequences of right fields and yields what they say. */
  lemma FieldsRead(fs: seq<Field>)
    ensures Fold(MergeConsensusState, EMPTY_CONSENSUS_STATE, fs) == if All(FieldOk, fs) then Some(Read(fs)) else None
  {
    assert Read([]) == EMPTY_CONSENSUS_STATE;
    hide Read, FieldOk, All, MergeConsensusState;
    forall gs, f | All(FieldOk, gs)
      ensures MergeConsensusState(Read(gs), f) == if FieldOk(f) then Some(Read(gs + [f])) else None
    {
      MergedField(gs, f);
    }
    FoldReads(MergeConsensusState, EMPTY_CONSENSUS_STATE, FieldOk, Read, fs);
  }

  /** The fields of an encoded consensus state say it is `c`: every value under its own tag. */
  predicate Says(fs: seq<Field>, c: ConsensusState) {
    && c.slot == UintAt(fs, 1)
    && c.storageRoot == BytesAt(fs, 2)
    && Payloads(fs, 3) != []
    && 0 <= ToI32(UintAt(Inner(fs, 3, 99), 2)) < 1_000_000_000
    && c.timestamp == ToI64(UintAt(Inner(fs, 3, 99), 1)) * 1_000_000_000 + ToI32(UintAt(Inner(fs, 3, 99), 2))
    && c.currentSyncCommittee == BytesAt(fs, 4)
    && c.nextSyncCommittee == BytesAt(fs, 5)
  }

  lemma StateSays(fs: seq<Field>, c: ConsensusState)
    ensures FromRaw(Read(fs)) == Ok(c) <==> Says(fs, c)
  {
    hide UintAt, BytesAt, Payloads, Inner, ToI64, ToI32;
  }

  /** Bytes decode to `c` exactly when they come under the type URL, split into fields of the right
      wire types, and the last field of each tag says what `c` has there. */
  lemma DecodeExact(any: Any, c: ConsensusState)
    ensures Decode(any) == Ok(c) <==>
            && any.typeUrl == "/ibc.lightclients.ethereum.v1.ConsensusState"
            && ParseFields(any.value, 100).Some?
            && All(FieldOk, ParseFields(any.value, 100).value)
            && Says(ParseFields(any.value, 100).value, c)
  {
    hide All, Read, FieldOk, FromRaw, MergeConsensusState, Says;
    if ParseFields(any.value, 100).Some? {
      var fs := ParseFields(any.value, 100).value;
      FieldsRead(fs);
      StateSays(fs, c);
    }
  }

  /** The encoder writes each field at most once, in the order of tags, omits a zero, and puts every
      value under its own tag. */
  lemma EncodeExact(c: ConsensusState)
    ensures Encode(c).typeUrl == "/ibc.lightclients.ethereum.v1.ConsensusState"
    ensures ParseFields(Encode(c).value, 100).Some?
    ensures var fs := ParseFields(Encode(c).value, 100).value;
            && Says(fs, c)
            && Canonical(fs, 1, 6)
            && Payloads(fs, 3) == [FieldsBytes(SecondsNanosFields(ToRawTimestamp(c.timestamp)))]
            && Canonical(SecondsNanosFields(ToRawTimestamp(c.timestamp)), 1, 3)
  {
    hide Says, Decode, ToRawTimestamp;
    RoundTrip(c);
    DecodeExact(Encode(c), c);
    FieldsWritable(c);
    var m := ToRaw(c);
    FieldsRoundTrip(ConsensusStateFields(m), 100);
    FieldsCanonical(m);
    TimestampPayload(m);
    PairsCanonical(m.timestamp.value, NO_PAIR);
  }

  lemma FieldsCanonical(m: RawConsensusState)
    ensures Canonical(ConsensusStateFields(m), 1, 6)
  {
    var f1, f2 := UintField(1, m.slot), BytesField(2, m.storageRoot);
    var f3 := MessageField(3, SecondsNanosBytes(m.timestamp));
    var f4, f5 := BytesField(4, m.currentSyncCommittee), BytesField(5, m.nextSyncCommittee);
    CanonicalAppend(f1, f2, 1, 2, 3);
    CanonicalAppend(f1 + f2, f3, 1, 3, 4);
    CanonicalAppend(f1 + f2 + f3, f4, 1, 4, 5);
    CanonicalAppend(f1 + f2 + f3 + f4, f5, 1, 5, 6);
  }

  lemma TimestampPayload(m: RawConsensusState)
    requires m.timestamp.Some?
    ensures Payloads(ConsensusStateFields(m), 3) == [FieldsBytes(SecondsNanosFields(m.timestamp.value))]
  {
    var p := Some(FieldsBytes(SecondsNanosFields(m.timestamp.value)));
    UintPayloads(1, m.slot, 3);
    BytesPayloads(2, m.storageRoot, 3);
    MessagePayloads(3, p, 3);
    BytesPayloads(4, m.currentSyncCommittee, 3);
    BytesPayloads(5, m.nextSyncCommittee, 3);
    hide UintField, BytesField, MessageField, FieldsBytes, SecondsNanosFields, Payloads;
    PayloadsOfThird(
      UintField(1, m.slot), BytesField(2, m.storageRoot), MessageField(3, p),
      BytesField(4, m.currentSyncCommittee), BytesField(5, m.nextSyncCommittee), 3);
  }

  /** Fields unknown to the schema, of any wire type and put anywhere, do not change what is decoded. */
  lemma UnknownFields(c: ConsensusState, k: nat, items: Items)
    requires k <= |ConsensusStateFields(ToRaw(c))|
    requires AllAbove(items, 5) && ValidItems(items) && ItemsDepth(items) <= 100
    ensures var fs := ConsensusStateFields(ToRaw(c));
            Decode(Any(CONSENSUS_STATE_TYPE_URL,
                       FieldsBytes(fs[..k]) + (ItemsBytes(items) + FieldsBytes(fs[k..])))) == Ok(c)
  {
    RawUnknownFields(c, k, items);
    RawStructRoundTrip(c);
    hide ConsensusStateFields, FieldsBytes, ItemsBytes, FromRaw, ToRaw, DecodeRaw;
  }

  lemma RawUnknownFields(c: ConsensusState, k: nat, items: Items)
    requires k <= |ConsensusStateFields(ToRaw(c))|
    requires AllAbove(items, 5) && ValidItems(items) && ItemsDepth(items) <= 100
    ensures var fs := ConsensusStateFields(ToRaw(c));
            DecodeRaw(FieldsBytes(fs[..k]) + (ItemsBytes(items) + FieldsBytes(fs[k..]))) == Some(ToRaw(c))
  {
    var fs := ConsensusStateFields(ToRaw(c));
    FieldsWritable(c);
    ConsensusStateFold(ToRaw(c));
    StateIgnores();
    hide ToRaw, ConsensusStateFields, FieldsBytes, ItemsBytes, Ignores, MergeConsensusState, Fold, MergeBytes;
    assert fs[..k] + fs[k..] == fs;
    UnknownIgnored(MergeConsensusState, 5, EMPTY_CONSENSUS_STATE, fs[..k], fs[k..], items, 100);
  }

  lemma StateIgnores()
    ensures Ignores(MergeConsensusState, 5)
  {
    hide MergeBytes;
  }
}
