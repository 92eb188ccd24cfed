/** What a sequence of fields says under each tag, found without decoding: the last scalar, the
    payloads in order, and the fields inside them. The decoders are proved against these readings. */
module Fields {
  import opened Types
  import opened Wire
  import opened WellKnown

  /** The last varint under a tag, or 0. */
  function UintAt(fs: seq<Field>, tag: nat): u64 {
    if fs == [] then 0
    else
      var f := fs[|fs| - 1];
      if f.tag == tag && f.value.Varint? then f.value.v else UintAt(fs[..|fs| - 1], tag)
  }

  /** The last payload under a tag, or the empty one. */
  function BytesAt(fs: seq<Field>, tag: nat): bytes {
    if fs == [] then []
    else
      var f := fs[|fs| - 1];
      if f.tag == tag && f.value.Payload? then f.value.payload else BytesAt(fs[..|fs| - 1], tag)
  }

  /** All payloads under a tag, in order. */
  function Payloads(fs: seq<Field>, tag: nat): seq<bytes> {
    if fs == [] then []
    else
      var f := fs[|fs| - 1];
      Payloads(fs[..|fs| - 1], tag) + (if f.tag == tag && f.value.Payload? then [f.value.payload] else [])
  }

  /** The fields of an encoded message, if it can be split into fields. */
  function Parsed(b: bytes, limit: nat): seq<Field> {
    match ParseFields(b, limit) case None => [] case Some(fs) => fs
  }

  /** The fields of all payloads under a tag, one after the other: occurrences of a sub-message are
      merged by reading them as one. */
  function Inner(fs: seq<Field>, tag: nat, limit: nat): seq<Field> {
    if fs == [] then []
    else
      var f := fs[|fs| - 1];
      Inner(fs[..|fs| - 1], tag, limit)
      + (if f.tag == tag && f.value.Payload? then Parsed(f.value.payload, limit) else [])
  }

  predicate All(ok: Field -> bool, fs: seq<Field>) {
    forall i :: 0 <= i < |fs| ==> ok(fs[i])
  }

  /** A payload that splits into fields of which all are right. */
  predicate AllIn(ok: Field -> bool, p: bytes, limit: nat) {
    ParseFields(p, limit).Some? && All(ok, Parsed(p, limit))
  }

  /** The same for every occurrence under a tag. */
  predicate AllUnder(ok: Field -> bool, fs: seq<Field>, tag: nat, limit: nat) {
    forall i :: 0 <= i < |fs| && fs[i].tag == tag ==> fs[i].value.Payload? && AllIn(ok, fs[i].value.payload, limit)
  }

  // ---------------------------------------------------------------- readings of a longer sequence

  lemma ReadNext(fs: seq<Field>, f: Field, tag: nat, limit: nat)
    ensures UintAt(fs + [f], tag) == if f.tag == tag && f.value.Varint? then f.value.v else UintAt(fs, tag)
    ensures BytesAt(fs + [f], tag) == if f.tag == tag && f.value.Payload? then f.value.payload else BytesAt(fs, tag)
    ensures Payloads(fs + [f], tag)
         == if f.tag == tag && f.value.Payload? then Payloads(fs, tag) + [f.value.payload] else Payloads(fs, tag)
    ensures Inner(fs + [f], tag, limit)
         == if f.tag == tag && f.value.Payload? then Inner(fs, tag, limit) + Parsed(f.value.payload, limit)
            else Inner(fs, tag, limit)
  {
    assert (fs + [f])[..|fs|] == fs;
  }

  lemma OtherTag(fs: seq<Field>, f: Field, tag: nat, limit: nat)
    requires f.tag != tag
    ensures UintAt(fs + [f], tag) == UintAt(fs, tag)
    ensures BytesAt(fs + [f], tag) == BytesAt(fs, tag)
    ensures Payloads(fs + [f], tag) == Payloads(fs, tag)
    ensures Inner(fs + [f], tag, limit) == Inner(fs, tag, limit)
  {
    ReadNext(fs, f, tag, limit);
  }

  lemma {:induction false} NoPayloads(fs: seq<Field>, tag: nat, limit: nat)
    requires Payloads(fs, tag) == []
    ensures Inner(fs, tag, limit) == []
  {
    if fs != [] {
      NoPayloads(fs[..|fs| - 1], tag, limit);
    }
  }

  lemma {:induction false} PayloadsAppend(fs: seq<Field>, gs: seq<Field>, tag: nat)
    ensures Payloads(fs + gs, tag) == Payloads(fs, tag) + Payloads(gs, tag)
  {
    if gs == [] {
      assert fs + gs == fs;
    } else {
      var init := gs[..|gs| - 1];
      assert (fs + gs)[..|fs + gs| - 1] == fs + init;
      PayloadsAppend(fs, init, tag);
    }
  }

  /** Only one of five parts has payloads under the tag. */
  lemma PayloadsOfThird(a: seq<Field>, b: seq<Field>, c: seq<Field>, d: seq<Field>, e: seq<Field>, tag: nat)
    requires Payloads(a, tag) == [] && Payloads(b, tag) == [] && Payloads(d, tag) == [] && Payloads(e, tag) == []
    ensures Payloads(a + b + c + d + e, tag) == Payloads(c, tag)
  {
    PayloadsAppend(a, b, tag);
    PayloadsAppend(a + b, c, tag);
    PayloadsAppend(a + b + c, d, tag);
    PayloadsAppend(a + b + c + d, e, tag);
  }

  lemma UintPayloads(tag: nat, v: u64, t: nat)
    ensures Payloads(UintField(tag, v), t) == []
  {
    assert UintField(tag, v) != [] ==> UintField(tag, v)[..0] == [];
  }

  lemma BytesPayloads(tag: nat, p: bytes, t: nat)
    requires t != tag
    ensures Payloads(BytesField(tag, p), t) == []
  {
    assert BytesField(tag, p) != [] ==> BytesField(tag, p)[..0] == [];
  }

  lemma MessagePayloads(tag: nat, p: Option<bytes>, t: nat)
    ensures Payloads(MessageField(tag, p), t) == if t == tag && p.Some? then [p.value] else []
  {
    assert p.Some? ==> MessageField(tag, p)[..0] == [];
  }

  lemma {:induction false} FoldLast<M>(merge: (M, Field) -> Option<M>, m: M, fs: seq<Field>, f: Field)
    ensures Fold(merge, m, fs + [f])
         == match Fold(merge, m, fs) case None => None case Some(m') => merge(m', f)
  {
    if fs == [] {
      assert fs + [f] == [f];
      FoldOne(merge, m, f);
    } else {
      assert (fs + [f])[0] == fs[0] && (fs + [f])[1..] == fs[1..] + [f];
      match merge(m, fs[0])
      case None =>
      case Some(m') => FoldLast(merge, m', fs[1..], f);
    }
  }

  // ---------------------------------------------------------------- decoders and readings

  /** A decoder takes one more field exactly when the field is right, and then holds what the fields
      so far and this one say. */
  ghost predicate Reads<M(!new)>(
    merge: (M, Field) -> Option<M>, empty: M, ok: Field -> bool, read: seq<Field> -> M)
  {
    && read([]) == empty
    && forall fs, f :: All(ok, fs) ==> merge(read(fs), f) == if ok(f) then Some(read(fs + [f])) else None
  }

  /** Then it accepts exactly the sequences of right fields, and yields what they say. */
  lemma {:induction false} FoldReads<M(!new)>(
    merge: (M, Field) -> Option<M>, empty: M, ok: Field -> bool, read: seq<Field> -> M, fs: seq<Field>)
    requires Reads(merge, empty, ok, read)
    ensures Fold(merge, empty, fs) == if All(ok, fs) then Some(read(fs)) else None
  {
    if fs != [] {
      var init, f := fs[..|fs| - 1], fs[|fs| - 1];
      assert fs == init + [f];
      FoldReads(merge, empty, ok, read, init);
      FoldLast(merge, empty, init, f);
      AllLast(ok, init, f);
    }
  }

  lemma AllLast(ok: Field -> bool, fs: seq<Field>, f: Field)
    ensures All(ok, fs + [f]) <==> All(ok, fs) && ok(f)
  {
    assert (fs + [f])[|fs|] == f;
    assert forall i :: 0 <= i < |fs| ==> (fs + [f])[i] == fs[i];
  }

  lemma AllAppend(ok: Field -> bool, fs: seq<Field>, gs: seq<Field>)
    ensures All(ok, fs + gs) <==> All(ok, fs) && All(ok, gs)
  {
    assert forall i :: 0 <= i < |fs| ==> (fs + gs)[i] == fs[i];
    assert forall i :: 0 <= i < |gs| ==> (fs + gs)[|fs| + i] == gs[i];
  }

  lemma {:induction false} InnerAll(ok: Field -> bool, fs: seq<Field>, tag: nat, limit: nat)
    requires AllUnder(ok, fs, tag, limit)
    ensures All(ok, Inner(fs, tag, limit))
  {
    if fs != [] {
      var init, f := fs[..|fs| - 1], fs[|fs| - 1];
      InnerAll(ok, init, tag, limit);
      if f.tag == tag {
        AllAppend(ok, Inner(init, tag, limit), Parsed(f.value.payload, limit));
      }
    }
  }

  /** What a field with a sub-message holds so far. */
  function Sub<M>(read: seq<Field> -> M, fs: seq<Field>, tag: nat, limit: nat): Option<M> {
    if Payloads(fs, tag) == [] then None else Some(read(Inner(fs, tag, limit)))
  }

  /** One more occurrence of a sub-message is read after those before. */
  lemma SubNext<M(!new)>(
    merge: (M, Field) -> Option<M>, empty: M, ok: Field -> bool, read: seq<Field> -> M,
    fs: seq<Field>, f: Field, limit: nat)
    requires Reads(merge, empty, ok, read)
    requires f.value.Payload? && AllUnder(ok, fs, f.tag, limit)
    ensures var before := Sub(read, fs, f.tag, limit);
            MergeBytes(merge, if before.Some? then before.value else empty, f.value.payload, limit)
            == if AllIn(ok, f.value.payload, limit) then Sub(read, fs + [f], f.tag, limit) else None
    ensures Payloads(fs + [f], f.tag) != []
  {
    hide Reads, All, MergeBytes, AllUnder, Parsed;
    var inner, p := Inner(fs, f.tag, limit), f.value.payload;
    InnerAll(ok, fs, f.tag, limit);
    ReadNext(fs, f, f.tag, limit);
    if Payloads(fs, f.tag) == [] {
      NoPayloads(fs, f.tag, limit);
      assert read([]) == empty by { ReadsEmpty(merge, empty, ok, read); }
    }
    FoldReads(merge, empty, ok, read, inner);
    MergedNext(merge, empty, inner, p, limit);
    FoldReads(merge, empty, ok, read, inner + Parsed(p, limit));
    AllAppend(ok, inner, Parsed(p, limit));
    ParsedIs(p, limit);
  }

  lemma ReadsEmpty<M(!new)>(
    merge: (M, Field) -> Option<M>, empty: M, ok: Field -> bool, read: seq<Field> -> M)
    requires Reads(merge, empty, ok, read)
    ensures read([]) == empty
  {}

  lemma ParsedIs(p: bytes, limit: nat)
    ensures ParseFields(p, limit).Some? ==> Parsed(p, limit) == ParseFields(p, limit).value
  {}

  /** Merging bytes into a message that was read from fields reads on. */
  lemma MergedNext<M>(merge: (M, Field) -> Option<M>, empty: M, inner: seq<Field>, p: bytes, limit: nat)
    requires Fold(merge, empty, inner).Some?
    ensures MergeBytes(merge, Fold(merge, empty, inner).value, p, limit)
         == match ParseFields(p, limit)
            case None => None
            case Some(fs) => Fold(merge, empty, inner + fs)
  {
    if ParseFields(p, limit).Some? {
      FoldAppend(merge, empty, inner, ParseFields(p, limit).value);
    }
  }

  // ---------------------------------------------------------------- the shared sub-messages

  predicate PairFieldOk(f: Field) {
    1 <= f.tag <= 2 ==> f.value.Varint?
  }

  function SecondsNanosOf(fs: seq<Field>): SecondsNanos {
    SecondsNanos(ToI64(UintAt(fs, 1)), ToI32(UintAt(fs, 2)))
  }

  function UintPairOf(fs: seq<Field>): UintPair {
    UintPair(UintAt(fs, 1), UintAt(fs, 2))
  }

  lemma PairsRead()
    ensures Reads(MergeSecondsNanos, NO_SECONDS, PairFieldOk, SecondsNanosOf)
    ensures Reads(MergeUintPair, NO_PAIR, PairFieldOk, UintPairOf)
  {
    assert SecondsNanosOf([]) == NO_SECONDS && UintPairOf([]) == NO_PAIR;
    forall fs, f
      ensures MergeSecondsNanos(SecondsNanosOf(fs), f)
           == if PairFieldOk(f) then Some(SecondsNanosOf(fs + [f])) else None
      ensures MergeUintPair(UintPairOf(fs), f) == if PairFieldOk(f) then Some(UintPairOf(fs + [f])) else None
    {
      hide UintAt, ToI64, ToI32;
      ReadNext(fs, f, 1, 0);
      ReadNext(fs, f, 2, 0);
    }
  }

  /** Signed integers are read as two's complement, of 64 bits or of the low 32 bits. */
  lemma SignedExact(v: u64, n: i64, k: i32)
    ensures ToI64(v) == n <==> n % 0x1_0000_0000_0000_0000 == v
    ensures ToI32(v) == k <==> k % 0x1_0000_0000 == v % 0x1_0000_0000
    ensures FromSigned(n) == n % 0x1_0000_0000_0000_0000
  {}

  // ---------------------------------------------------------------- canonical order

  /** Strictly increasing tags between two bounds, and no varint with its default value: what an
      encoder of non-repeated fields has to write. */
  predicate Canonical(fs: seq<Field>, low: nat, high: nat) {
    && (forall i :: 0 <= i < |fs| ==> low <= fs[i].tag < high && (fs[i].value.Varint? ==> fs[i].value.v != 0))
    && (forall i, j :: 0 <= i < j < |fs| ==> fs[i].tag < fs[j].tag)
  }

  lemma CanonicalAppend(fs: seq<Field>, gs: seq<Field>, low: nat, middle: nat, high: nat)
    requires low <= middle <= high && Canonical(fs, low, middle) && Canonical(gs, middle, high)
    ensures Canonical(fs + gs, low, high)
  {}

  lemma UintPart(tag: nat, v: u64, ok: Field -> bool)
    ensures Canonical(UintField(tag, v), tag, tag + 1)
    ensures ok(Field(tag, Varint(v))) ==> All(ok, UintField(tag, v))
  {}

  lemma BytesPart(tag: nat, p: bytes, ok: Field -> bool)
    ensures Canonical(BytesField(tag, p), tag, tag + 1)
    ensures ok(Field(tag, Payload(p))) ==> All(ok, BytesField(tag, p))
  {}

  lemma MessagePart(tag: nat, p: Option<bytes>, ok: Field -> bool)
    ensures Canonical(MessageField(tag, p), tag, tag + 1)
    ensures (p.Some? ==> ok(Field(tag, Payload(p.value)))) ==> All(ok, MessageField(tag, p))
  {}

  lemma CanonicalSeven(a: seq<Field>, b: seq<Field>, c: seq<Field>, d: seq<Field>,
                       e: seq<Field>, f: seq<Field>, g: seq<Field>, k: nat)
    requires Canonical(a, k, k + 1) && Canonical(b, k + 1, k + 2) && Canonical(c, k + 2, k + 3)
    requires Canonical(d, k + 3, k + 4) && Canonical(e, k + 4, k + 5) && Canonical(f, k + 5, k + 6)
    requires Canonical(g, k + 6, k + 7)
    ensures Canonical(a + b + c + d + e + f + g, k, k + 7)
  {
    hide Canonical;
    CanonicalAppend(a, b, k, k + 1, k + 2);
    CanonicalAppend(a + b, c, k, k + 2, k + 3);
    CanonicalAppend(a + b + c, d, k, k + 3, k + 4);
    CanonicalAppend(a + b + c + d, e, k, k + 4, k + 5);
    CanonicalAppend(a + b + c + d + e, f, k, k + 5, k + 6);
    CanonicalAppend(a + b + c + d + e + f, g, k, k + 6, k + 7);
  }

  lemma PairsCanonical(t: SecondsNanos, p: UintPair)
    ensures Canonical(SecondsNanosFields(t), 1, 3) && Canonical(UintPairFields(p), 1, 3)
  {}
}
