/** The Protocol Buffers wire format: base-128 varints, keys, length-delimited payloads and skipped
    groups (Protocol Buffers Encoding guide, "Base 128 Varints" and "Message Structure").
    Bytes are split into a sequence of fields; each message type merges its fields one by one. */
module Wire {
  import opened Types

  // ---------------------------------------------------------------- varints

  /** Base-128 little-endian encoding, shortest form. */
  function VarintBytes(v: nat): (b: bytes)
    ensures |b| >= 1
  {
    if v < 128 then [v] else [v % 128 + 128] + VarintBytes(v / 128)
  }

  /** The value of a varint whose first `k` bytes are already read lies below this bound. */
  function VarintBound(k: nat): (n: nat)
    decreases 9 - k
  {
    if k >= 9 then 2 else 128 * VarintBound(k + 1)
  }

  /** Reads a varint of at most ten bytes in all, `k` of them already read; a tenth byte above 1
      would not fit in 64 bits. Non-shortest forms are accepted. */
  function ParseVarintFrom(b: bytes, k: nat): (r: Option<(nat, bytes)>)
    ensures r.Some? ==> |r.value.1| < |b| && r.value.0 < VarintBound(k)
    decreases |b|
  {
    if b == [] || k >= 10 then None
    else if b[0] < 128 then
      if k == 9 && b[0] >= 2 then None
      else
        assert k < 9 ==> VarintBound(k) >= 128 by { if k < 9 { BoundPositive(k + 1); } }
        Some((b[0], b[1..]))
    else if k == 9 then None
    else
      match ParseVarintFrom(b[1..], k + 1)
      case None => None
      case Some(p) => Some((b[0] - 128 + 128 * p.0, p.1))
  }

  lemma BoundPositive(k: nat)
    ensures VarintBound(k) >= 2
    decreases 9 - k
  {}

  lemma BoundAtZero()
    ensures VarintBound(0) == U64_LIMIT
  {
    assert VarintBound(6) == 128 * (128 * (128 * 2));
    assert VarintBound(3) == 128 * (128 * (128 * VarintBound(6)));
    assert VarintBound(0) == 128 * (128 * (128 * VarintBound(3)));
  }

  function ParseVarint(b: bytes): (r: Option<(u64, bytes)>)
    ensures r.Some? ==> |r.value.1| < |b|
  {
    BoundAtZero();
    ParseVarintFrom(b, 0)
  }

  lemma {:induction false} VarintRoundTripFrom(v: nat, rest: bytes, k: nat)
    requires v < VarintBound(k) && k <= 9
    ensures ParseVarintFrom(VarintBytes(v) + rest, k) == Some((v, rest))
    decreases v
  {
    var b := VarintBytes(v) + rest;
    if v < 128 {
      assert b == [v] + rest && b[1..] == rest;
    } else {
      var low, high := v % 128, v / 128;
      BoundStep(v, k);
      VarintRoundTripFrom(high, rest, k + 1);
      assert b == [low + 128] + (VarintBytes(high) + rest);
      assert b[1..] == VarintBytes(high) + rest;
    }
  }

  lemma BoundStep(v: nat, k: nat)
    requires 128 <= v < VarintBound(k) && k <= 9
    ensures k < 9 && v / 128 < VarintBound(k + 1)
  {
    assert k < 9 ==> VarintBound(k) == 128 * VarintBound(k + 1);
  }

  lemma VarintRoundTrip(v: u64, rest: bytes)
    ensures ParseVarint(VarintBytes(v) + rest) == Some((v, rest))
  {
    BoundAtZero();
    VarintRoundTripFrom(v, rest, 0);
  }

  // ---------------------------------------------------------------- fields

  const MAX_TAG: int := 0x1FFF_FFFF
  const RECURSION_LIMIT: nat := 100

  /** Only varints and length-delimited payloads are ever used by the messages here; the other
      wire types are recognised so that unknown fields can be skipped. */
  datatype Value = Varint(v: u64) | Payload(payload: bytes) | Fixed64 | Fixed32 | Group

  datatype Field = Field(tag: nat, value: Value)

  /** A key is a 32-bit varint: the tag above three bits of wire type; tag 0 is not allowed. */
  function ParseKey(b: bytes): (r: Option<(nat, nat, bytes)>)
    ensures r.Some? ==> |r.value.2| < |b|
  {
    match ParseVarint(b)
    case None => None
    case Some(p) =>
      if p.0 >= 0x1_0000_0000 || p.0 % 8 > 5 || p.0 / 8 == 0 then None
      else Some((p.0 / 8, p.0 % 8, p.1))
  }

  function Drop(n: nat, b: bytes): (r: Option<bytes>)
    ensures r.Some? ==> |r.value| <= |b|
  {
    if n <= |b| then Some(b[n..]) else None
  }

  /** Skips the value of a field of any wire type. */
  function Skip(wireType: nat, tag: nat, b: bytes, limit: nat): (r: Option<bytes>)
    ensures r.Some? ==> |r.value| <= |b|
    decreases |b|, 1
  {
    if limit == 0 then None
    else match wireType
      case 0 => (match ParseVarint(b) case None => None case Some(p) => Some(p.1))
      case 1 => Drop(8, b)
      case 2 => (match ParseVarint(b) case None => None case Some(p) => Drop(p.0, p.1))
      case 3 => SkipGroup(tag, b, limit)
      case 5 => Drop(4, b)
      case _ => None
  }

  /** Skips the fields of a group up to and including its matching end key. */
  function SkipGroup(tag: nat, b: bytes, limit: nat): (r: Option<bytes>)
    requires limit > 0
    ensures r.Some? ==> |r.value| <= |b|
    decreases |b|, 0
  {
    match ParseKey(b)
    case None => None
    case Some((innerTag, wireType, rest)) =>
      if wireType == 4 then
        if innerTag == tag then Some(rest) else None
      else
        match Skip(wireType, innerTag, rest, limit - 1)
        case None => None
        case Some(after) => SkipGroup(tag, after, limit)
  }

  function ParseField(b: bytes, limit: nat): (r: Option<(Field, bytes)>)
    ensures r.Some? ==> |r.value.1| < |b|
  {
    match ParseKey(b)
    case None => None
    case Some((tag, wireType, rest)) =>
      if wireType == 0 then
        match ParseVarint(rest)
        case None => None
        case Some(p) => Some((Field(tag, Varint(p.0)), p.1))
      else if wireType == 2 then
        match ParseVarint(rest)
        case None => None
        case Some(p) => if p.0 <= |p.1| then Some((Field(tag, Payload(p.1[..p.0])), p.1[p.0..])) else None
      else
        match Skip(wireType, tag, rest, limit)
        case None => None
        case Some(after) =>
          Some((Field(tag, if wireType == 1 then Fixed64 else if wireType == 5 then Fixed32 else Group), after))
  }

  function ParseFields(b: bytes, limit: nat): Option<seq<Field>>
    decreases |b|
  {
    if b == [] then Some([])
    else
      match ParseField(b, limit)
      case None => None
      case Some((f, rest)) =>
        match ParseFields(rest, limit)
        case None => None
        case Some(fs) => Some([f] + fs)
  }

  /** A field the encoder can write. */
  predicate Writable(f: Field) {
    && 1 <= f.tag <= MAX_TAG
    && (f.value.Varint? || (f.value.Payload? && |f.value.payload| < U64_LIMIT))
  }

  function FieldBytes(f: Field): bytes {
    match f.value
    case Varint(v) => VarintBytes(f.tag * 8) + VarintBytes(v)
    case Payload(p) => VarintBytes(f.tag * 8 + 2) + VarintBytes(|p|) + p
    case _ => []
  }

  function FieldsBytes(fs: seq<Field>): bytes {
    if fs == [] then [] else FieldBytes(fs[0]) + FieldsBytes(fs[1..])
  }

  lemma KeyRoundTrip(tag: nat, wireType: nat, rest: bytes)
    requires 1 <= tag <= MAX_TAG && wireType <= 5
    ensures ParseKey(VarintBytes(tag * 8 + wireType) + rest) == Some((tag, wireType, rest))
  {
    VarintRoundTrip(tag * 8 + wireType, rest);
  }

  lemma VarintFieldRoundTrip(tag: nat, v: u64, rest: bytes, limit: nat)
    requires 1 <= tag <= MAX_TAG
    ensures ParseField(VarintBytes(tag * 8) + VarintBytes(v) + rest, limit) == Some((Field(tag, Varint(v)), rest))
  {
    var key, value := VarintBytes(tag * 8), VarintBytes(v);
    Associative(key, value, rest);
    KeyRoundTrip(tag, 0, value + rest);
    VarintRoundTrip(v, rest);
  }

  lemma PayloadFieldRoundTrip(tag: nat, p: bytes, rest: bytes, limit: nat)
    requires 1 <= tag <= MAX_TAG && |p| < U64_LIMIT
    ensures ParseField(VarintBytes(tag * 8 + 2) + VarintBytes(|p|) + p + rest, limit)
         == Some((Field(tag, Payload(p)), rest))
  {
    var key, length := VarintBytes(tag * 8 + 2), VarintBytes(|p|);
    assert key + length + p + rest == key + (length + (p + rest));
    KeyRoundTrip(tag, 2, length + (p + rest));
    VarintRoundTrip(|p|, p + rest);
  }

  lemma FieldRoundTrip(f: Field, rest: bytes, limit: nat)
    requires Writable(f)
    ensures ParseField(FieldBytes(f) + rest, limit) == Some((f, rest))
  {
    if f.value.Varint? {
      VarintFieldRoundTrip(f.tag, f.value.v, rest, limit);
    } else {
      PayloadFieldRoundTrip(f.tag, f.value.payload, rest, limit);
    }
  }

  /** Parsing inverts printing on every sequence of writable fields. */
  lemma {:induction false} FieldsRoundTrip(fs: seq<Field>, limit: nat)
    requires forall i :: 0 <= i < |fs| ==> Writable(fs[i])
    ensures ParseFields(FieldsBytes(fs), limit) == Some(fs)
  {
    if fs != [] {
      FieldRoundTrip(fs[0], FieldsBytes(fs[1..]), limit);
      FieldsRoundTrip(fs[1..], limit);
      assert [fs[0]] + fs[1..] == fs;
    }
  }

  lemma {:induction false} FieldsBytesAppend(fs: seq<Field>, gs: seq<Field>)
    ensures FieldsBytes(fs + gs) == FieldsBytes(fs) + FieldsBytes(gs)
  {
    if fs == [] {
      assert fs + gs == gs;
      assert FieldsBytes(fs) == [];
    } else {
      assert (fs + gs)[0] == fs[0] && (fs + gs)[1..] == fs[1..] + gs;
      FieldsBytesAppend(fs[1..], gs);
      Associative(FieldBytes(fs[0]), FieldsBytes(fs[1..]), FieldsBytes(gs));
    }
  }

  lemma Associative(a: bytes, b: bytes, c: bytes)
    ensures a + (b + c) == (a + b) + c
  {}

  lemma AppendSeven(a: seq<Field>, b: seq<Field>, c: seq<Field>, d: seq<Field>,
                    e: seq<Field>, f: seq<Field>, g: seq<Field>)
    ensures |FieldsBytes(a + b + c + d + e + f + g)|
         == |FieldsBytes(a)| + |FieldsBytes(b)| + |FieldsBytes(c)| + |FieldsBytes(d)|
            + |FieldsBytes(e)| + |FieldsBytes(f)| + |FieldsBytes(g)|
  {
    FieldsBytesAppend(a, b);
    FieldsBytesAppend(a + b, c);
    FieldsBytesAppend(a + b + c, d);
    FieldsBytesAppend(a + b + c + d, e);
    FieldsBytesAppend(a + b + c + d + e, f);
    FieldsBytesAppend(a + b + c + d + e + f, g);
  }

  lemma {:induction false} VarintLength(v: nat, k: nat)
    requires v < VarintBound(k) && k <= 9
    ensures |VarintBytes(v)| <= 10 - k
    decreases v
  {
    if v >= 128 {
      BoundStep(v, k);
      VarintLength(v / 128, k + 1);
    }
  }

  /** An integer field with a small tag takes at most 11 bytes. */
  lemma UintFieldLength(tag: nat, v: u64)
    requires tag < 16
    ensures |FieldsBytes(UintField(tag, v))| <= 11
  {
    BoundAtZero();
    VarintLength(v, 0);
    if v != 0 {
      assert FieldsBytes([Field(tag, Varint(v))]) == FieldBytes(Field(tag, Varint(v))) + FieldsBytes([]);
    }
  }

  lemma PayloadLength(tag: nat, p: bytes)
    requires tag < 15 && |p| < U64_LIMIT
    ensures |FieldsBytes([Field(tag, Payload(p))])| <= |p| + 11
  {
    BoundAtZero();
    VarintLength(|p|, 0);
    assert FieldsBytes([Field(tag, Payload(p))]) == FieldBytes(Field(tag, Payload(p))) + FieldsBytes([]);
  }

  /** A varint is never read from fewer bytes than its shortest form has. */
  lemma {:induction false} VarintShortestFrom(b: bytes, k: nat)
    requires ParseVarintFrom(b, k).Some?
    ensures var (v, rest) := ParseVarintFrom(b, k).value; |VarintBytes(v)| + |rest| <= |b|
    decreases |b|
  {
    if b[0] >= 128 {
      VarintShortestFrom(b[1..], k + 1);
      var high := ParseVarintFrom(b[1..], k + 1).value.0;
      assert (b[0] - 128 + 128 * high) / 128 == high;
    }
  }

  lemma VarintShortest(b: bytes)
    requires ParseVarint(b).Some?
    ensures |VarintBytes(ParseVarint(b).value.0)| + |ParseVarint(b).value.1| <= |b|
  {
    VarintShortestFrom(b, 0);
  }

  lemma FieldShortest(b: bytes, limit: nat)
    requires ParseField(b, limit).Some?
    ensures var (f, rest) := ParseField(b, limit).value; |FieldBytes(f)| + |rest| <= |b|
  {
    hide ParseVarint, Skip;
    var (key, rest) := ParseVarint(b).value;
    VarintShortest(b);
    assert key == key / 8 * 8 + key % 8;
    if key % 8 == 0 || key % 8 == 2 {
      VarintShortest(rest);
    }
  }

  /** Printing what was parsed never takes more bytes than were read. */
  lemma {:induction false} FieldsShortest(b: bytes, limit: nat)
    requires ParseFields(b, limit).Some?
    ensures |FieldsBytes(ParseFields(b, limit).value)| <= |b|
    decreases |b|
  {
    if b != [] {
      var (f, rest) := ParseField(b, limit).value;
      FieldShortest(b, limit);
      FieldsShortest(rest, limit);
      assert ([f] + ParseFields(rest, limit).value)[1..] == ParseFields(rest, limit).value;
    }
  }

  lemma {:induction false} VarintLonger(v: nat, w: nat)
    requires v <= w
    ensures |VarintBytes(v)| <= |VarintBytes(w)|
    decreases w
  {
    if v >= 128 {
      VarintLonger(v / 128, w / 128);
    }
  }

  /** A field with a smaller number or a shorter payload takes no more bytes. */
  lemma FieldLonger(f: Field, g: Field)
    requires f.tag == g.tag
    requires
      || (f.value.Varint? && g.value.Varint? && f.value.v <= g.value.v)
      || (f.value.Payload? && g.value.Payload? && |f.value.payload| <= |g.value.payload|)
    ensures |FieldsBytes([f])| <= |FieldBytes(g)|
  {
    assert FieldsBytes([f]) == FieldBytes(f) + FieldsBytes([f][1..]);
    if f.value.Varint? {
      VarintLonger(f.value.v, g.value.v);
    } else {
      VarintLonger(|f.value.payload|, |g.value.payload|);
    }
  }

  lemma SmallPayloadLength(tag: nat, p: bytes)
    requires tag < 15 && |p| < 128
    ensures |FieldsBytes([Field(tag, Payload(p))])| == |p| + 2
  {
    assert FieldsBytes([Field(tag, Payload(p))]) == FieldBytes(Field(tag, Payload(p))) + FieldsBytes([]);
  }

  predicate Shaped(f: Field) {
    1 <= f.tag <= MAX_TAG && (f.value.Varint? || f.value.Payload?)
  }

  predicate AllShaped(fs: seq<Field>) {
    forall i :: 0 <= i < |fs| ==> Shaped(fs[i])
  }

  lemma WritableAppend(fs: seq<Field>, gs: seq<Field>)
    requires (forall i :: 0 <= i < |fs| ==> Writable(fs[i])) && (forall i :: 0 <= i < |gs| ==> Writable(gs[i]))
    ensures forall i :: 0 <= i < |fs + gs| ==> Writable((fs + gs)[i])
  {}

  lemma ShapedAppend(fs: seq<Field>, gs: seq<Field>)
    requires AllShaped(fs) && AllShaped(gs)
    ensures AllShaped(fs + gs)
  {}

  lemma ShapedSeven(a: seq<Field>, b: seq<Field>, c: seq<Field>, d: seq<Field>,
                    e: seq<Field>, f: seq<Field>, g: seq<Field>)
    requires AllShaped(a) && AllShaped(b) && AllShaped(c) && AllShaped(d)
    requires AllShaped(e) && AllShaped(f) && AllShaped(g)
    ensures AllShaped(a + b + c + d + e + f + g)
  {
    ShapedAppend(a, b);
    ShapedAppend(a + b, c);
    ShapedAppend(a + b + c, d);
    ShapedAppend(a + b + c + d, e);
    ShapedAppend(a + b + c + d + e, f);
    ShapedAppend(a + b + c + d + e + f, g);
  }

  lemma {:induction false} PayloadsFit(fs: seq<Field>)
    requires AllShaped(fs) && |FieldsBytes(fs)| < U64_LIMIT
    ensures forall i :: 0 <= i < |fs| ==> Writable(fs[i])
  {
    if fs != [] {
      assert |FieldsBytes(fs)| == |FieldBytes(fs[0])| + |FieldsBytes(fs[1..])|;
      PayloadsFit(fs[1..]);
      forall i | 0 <= i < |fs| ensures Writable(fs[i]) {
        assert Shaped(fs[i]);
        assert i > 0 ==> fs[i] == fs[1..][i - 1];
      }
    }
  }

  /** Printing and parsing when only the total length is known to fit in 64 bits. */
  lemma FittingRoundTrip(fs: seq<Field>, limit: nat)
    requires AllShaped(fs) && |FieldsBytes(fs)| < U64_LIMIT
    ensures ParseFields(FieldsBytes(fs), limit) == Some(fs)
  {
    PayloadsFit(fs);
    FieldsRoundTrip(fs, limit);
  }

  // ---------------------------------------------------------------- messages

  /** Folds a message type's merge function over the fields of an encoded message. */
  function Fold<M>(merge: (M, Field) -> Option<M>, m: M, fs: seq<Field>): Option<M> {
    if fs == [] then Some(m)
    else
      match merge(m, fs[0])
      case None => None
      case Some(m') => Fold(merge, m', fs[1..])
  }

  /** Decodes `b` into `m`, the way a repeated occurrence of a sub-message is merged. */
  function MergeBytes<M>(merge: (M, Field) -> Option<M>, m: M, b: bytes, limit: nat): Option<M> {
    match ParseFields(b, limit)
    case None => None
    case Some(fs) => Fold(merge, m, fs)
  }

  lemma {:induction false} FoldAppend<M>(merge: (M, Field) -> Option<M>, m: M, fs: seq<Field>, gs: seq<Field>)
    requires Fold(merge, m, fs).Some?
    ensures Fold(merge, m, fs + gs) == Fold(merge, Fold(merge, m, fs).value, gs)
  {
    if fs == [] {
      assert fs + gs == gs;
    } else {
      assert (fs + gs)[1..] == fs[1..] + gs;
      FoldAppend(merge, merge(m, fs[0]).value, fs[1..], gs);
    }
  }

  /** Folding two runs of fields, one after the other. */
  lemma FoldThen<M>(merge: (M, Field) -> Option<M>, m: M, fs: seq<Field>, m': M, gs: seq<Field>, m'': M)
    requires Fold(merge, m, fs) == Some(m')
    requires Fold(merge, m', gs) == Some(m'')
    ensures Fold(merge, m, fs + gs) == Some(m'')
  {
    FoldAppend(merge, m, fs, gs);
  }

  lemma FoldOne<M>(merge: (M, Field) -> Option<M>, m: M, f: Field)
    ensures Fold(merge, m, [f]) == merge(m, f)
  {
    assert [f][1..] == [];
  }

  /** Merging one field adds at most the field's own length. */
  ghost predicate Grows<M(!new)>(merge: (M, Field) -> Option<M>, size: M -> nat) {
    forall m, f :: merge(m, f).Some? ==> size(merge(m, f).value) <= size(m) + |FieldBytes(f)|
  }

  lemma {:induction false} FoldGrows<M(!new)>(merge: (M, Field) -> Option<M>, size: M -> nat, m: M, fs: seq<Field>)
    requires Grows(merge, size) && Fold(merge, m, fs).Some?
    ensures size(Fold(merge, m, fs).value) <= size(m) + |FieldsBytes(fs)|
  {
    if fs != [] {
      FoldGrows(merge, size, merge(m, fs[0]).value, fs[1..]);
    }
  }

  /** So merging an encoded message adds at most the length of its encoding. */
  lemma MergeGrows<M(!new)>(merge: (M, Field) -> Option<M>, size: M -> nat, m: M, b: bytes, limit: nat)
    requires Grows(merge, size) && MergeBytes(merge, m, b, limit).Some?
    ensures size(MergeBytes(merge, m, b, limit).value) <= size(m) + |b|
  {
    FieldsShortest(b, limit);
    FoldGrows(merge, size, m, ParseFields(b, limit).value);
  }

  /** proto3 leaves out a scalar that has its default value. */
  function UintField(tag: nat, v: u64): seq<Field> {
    if v == 0 then [] else [Field(tag, Varint(v))]
  }

  function BytesField(tag: nat, p: bytes): seq<Field> {
    if p == [] then [] else [Field(tag, Payload(p))]
  }

  /** An optional sub-message: present even when its payload is empty. */
  function MessageField(tag: nat, p: Option<bytes>): seq<Field> {
    match p case None => [] case Some(b) => [Field(tag, Payload(b))]
  }

  /** Signed integers travel as 64-bit two's complement. */
  function FromSigned(x: i64): u64 {
    if x < 0 then x + U64_LIMIT else x
  }

  function ToI64(v: u64): i64 {
    if v <= I64_MAX then v else v - U64_LIMIT
  }

  /** A 32-bit field keeps the low 32 bits of the varint. */
  function ToI32(v: u64): i32 {
    var low := v % 0x1_0000_0000;
    if low < 0x8000_0000 then low else low - 0x1_0000_0000
  }

  function ToU32(v: u64): u32 {
    v % 0x1_0000_0000
  }
}
