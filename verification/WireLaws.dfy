/** The wire format against an independent account of it: the positional value of a varint, the
    layout of a field of any wire type, and unknown fields, nested groups included, being skipped. */
module WireLaws {
  import opened Types
  import opened Wire

  // ---------------------------------------------------------------- varints by position

  function Pow128(k: nat): nat {
    if k == 0 then 1 else 128 * Pow128(k - 1)
  }

  /** The value of a group of bytes: the low seven bits of byte `i` count 128^i. */
  function PlaceValue(b: bytes): nat {
    if b == [] then 0 else PlaceValue(b[..|b| - 1]) + b[|b| - 1] % 128 * Pow128(|b| - 1)
  }

  /** The top bit is set on every byte but the last. */
  predicate Terminated(b: bytes) {
    b != [] && b[|b| - 1] < 128 && forall i :: 0 <= i < |b| - 1 ==> b[i] >= 128
  }

  lemma {:induction false} PlaceFirst(first: byte, b: bytes)
    ensures PlaceValue([first] + b) == first % 128 + 128 * PlaceValue(b)
  {
    if b == [] {
      assert [first] + b == [first] && [first][..0] == [];
      assert Pow128(0) == 1;
    } else {
      var init, n := b[..|b| - 1], |b| - 1;
      assert ([first] + b)[..|[first] + b| - 1] == [first] + init;
      PlaceFirst(first, init);
      PowTimes(b[n] % 128, n);
    }
  }

  lemma PowTimes(a: nat, n: nat)
    ensures a * Pow128(n + 1) == 128 * (a * Pow128(n))
  {}

  /** The bytes in front of `rest`. */
  function Head(b: bytes, rest: bytes): bytes
    requires |rest| <= |b|
  {
    b[..|b| - |rest|]
  }

  /** What a varint of which `k` bytes are already read has to look like. */
  predicate VarintIn(b: bytes, k: nat, v: nat, rest: bytes) {
    && |rest| <= |b| && b == Head(b, rest) + rest
    && Terminated(Head(b, rest)) && |Head(b, rest)| <= 10 - k
    && PlaceValue(Head(b, rest)) == v && v < VarintBound(k)
  }

  lemma LastByte(b: bytes, k: nat, v: nat, rest: bytes)
    requires k <= 9 && b != [] && b[0] < 128
    ensures ParseVarintFrom(b, k) == Some((v, rest)) <==> VarintIn(b, k, v, rest)
  {
    if k < 9 {
      BoundPositive(k + 1);
    }
    if |rest| < |b| {
      var head := Head(b, rest);
      assert head[0] == b[0];
      assert |head| > 1 ==> !Terminated(head);
      if |head| == 1 {
        assert head == [b[0]] && [b[0]] + [] == [b[0]];
        PlaceFirst(b[0], []);
        assert b == [b[0]] + b[1..];
        assert b[1..] == rest <==> b == head + rest;
      }
    }
  }

  lemma TerminatedFirst(first: byte, b: bytes)
    requires first >= 128
    ensures Terminated([first] + b) <==> Terminated(b)
  {
    if b != [] {
      var c := [first] + b;
      assert c[|c| - 1] == b[|b| - 1];
      assert forall i :: 0 < i < |c| ==> c[i] == b[i - 1];
      assert forall i :: 0 <= i < |b| ==> b[i] == c[i + 1];
    }
  }

  lemma BoundAbove(k: nat, v: nat)
    requires k < 9
    ensures v < VarintBound(k) <==> v / 128 < VarintBound(k + 1)
  {
    assert VarintBound(k) == 128 * VarintBound(k + 1);
  }

  lemma MoreBytes(b: bytes, k: nat, v: nat, rest: bytes)
    requires k < 9 && b != [] && b[0] >= 128
    ensures VarintIn(b, k, v, rest) <==>
            |rest| < |b| && v % 128 == b[0] - 128 && VarintIn(b[1..], k + 1, v / 128, rest)
  {
    if |rest| < |b| {
      var head := Head(b, rest);
      var more := Head(b[1..], rest);
      assert head == [b[0]] + more;
      assert b == [b[0]] + b[1..];
      assert b == head + rest <==> b[1..] == more + rest;
      PlaceFirst(b[0], more);
      TerminatedFirst(b[0], more);
      BoundAbove(k, v);
      hide PlaceValue, Terminated, VarintBound;
    }
  }

  lemma {:induction false} VarintFromExact(b: bytes, k: nat, v: nat, rest: bytes)
    requires k <= 9
    ensures ParseVarintFrom(b, k) == Some((v, rest)) <==> VarintIn(b, k, v, rest)
    decreases |b|
  {
    hide VarintIn;
    if b == [] {
      assert !VarintIn(b, k, v, rest) by { NoBytes(k, v, rest); }
    } else if b[0] < 128 {
      LastByte(b, k, v, rest);
    } else if k < 9 {
      VarintFromExact(b[1..], k + 1, v / 128, rest);
      MoreBytes(b, k, v, rest);
    } else {
      TooLong(b, v, rest);
    }
  }

  lemma NoBytes(k: nat, v: nat, rest: bytes)
    ensures !VarintIn([], k, v, rest)
  {}

  lemma TooLong(b: bytes, v: nat, rest: bytes)
    requires b != [] && b[0] >= 128
    ensures !VarintIn(b, 9, v, rest)
  {}

  /** A varint is read exactly from at most ten bytes of which all but the last have their top bit
      set, and its value, by position, has 64 bits. Longer forms than needed are accepted. */
  lemma VarintExact(b: bytes, v: u64, rest: bytes)
    ensures ParseVarint(b) == Some((v, rest)) <==>
            && |rest| <= |b| && b == Head(b, rest) + rest
            && Terminated(Head(b, rest)) && |Head(b, rest)| <= 10
            && PlaceValue(Head(b, rest)) == v
  {
    BoundAtZero();
    VarintFromExact(b, 0, v, rest);
    hide PlaceValue, Terminated, ParseVarintFrom, VarintBound;
  }

  lemma ByteInFront(first: byte, b: bytes)
    requires first >= 128 && Terminated(b)
    ensures Terminated([first] + b) && PlaceValue([first] + b) == first % 128 + 128 * PlaceValue(b)
    ensures ([first] + b)[|b|] == b[|b| - 1]
  {
    TerminatedFirst(first, b);
    PlaceFirst(first, b);
  }

  lemma OneByte(v: byte)
    requires v < 128
    ensures Terminated([v]) && PlaceValue([v]) == v
  {
    PlaceFirst(v, []);
    assert [v] + [] == [v];
  }

  /** The writer yields a varint of that value, in its shortest form. */
  lemma {:induction false} VarintWritten(v: nat)
    ensures Terminated(VarintBytes(v)) && PlaceValue(VarintBytes(v)) == v
    ensures |VarintBytes(v)| == 1 || VarintBytes(v)[|VarintBytes(v)| - 1] != 0
    decreases v
  {
    hide PlaceValue, Terminated;
    if v < 128 {
      OneByte(v);
    } else {
      VarintWritten(v / 128);
      ByteInFront(v % 128 + 128, VarintBytes(v / 128));
    }
  }

  // ---------------------------------------------------------------- fields of every wire type

  /** A field's value of any wire type, groups with their own fields inside. */
  datatype Item =
    | AVarint(v: u64)
    | AFixed64(raw: bytes)
    | APayload(payload: bytes)
    | AGroup(items: Items)
    | AFixed32(raw: bytes)

  datatype Items = Nil | Cons(tag: nat, item: Item, tail: Items)

  function Key(tag: nat, wireType: nat): bytes {
    VarintBytes(tag * 8 + wireType)
  }

  /** The wire types are numbered 0 to 5; a group ends with a key of type 4 under the same tag. */
  function ItemBytes(tag: nat, item: Item): bytes
    decreases item
  {
    match item
    case AVarint(v) => Key(tag, 0) + VarintBytes(v)
    case AFixed64(raw) => Key(tag, 1) + raw
    case APayload(p) => Key(tag, 2) + (VarintBytes(|p|) + p)
    case AGroup(items) => Key(tag, 3) + (ItemsBytes(items) + Key(tag, 4))
    case AFixed32(raw) => Key(tag, 5) + raw
  }

  function ItemsBytes(items: Items): bytes
    decreases items
  {
    match items
    case Nil => []
    case Cons(tag, item, tail) => ItemBytes(tag, item) + ItemsBytes(tail)
  }

  predicate ValidItem(tag: nat, item: Item)
    decreases item
  {
    && 1 <= tag <= MAX_TAG
    && match item
       case AVarint(_) => true
       case AFixed64(raw) => |raw| == 8
       case APayload(p) => |p| < U64_LIMIT
       case AGroup(items) => ValidItems(items)
       case AFixed32(raw) => |raw| == 4
  }

  predicate ValidItems(items: Items)
    decreases items
  {
    match items
    case Nil => true
    case Cons(tag, item, tail) => ValidItem(tag, item) && ValidItems(tail)
  }

  function Deeper(a: nat, b: nat): nat {
    if a < b then b else a
  }

  /** How deep groups nest. */
  function Depth(item: Item): nat {
    match item
    case AGroup(items) => 1 + ItemsDepth(items)
    case _ => 1
  }

  function ItemsDepth(items: Items): nat {
    match items
    case Nil => 0
    case Cons(_, item, tail) => Deeper(Depth(item), ItemsDepth(tail))
  }

  function WireTypeOf(item: Item): nat {
    match item
    case AVarint(_) => 0
    case AFixed64(_) => 1
    case APayload(_) => 2
    case AGroup(_) => 3
    case AFixed32(_) => 5
  }

  function Body(tag: nat, item: Item): bytes {
    ItemBytes(tag, item)[|Key(tag, WireTypeOf(item))|..]
  }

  lemma ItemParts(tag: nat, item: Item)
    ensures ItemBytes(tag, item) == Key(tag, WireTypeOf(item)) + Body(tag, item)
    ensures match item
            case AVarint(v) => Body(tag, item) == VarintBytes(v)
            case AFixed64(raw) => Body(tag, item) == raw
            case APayload(p) => Body(tag, item) == VarintBytes(|p|) + p
            case AGroup(items) => Body(tag, item) == ItemsBytes(items) + Key(tag, 4)
            case AFixed32(raw) => Body(tag, item) == raw
  {}

  /** Skipping consumes exactly the value, whatever its type. */
  lemma {:induction false} ItemSkipped(tag: nat, item: Item, rest: bytes, limit: nat)
    requires ValidItem(tag, item) && Depth(item) <= limit
    ensures Skip(WireTypeOf(item), tag, Body(tag, item) + rest, limit) == Some(rest)
    decreases item
  {
    ItemParts(tag, item);
    match item
    case AVarint(v) => VarintRoundTrip(v, rest);
    case AFixed64(raw) =>
    case APayload(p) =>
      assert VarintBytes(|p|) + p + rest == VarintBytes(|p|) + (p + rest);
      VarintRoundTrip(|p|, p + rest);
    case AGroup(items) =>
      assert ItemsBytes(items) + Key(tag, 4) + rest == ItemsBytes(items) + (Key(tag, 4) + rest);
      GroupSkipped(tag, items, rest, limit);
    case AFixed32(raw) =>
  }

  lemma GroupEnd(tag: nat, rest: bytes, limit: nat)
    requires 1 <= tag <= MAX_TAG && limit > 0
    ensures SkipGroup(tag, Key(tag, 4) + rest, limit) == Some(rest)
  {
    KeyRoundTrip(tag, 4, rest);
    hide ParseKey;
  }

  lemma KeyParsed(tag: nat, wireType: nat, rest: bytes)
    requires 1 <= tag <= MAX_TAG && wireType <= 5
    ensures ParseKey(Key(tag, wireType) + rest) == Some((tag, wireType, rest))
  {
    KeyRoundTrip(tag, wireType, rest);
  }

  lemma GroupStep(tag: nat, b: bytes, t: nat, w: nat, body: bytes, after: bytes, limit: nat)
    requires limit > 0 && w != 4
    requires ParseKey(b) == Some((t, w, body))
    requires Skip(w, t, body, limit - 1) == Some(after)
    ensures SkipGroup(tag, b, limit) == SkipGroup(tag, after, limit)
  {
    hide ParseKey, Skip;
  }

  lemma {:induction false} GroupSkipped(tag: nat, items: Items, rest: bytes, limit: nat)
    requires 1 <= tag <= MAX_TAG && ValidItems(items) && ItemsDepth(items) < limit
    ensures SkipGroup(tag, ItemsBytes(items) + (Key(tag, 4) + rest), limit) == Some(rest)
    decreases items
  {
    hide ParseKey, Skip, Key, Body, ItemBytes;
    match items
    case Nil =>
      GroupEnd(tag, rest, limit);
      assert [] + (Key(tag, 4) + rest) == Key(tag, 4) + rest;
    case Cons(t, item, tail) =>
      var after := ItemsBytes(tail) + (Key(tag, 4) + rest);
      var w := WireTypeOf(item);
      ItemParts(t, item);
      assert ItemsBytes(items) + (Key(tag, 4) + rest) == Key(t, w) + (Body(t, item) + after);
      KeyParsed(t, w, Body(t, item) + after);
      ItemSkipped(t, item, after, limit - 1);
      GroupStep(tag, Key(t, w) + (Body(t, item) + after), t, w, Body(t, item) + after, after, limit);
      GroupSkipped(tag, tail, rest, limit);
  }

  /** What the decoder keeps of a field. */
  function Kept(item: Item): Value {
    match item
    case AVarint(v) => Varint(v)
    case AFixed64(_) => Fixed64
    case APayload(p) => Payload(p)
    case AGroup(_) => Group
    case AFixed32(_) => Fixed32
  }

  /** A field of any wire type, laid out as the format says, is split off whole. */
  lemma ItemParsed(tag: nat, item: Item, rest: bytes, limit: nat)
    requires ValidItem(tag, item) && Depth(item) <= limit
    ensures ParseField(ItemBytes(tag, item) + rest, limit) == Some((Field(tag, Kept(item)), rest))
  {
    hide ItemBytes, Body, Skip, ParseKey, ParseVarint, Key;
    var w := WireTypeOf(item);
    ItemParts(tag, item);
    assert ItemBytes(tag, item) + rest == Key(tag, w) + (Body(tag, item) + rest);
    KeyParsed(tag, w, Body(tag, item) + rest);
    match item
    case AVarint(v) => VarintRoundTrip(v, rest);
    case APayload(p) => PayloadParsed(tag, p, Key(tag, w) + (Body(tag, item) + rest), rest, limit);
    case _ => ItemSkipped(tag, item, rest, limit);
  }

  lemma PayloadParsed(tag: nat, p: bytes, b: bytes, rest: bytes, limit: nat)
    requires |p| < U64_LIMIT
    requires ParseKey(b) == Some((tag, 2, VarintBytes(|p|) + p + rest))
    ensures ParseField(b, limit) == Some((Field(tag, Payload(p)), rest))
  {
    hide ParseKey, ParseVarint, VarintBytes;
    assert VarintBytes(|p|) + p + rest == VarintBytes(|p|) + (p + rest);
    assert (p + rest)[..|p|] == p && (p + rest)[|p|..] == rest;
    VarintRoundTrip(|p|, p + rest);
  }

  // ---------------------------------------------------------------- unknown fields

  function KeptAll(items: Items): seq<Field> {
    match items
    case Nil => []
    case Cons(tag, item, tail) => [Field(tag, Kept(item))] + KeptAll(tail)
  }

  lemma ParseStep(b: bytes, f: Field, after: bytes, limit: nat)
    requires ParseField(b, limit) == Some((f, after)) && ParseFields(after, limit).Some?
    ensures ParseFields(b, limit) == Some([f] + ParseFields(after, limit).value)
  {
    hide ParseField;
    assert b != [] by { FieldNeedsBytes(b, limit); }
  }

  lemma FieldNeedsBytes(b: bytes, limit: nat)
    requires ParseField(b, limit).Some?
    ensures b != []
  {}

  lemma {:induction false} ItemsParsed(items: Items, rest: bytes, limit: nat)
    requires ValidItems(items) && ItemsDepth(items) <= limit && ParseFields(rest, limit).Some?
    ensures ParseFields(ItemsBytes(items) + rest, limit) == Some(KeptAll(items) + ParseFields(rest, limit).value)
    decreases items
  {
    hide ParseField, ParseFields, ItemBytes, Kept;
    match items
    case Nil =>
      assert [] + rest == rest && [] + ParseFields(rest, limit).value == ParseFields(rest, limit).value;
    case Cons(tag, item, tail) =>
      var after := ItemsBytes(tail) + rest;
      assert ItemsBytes(items) + rest == ItemBytes(tag, item) + after;
      ItemParsed(tag, item, after, limit);
      ItemsParsed(tail, rest, limit);
      ParseStep(ItemBytes(tag, item) + after, Field(tag, Kept(item)), after, limit);
      assert [Field(tag, Kept(item))] + (KeptAll(tail) + ParseFields(rest, limit).value)
          == KeptAll(items) + ParseFields(rest, limit).value;
  }

  lemma {:induction false} FieldsThen(fs: seq<Field>, rest: bytes, limit: nat)
    requires (forall i :: 0 <= i < |fs| ==> Writable(fs[i])) && ParseFields(rest, limit).Some?
    ensures ParseFields(FieldsBytes(fs) + rest, limit) == Some(fs + ParseFields(rest, limit).value)
  {
    hide ParseField, ParseFields, FieldBytes;
    if fs == [] {
      assert FieldsBytes(fs) + rest == rest && fs + ParseFields(rest, limit).value == ParseFields(rest, limit).value;
    } else {
      var after := FieldsBytes(fs[1..]) + rest;
      assert FieldsBytes(fs) + rest == FieldBytes(fs[0]) + after;
      FieldRoundTrip(fs[0], after, limit);
      FieldsThen(fs[1..], rest, limit);
      ParseStep(FieldBytes(fs[0]) + after, fs[0], after, limit);
      assert [fs[0]] + (fs[1..] + ParseFields(rest, limit).value) == fs + ParseFields(rest, limit).value;
    }
  }

  /** Every tag is above `n`: none of these fields is known to the message. */
  predicate AllAbove(items: Items, n: nat) {
    match items
    case Nil => true
    case Cons(tag, _, tail) => tag > n && AllAbove(tail, n)
  }

  /** A message type ignores the tags above `n`. */
  ghost predicate Ignores<M(!new)>(merge: (M, Field) -> Option<M>, n: nat) {
    forall m: M, f: Field :: f.tag > n ==> merge(m, f) == Some(m)
  }

  lemma {:induction false} UnknownFold<M(!new)>(merge: (M, Field) -> Option<M>, n: nat, m: M, items: Items)
    requires Ignores(merge, n) && AllAbove(items, n)
    ensures Fold(merge, m, KeptAll(items)) == Some(m)
    decreases items
  {
    match items
    case Nil =>
    case Cons(tag, item, tail) =>
      UnknownFold(merge, n, m, tail);
      assert KeptAll(items)[1..] == KeptAll(tail);
  }

  /** Unknown fields of any kind, put between any two fields of a message, change nothing. */
  lemma UnknownIgnored<M(!new)>(
    merge: (M, Field) -> Option<M>, n: nat, m: M, fs: seq<Field>, gs: seq<Field>, items: Items, limit: nat)
    requires Ignores(merge, n) && AllAbove(items, n) && ValidItems(items) && ItemsDepth(items) <= limit
    requires forall i :: 0 <= i < |fs| ==> Writable(fs[i])
    requires forall i :: 0 <= i < |gs| ==> Writable(gs[i])
    requires Fold(merge, m, fs + gs).Some?
    ensures MergeBytes(merge, m, FieldsBytes(fs) + (ItemsBytes(items) + FieldsBytes(gs)), limit)
         == Fold(merge, m, fs + gs)
  {
    FieldsRoundTrip(gs, limit);
    ItemsParsed(items, FieldsBytes(gs), limit);
    FieldsThen(fs, ItemsBytes(items) + FieldsBytes(gs), limit);
    FoldPrefix(merge, m, fs, gs);
    FoldAppend(merge, m, fs, gs);
    var m1 := Fold(merge, m, fs).value;
    UnknownFold(merge, n, m1, items);
    FoldAppend(merge, m1, KeptAll(items), gs);
    FoldAppend(merge, m, fs, KeptAll(items) + gs);
  }

  lemma {:induction false} FoldPrefix<M>(merge: (M, Field) -> Option<M>, m: M, fs: seq<Field>, gs: seq<Field>)
    requires Fold(merge, m, fs + gs).Some?
    ensures Fold(merge, m, fs).Some?
  {
    if fs != [] {
      assert (fs + gs)[0] == fs[0] && (fs + gs)[1..] == fs[1..] + gs;
      FoldPrefix(merge, merge(m, fs[0]).value, fs[1..], gs);
    }
  }
}
