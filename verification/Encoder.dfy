/** Encoding into a growing byte buffer, field by field. */
module Encoder {
  import opened Types
  import opened Externals
  import opened Wire
  import opened Commitment
  import ClientCodec
  import ConsensusCodec

  class Buffer {
    var data: bytes

    constructor ()
      ensures data == []
    {
      data := [];
    }

    /** Seven bits at a time, lowest first; every byte but the last has its top bit set. */
    method PutVarint(value: u64)
      modifies this
      ensures data == old(data) + VarintBytes(value)
    {
      var v: nat := value;
      while v >= 0x80
        invariant data + VarintBytes(v) == old(data) + VarintBytes(value)
      {
        ghost var before, u := data, v;
        data := data + [v % 0x80 + 0x80];
        v := v / 0x80;
        assert data + VarintBytes(v) == before + ([u % 0x80 + 0x80] + VarintBytes(u / 0x80));
      }
      data := data + [v];
    }

    method PutField(f: Field)
      requires Writable(f)
      modifies this
      ensures data == old(data) + FieldBytes(f)
    {
      match f.value
      case Varint(v) =>
        PutVarint(f.tag * 8);
        PutVarint(v);
        Associative(old(data), VarintBytes(f.tag * 8), VarintBytes(v));
      case Payload(p) =>
        PutVarint(f.tag * 8 + 2);
        PutVarint(|p|);
        data := data + p;
        assert data == old(data) + (VarintBytes(f.tag * 8 + 2) + VarintBytes(|p|) + p);
    }

    method PutFields(fs: seq<Field>)
      requires forall i :: 0 <= i < |fs| ==> Writable(fs[i])
      modifies this
      ensures data == old(data) + FieldsBytes(fs)
    {
      for i := 0 to |fs|
        invariant data == old(data) + FieldsBytes(fs[..i])
      {
        PutField(fs[i]);
        OneMore(fs, i);
        Associative(old(data), FieldsBytes(fs[..i]), FieldBytes(fs[i]));
      }
      assert fs[..|fs|] == fs;
    }
  }

  lemma OneMore(fs: seq<Field>, i: nat)
    requires i < |fs|
    ensures FieldsBytes(fs[..i + 1]) == FieldsBytes(fs[..i]) + FieldBytes(fs[i])
  {
    assert fs[..i + 1] == fs[..i] + [fs[i]];
    FieldsBytesAppend(fs[..i], [fs[i]]);
    assert FieldsBytes([fs[i]]) == FieldBytes(fs[i]) + FieldsBytes([fs[i]][1..]);
  }

  method EncodeConsensusState(c: ConsensusState) returns (any: Any)
    ensures any == ConsensusCodec.Encode(c)
  {
    var raw := ConsensusCodec.ToRaw(c);
    var v := new Buffer();
    ConsensusCodec.FieldsWritable(c);
    v.PutFields(ConsensusCodec.ConsensusStateFields(raw));
    any := Any(ConsensusCodec.CONSENSUS_STATE_TYPE_URL, v.data);
    assert [] + v.data == v.data;
  }

  method EncodeClientState(c: ClientState) returns (any: Any)
    requires ClientCodec.Fits(c)
    ensures any == ClientCodec.Encode(c)
  {
    var raw := ClientCodec.ToRaw(c);
    var v := new Buffer();
    ClientCodec.FieldsShaped(raw);
    PayloadsFit(ClientCodec.ClientStateFields(raw));
    v.PutFields(ClientCodec.ClientStateFields(raw));
    any := Any(ClientCodec.CLIENT_STATE_TYPE_URL, v.data);
    assert [] + v.data == v.data;
  }

  /** The state id as the source computes it: canonicalise, encode both states, hash. */
  method ComputeStateId(x: Externals, client: ClientState, consensus: ConsensusState) returns (r: Result<StateId>)
    requires ClientCodec.Compact(client)
    ensures r == GenStateId(x, client, consensus)
  {
    var canonical := CanonicalizeClone(client);
    CompactCanonical(client);
    ClientCodec.CompactFits(canonical);
    var anyClient := EncodeClientState(canonical);
    var anyConsensus := EncodeConsensusState(consensus);
    match x.stateIdHash(anyClient, anyConsensus)
    case None => r := Err(Error.Commitment);
    case Some(id) => r := Ok(id);
  }
}
