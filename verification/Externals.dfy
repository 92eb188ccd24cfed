/** Everything the client calls into and this repository does not define: signature, Merkle and
    account-proof verification, the decoders of the relayer's messages, the state-id hash and two
    acceptance tests. They are arbitrary total functions; what a theorem needs of them it requires. */
module Externals {
  import opened Types

  datatype Externals = Externals(
    // constructors that may reject
    forksAccepted: ForkParameters -> bool,
    fractionAccepted: Fraction -> bool,
    defaultTrustLevel: Fraction,
    // cryptographic verification
    committeeValid: TrustedSyncCommittee -> bool,
    validateUpdates: (ChainContext, TrustedConsensusState, ConsensusUpdate, ExecutionUpdate) -> bool,
    validateMisbehaviour: (ChainContext, TrustedConsensusState, MisbehaviourData) -> bool,
    verifyAccountStorage: (H256, Address, AccountUpdate) -> bool,
    verifyMembership: (ClientState, ConsensusState, string, bytes, Height, bytes) -> Option<bytes>,
    verifyNonMembership: (ClientState, ConsensusState, string, Height, bytes) -> bool,
    // the execution header's own timestamp, in seconds, used from the Gloas fork on
    isGloas: (ForkParameters, u64, u64) -> bool,
    rlpTimestamp: bytes -> Option<u64>,
    // decoders of message bodies
    decodeHeader: bytes -> Option<Header>,
    decodeFinalizedHeaderMisbehaviour: bytes -> Option<Misbehaviour>,
    decodeNextSyncCommitteeMisbehaviour: bytes -> Option<Misbehaviour>,
    // the hash behind a state id; it may fail
    stateIdHash: (Any, Any) -> Option<StateId>,
    // whether the two time checks accept the exact boundary instant
    trustingEndIncluded: bool,
    driftEndIncluded: bool)

  /** The state-id hash has no collisions. */
  ghost predicate CollisionFree(x: Externals) {
    forall a, b, c, d ::
      x.stateIdHash(a, b).Some? && x.stateIdHash(a, b) == x.stateIdHash(c, d) ==> a == c && b == d
  }

  /** Promise of the update verifier: an update that finalizes nothing newer is rejected. */
  ghost predicate RejectsIrrelevant(x: Externals) {
    forall cc, t, u, e :: x.validateUpdates(cc, t, u, e) ==> t.state.slot < u.finalizedSlot
  }
}
