/** Sync committee periods as intervals of slots, and the committees an update leads to. */
module Periods {
  import opened Types
  import opened Updates

  /** Period `p` consists of `slotsPerEpoch * epochsPerSyncCommitteePeriod` slots, after `p` such periods. */
  predicate InPeriod(cc: ChainContext, slot: u64, p: nat) {
    p * (cc.slotsPerEpoch * cc.epochsPerSyncCommitteePeriod) <= slot
      < (p + 1) * (cc.slotsPerEpoch * cc.epochsPerSyncCommitteePeriod)
  }

  predicate HasPeriods(cc: ChainContext) {
    cc.slotsPerEpoch > 0 && cc.epochsPerSyncCommitteePeriod > 0
  }

  lemma QuotientUnique(a: nat, b: nat, q: nat)
    requires b > 0
    ensures q * b <= a < (q + 1) * b <==> Quotient(a, b) == q
  {
    var d := Quotient(a, b);
    assert d * b <= a < (d + 1) * b;
    if q < d {
      MultiplesOrdered(q + 1, d, b);
    } else if d < q {
      MultiplesOrdered(d + 1, q, b);
    }
  }

  lemma MultiplesOrdered(m: nat, n: nat, b: nat)
    requires m <= n
    ensures m * b <= n * b
  {}

  /** The two divisions, by slots per epoch and by epochs per period, yield `p` exactly when the slot
      lies in the interval of period `p`. */
  lemma PeriodExact(s: u64, e: u64, slot: u64, p: nat)
    requires s > 0 && e > 0
    ensures Period(s, e, slot) == p <==> p * (s * e) <= slot < (p + 1) * (s * e)
  {
    var epoch := Quotient(slot, s);
    var q := Quotient(epoch, e);
    QuotientUnique(slot, s, epoch);
    QuotientUnique(epoch, e, q);
    MultiplesOrdered(q * e, epoch, s);
    MultiplesOrdered(epoch + 1, (q + 1) * e, s);
    Regroup(q, e, s);
    Regroup(q + 1, e, s);
    assert s * e > 0;
    QuotientUnique(slot, s * e, q);
    QuotientUnique(slot, s * e, p);
  }

  lemma Regroup(q: nat, e: nat, s: nat)
    ensures q * e * s == q * (s * e)
  {}

  /** Every slot lies in exactly one period. */
  lemma OnePeriod(cc: ChainContext, slot: u64)
    requires HasPeriods(cc)
    ensures InPeriod(cc, slot, Period(cc.slotsPerEpoch, cc.epochsPerSyncCommitteePeriod, slot))
    ensures forall p: nat :: InPeriod(cc, slot, p) ==>
              p == Period(cc.slotsPerEpoch, cc.epochsPerSyncCommitteePeriod, slot)
  {
    hide Period;
    var s, e := cc.slotsPerEpoch, cc.epochsPerSyncCommitteePeriod;
    PeriodExact(s, e, slot, Period(s, e, slot));
    forall p: nat | InPeriod(cc, slot, p) ensures p == Period(s, e, slot) {
      PeriodExact(s, e, slot, p);
    }
  }

  lemma LaterSlot(cc: ChainContext, a: u64, p: nat, b: u64, q: nat)
    requires InPeriod(cc, a, p) && InPeriod(cc, b, q) && a <= b
    ensures p <= q
  {
    if q < p {
      MultiplesOrdered(q + 1, p, cc.slotsPerEpoch * cc.epochsPerSyncCommitteePeriod);
    }
  }

  lemma PeriodsExist(cc: ChainContext, slot: u64, p: nat)
    requires InPeriod(cc, slot, p)
    ensures HasPeriods(cc)
  {
    if !HasPeriods(cc) {
      assert false;
    }
  }

  /** The keys after an update from period `p` to period `q`: kept if they are the same, shifted if
      `q` is the next one and the update brings its next committee; an error otherwise. */
  lemma CommitteesExact(cc: ChainContext, c: ConsensusState, u: ConsensusUpdate, p: nat, q: nat)
    requires InPeriod(cc, c.slot, p) && InPeriod(cc, u.finalizedSlot, q)
    ensures
      ComputeSyncCommittees(cc, c, u)
      == if q == p then Ok((c.currentSyncCommittee, c.nextSyncCommittee))
         else if q != p + 1 then Err(PeriodNotCovered)
         else if u.nextSyncCommittee.None? then Err(MissingNextSyncCommittee)
         else Ok((c.nextSyncCommittee, u.nextSyncCommittee.value.aggregatePubkey))
  {
    hide Period;
    PeriodsExist(cc, c.slot, p);
    OnePeriod(cc, c.slot);
    OnePeriod(cc, u.finalizedSlot);
  }

  /** An update whose keys can be computed stays in the period of the trusted slot or enters the next. */
  lemma PeriodsCovered(cc: ChainContext, c: ConsensusState, u: ConsensusUpdate)
    requires ComputeSyncCommittees(cc, c, u).Ok?
    ensures HasPeriods(cc)
    ensures forall p: nat, q: nat ::
              InPeriod(cc, c.slot, p) && InPeriod(cc, u.finalizedSlot, q) ==> q == p || q == p + 1
  {
    forall p: nat, q: nat | InPeriod(cc, c.slot, p) && InPeriod(cc, u.finalizedSlot, q)
      ensures q == p || q == p + 1
    {
      CommitteesExact(cc, c, u, p, q);
    }
  }
}
