/** What every reachable state satisfies. */
module Invariants {
  import opened Types
  import opened Sums
  import opened BalanceSpec
  import opened SplitterSpec
  import AllowanceSpec

  // ---------- escrows and disputes ----------

  ghost predicate EscrowsOk(es: Book<EscrowRecord>) {
    && es.Dense()
    && forall i | i in es.recs ::
         var e := es.recs[i];
         && e.id == i && e.amount > 0
         && e.depositor != Contract && e.depositor != e.beneficiary
         && !(e.released && e.refunded)
  }

  /** What a dispute's status says about the flags of its escrow. */
  predicate StatusAgrees(d: DisputeRecord, e: EscrowRecord) {
    match d.status
    case Open => true
    case Appealed => e.Settled()
    case ResolvedForBeneficiary => e.released
    case ResolvedForDepositor => e.refunded
    case Expired => e.refunded
  }

  ghost predicate DisputesOk(ds: Book<DisputeRecord>, es: Book<EscrowRecord>) {
    && ds.Dense()
    && (forall i | i in ds.recs ::
          var d := ds.recs[i];
          && d.id == i && d.escrowId in es.recs
          && d.claimant in {es.recs[d.escrowId].depositor, es.recs[d.escrowId].beneficiary}
          && StatusAgrees(d, es.recs[d.escrowId])
          && (d.appealResolver.Some? ==> d.status == Appealed))
    // An escrow is disputed at most once in its whole life.
    && (forall i, j | i in ds.recs && j in ds.recs && ds.recs[i].escrowId == ds.recs[j].escrowId :: i == j)
  }

  // ---------- splits, recurring payments ----------

  ghost predicate SplitsOk(sp: Book<SplitRecord>) {
    && sp.Dense()
    && forall i | i in sp.recs ::
         var r := sp.recs[i];
         && r.id == i && r.total > 0 && r.sender != Contract
         && ValidShares(r.recipients)
         && !(r.distributed && r.cancelled)
  }

  ghost predicate RecurringsOk(rc: Book<RecurringRecord>) {
    && rc.Dense()
    && forall i | i in rc.recs ::
         var r := rc.recs[i];
         r.id == i && r.payer != Contract && r.amount > 0 && r.interval > 0
  }

  // ---------- custody ----------

  /** A dispute has paid this escrow out, so an appeal may still reverse it. */
  ghost predicate Reversible(ds: map<u32, DisputeRecord>, escrowId: int) {
    exists d | d in ds :: ds[d].escrowId == escrowId && ds[d].status in {ResolvedForBeneficiary, Appealed}
  }

  /** What the contract must keep for escrow `i`: its amount until it is settled, and also
      afterwards when the contract itself was paid as beneficiary and may have to give it back. */
  ghost function HeldAt(es: map<u32, EscrowRecord>, ds: map<u32, DisputeRecord>): int -> int {
    i => if i !in es then 0
      else if !es[i].Settled() then es[i].amount
      else if es[i].released && es[i].beneficiary == Contract && Reversible(ds, i) then es[i].amount
      else 0
  }

  function PendingAt(sp: map<u32, SplitRecord>): int -> int {
    i => if i in sp && sp[i].Pending() then sp[i].total else 0
  }

  ghost function Held(s: State): int {
    SumTo(s.escrows.count, HeldAt(s.escrows.recs, s.disputes.recs))
  }

  function Pending(s: State): int {
    SumTo(s.splits.count, PendingAt(s.splits.recs))
  }

  ghost predicate Solvent(s: State) {
    Held(s) + Pending(s) <= Bal(s.ledger.balances, Contract)
  }

  ghost predicate Sound(s: State) {
    && Conserved(s.ledger)
    && AllowanceSpec.Sane(s.allowances)
    && EscrowsOk(s.escrows)
    && DisputesOk(s.disputes, s.escrows)
    && SplitsOk(s.splits)
    && RecurringsOk(s.recurrings)
    && Solvent(s)
  }

  /** Custody covers any one unsettled escrow and any one pending split. */
  lemma CustodyCovers(s: State, i: int)
    requires Sound(s)
    ensures 0 <= Held(s) && 0 <= Pending(s)
    ensures HeldAt(s.escrows.recs, s.disputes.recs)(i) <= Bal(s.ledger.balances, Contract)
    ensures PendingAt(s.splits.recs)(i) <= Bal(s.ledger.balances, Contract)
    ensures Bal(s.ledger.balances, Contract) <= s.ledger.supply
  {
    SumBounds(s.escrows.count, HeldAt(s.escrows.recs, s.disputes.recs), i);
    SumBounds(s.splits.count, PendingAt(s.splits.recs), i);
    BalanceBounds(s.ledger, Contract, Contract);
  }

  // ---------- how custody obligations change ----------

  /** Rewriting escrow `id`, its dispute, or both changes no other obligation. */
  lemma HeldChange(s: State, t: State, id: u32)
    requires s.escrows.count == t.escrows.count
    requires forall i: int | i != id :: (i in s.escrows.recs <==> i in t.escrows.recs)
                                        && (i in s.escrows.recs ==> s.escrows.recs[i] == t.escrows.recs[i])
    requires forall d | d in s.disputes.recs && s.disputes.recs[d].escrowId != id ::
               d in t.disputes.recs && t.disputes.recs[d] == s.disputes.recs[d]
    requires forall d | d in t.disputes.recs && t.disputes.recs[d].escrowId != id ::
               d in s.disputes.recs && t.disputes.recs[d] == s.disputes.recs[d]
    requires 1 <= id <= s.escrows.count
    ensures Held(t) == Held(s) - HeldAt(s.escrows.recs, s.disputes.recs)(id)
                               + HeldAt(t.escrows.recs, t.disputes.recs)(id)
  {
    SumChange(s.escrows.count, HeldAt(s.escrows.recs, s.disputes.recs),
              HeldAt(t.escrows.recs, t.disputes.recs), id);
  }

  /** A new unsettled escrow adds its amount. */
  lemma HeldAdd(s: State, t: State, r: EscrowRecord)
    requires EscrowsOk(s.escrows) && DisputesOk(s.disputes, s.escrows)
    requires s.escrows.count < U32_MAX && t.escrows == s.escrows.Add(r)
    requires t.disputes == s.disputes && !r.Settled()
    ensures Held(t) == Held(s) + r.amount
  {
    SumChange(s.escrows.count, HeldAt(s.escrows.recs, s.disputes.recs),
              HeldAt(t.escrows.recs, t.disputes.recs), 0);
  }

  lemma PendingChange(s: State, t: State, id: u32, r: SplitRecord)
    requires id in s.splits.recs && s.splits.Dense() && t.splits == s.splits.Put(id, r)
    ensures Pending(t) == Pending(s) - PendingAt(s.splits.recs)(id) + PendingAt(t.splits.recs)(id)
    ensures TotalDistributed(t.splits) == TotalDistributed(s.splits)
                                          - DistributedAt(s.splits.recs)(id) + DistributedAt(t.splits.recs)(id)
  {
    SumChange(s.splits.count, PendingAt(s.splits.recs), PendingAt(t.splits.recs), id);
    SumChange(s.splits.count, DistributedAt(s.splits.recs), DistributedAt(t.splits.recs), id);
  }

  lemma PendingAdd(s: State, t: State, r: SplitRecord)
    requires s.splits.Dense() && s.splits.count < U32_MAX && t.splits == s.splits.Add(r)
    requires r.Pending()
    ensures Pending(t) == Pending(s) + r.total
    ensures TotalDistributed(t.splits) == TotalDistributed(s.splits)
  {
    SumChange(s.splits.count, PendingAt(s.splits.recs), PendingAt(t.splits.recs), 0);
    SumChange(s.splits.count, DistributedAt(s.splits.recs), DistributedAt(t.splits.recs), 0);
  }

  // ---------- putting a sound state together again ----------

  /** A change of the ledger, the escrows, the disputes and the splits, part by part. */
  lemma Assemble(s: State, t: State)
    requires Sound(s)
    requires t == s.(ledger := t.ledger, escrows := t.escrows, disputes := t.disputes, splits := t.splits)
    requires Conserved(t.ledger) && EscrowsOk(t.escrows) && DisputesOk(t.disputes, t.escrows) && SplitsOk(t.splits)
    requires Solvent(t)
    ensures Sound(t)
  {
  }

  lemma Parts(s: State)
    requires Sound(s)
    ensures Conserved(s.ledger) && EscrowsOk(s.escrows) && DisputesOk(s.disputes, s.escrows)
    ensures SplitsOk(s.splits) && RecurringsOk(s.recurrings) && AllowanceSpec.Sane(s.allowances) && Solvent(s)
  {
  }

  /** Filing a new escrow keeps the books in step. */
  lemma EscrowFiled(es: Book<EscrowRecord>, ds: Book<DisputeRecord>, r: EscrowRecord)
    requires EscrowsOk(es) && DisputesOk(ds, es) && es.count < U32_MAX
    requires r.id == es.count + 1 && r.amount > 0 && !r.Settled()
    requires r.depositor != Contract && r.depositor != r.beneficiary
    ensures EscrowsOk(es.Add(r)) && DisputesOk(ds, es.Add(r))
  {
  }

  /** Rewriting an unsettled escrow keeps the books in step: no closed dispute is about it. */
  lemma EscrowRewritten(es: Book<EscrowRecord>, ds: Book<DisputeRecord>, id: u32, r: EscrowRecord)
    requires EscrowsOk(es) && DisputesOk(ds, es) && id in es.recs && !es.recs[id].Settled()
    requires r.id == id && r.amount > 0 && !(r.released && r.refunded)
    requires r.depositor == es.recs[id].depositor && r.beneficiary == es.recs[id].beneficiary
    ensures EscrowsOk(es.Put(id, r)) && DisputesOk(ds, es.Put(id, r))
    ensures !Reversible(ds.recs, id)
  {
  }
}
