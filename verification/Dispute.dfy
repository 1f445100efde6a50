/** dispute.rs on the storage cells, with the escrow pointer, the open list and the histories. */
module Dispute {
  import opened Types
  import opened Sums
  import opened BalanceSpec
  import opened Invariants
  import opened Storage
  import DisputeSpec
  import DisputeLaws
  import EscrowSpec
  import Balance
  import Escrow

  // ---------- writing records and indexes ----------

  method AddDispute(e: Env, r: DisputeRecord)
    requires e.Core().disputes.count < U32_MAX
    modifies e`disputeCount, e`dispute
    ensures e.Core() == old(e.Core()).(disputes := old(e.Core()).disputes.Add(r)) && e.Lookup() == old(e.Lookup())
  {
    e.disputeCount := e.disputeCount + 1;
    e.dispute := e.dispute[e.disputeCount := r];
  }

  method PutDispute(e: Env, id: u32, r: DisputeRecord)
    modifies e`dispute
    ensures e.Core() == old(e.Core()).(disputes := old(e.Core()).disputes.Put(id, r)) && e.Lookup() == old(e.Lookup())
  {
    e.dispute := e.dispute[id := r];
  }

  method SetPointer(e: Env, escrowId: u32, id: u32)
    modifies e`escrowDispute
    ensures e.Core() == old(e.Core())
    ensures e.Lookup() == old(e.Lookup()).(escrowDispute := old(e.Lookup()).escrowDispute[escrowId := id])
  {
    e.escrowDispute := e.escrowDispute[escrowId := id];
  }

  method RemovePointer(e: Env, escrowId: u32)
    modifies e`escrowDispute
    ensures e.Core() == old(e.Core())
    ensures e.Lookup() == old(e.Lookup()).(escrowDispute := old(e.Lookup()).escrowDispute - {escrowId})
  {
    e.escrowDispute := e.escrowDispute - {escrowId};
  }

  method AppendHistory(e: Env, escrowId: u32, id: u32)
    modifies e`disputeHistory
    ensures e.Core() == old(e.Core())
    ensures var was := old(e.Lookup()).disputeHistory;
            e.Lookup() == old(e.Lookup()).(disputeHistory := was[escrowId := At(was, escrowId) + [id]])
  {
    e.disputeHistory := e.disputeHistory[escrowId := At(e.disputeHistory, escrowId) + [id]];
  }

  method AppendOpen(e: Env, id: u32)
    modifies e`openDisputes
    ensures e.Core() == old(e.Core())
    ensures e.Lookup() == old(e.Lookup()).(openDisputes := old(e.Lookup()).openDisputes + [id])
  {
    e.openDisputes := e.openDisputes + [id];
  }

  method RemoveOpen(e: Env, id: u32)
    modifies e`openDisputes
    ensures e.Core() == old(e.Core())
    ensures e.Lookup() == old(e.Lookup()).(openDisputes := Without(old(e.Lookup()).openDisputes, id))
  {
    e.openDisputes := Filter(e.openDisputes, id);
  }

  /** A new dispute is filed under the next id, pointed to, put on the history and listed open. */
  method FileOpened(e: Env, r: DisputeRecord)
    requires Indexed(e.Core(), e.Lookup()) && e.Core().disputes.Dense() && e.Core().disputes.count < U32_MAX
    requires r.id == e.Core().disputes.count + 1 && r.status == Open && r.escrowId !in e.Lookup().escrowDispute
    modifies e`disputeCount, e`dispute, e`escrowDispute, e`disputeHistory, e`openDisputes
    ensures Indexed(e.Core(), e.Lookup())
    ensures e.Core() == old(e.Core()).(disputes := old(e.Core()).disputes.Add(r))
  {
    hide Env.Core, Env.Lookup, HoldersExact, AllowancesIndexed, DepositorsIndexed, DisputesIndexed, SplitsIndexed;
    hide PayersIndexed;
    ghost var s, x := e.Core(), e.Lookup();
    DisputeOpened(s.disputes, x.escrowDispute, x.disputeHistory, x.openDisputes, r);
    AddDispute(e, r);
    SetPointer(e, r.escrowId, r.id);
    AppendHistory(e, r.escrowId, r.id);
    AppendOpen(e, r.id);
  }

  /** An Open dispute is written back closed and dropped from pointer and open list. */
  method FileClosed(e: Env, id: u32, closed: DisputeRecord)
    requires Indexed(e.Core(), e.Lookup()) && id in e.Core().disputes.recs && e.Core().disputes.recs[id].status == Open
    requires closed.escrowId == e.Core().disputes.recs[id].escrowId && closed.status != Open && !Waiting(closed)
    modifies e`dispute, e`escrowDispute, e`openDisputes
    ensures Indexed(e.Core(), e.Lookup())
    ensures e.Core() == old(e.Core()).(disputes := old(e.Core()).disputes.Put(id, closed))
  {
    hide Env.Core, Env.Lookup, HoldersExact, AllowancesIndexed, DepositorsIndexed, DisputesIndexed, SplitsIndexed;
    hide PayersIndexed;
    ghost var s, x := e.Core(), e.Lookup();
    DisputeClosed(s.disputes, x.escrowDispute, x.disputeHistory, x.openDisputes, id, closed);
    PutDispute(e, id, closed);
    RemovePointer(e, closed.escrowId);
    RemoveOpen(e, id);
  }

  /** A resolved dispute is written back appealed and listed open again. */
  method FileAppealed(e: Env, id: u32, appealed: DisputeRecord)
    requires Indexed(e.Core(), e.Lookup()) && id in e.Core().disputes.recs && !Waiting(e.Core().disputes.recs[id])
    requires appealed.escrowId == e.Core().disputes.recs[id].escrowId && appealed.status != Open && Waiting(appealed)
    modifies e`dispute, e`openDisputes
    ensures Indexed(e.Core(), e.Lookup())
    ensures e.Core() == old(e.Core()).(disputes := old(e.Core()).disputes.Put(id, appealed))
  {
    hide Env.Core, Env.Lookup, HoldersExact, AllowancesIndexed, DepositorsIndexed, DisputesIndexed, SplitsIndexed;
    hide PayersIndexed;
    ghost var s, x := e.Core(), e.Lookup();
    DisputeAppealed(s.disputes, x.escrowDispute, x.disputeHistory, x.openDisputes, id, appealed);
    PutDispute(e, id, appealed);
    AppendOpen(e, id);
  }

  /** An appealed dispute is written back and dropped from the open list. */
  method FileDecided(e: Env, id: u32, decided: DisputeRecord)
    requires Indexed(e.Core(), e.Lookup()) && id in e.Core().disputes.recs && e.Core().disputes.recs[id].status != Open
    requires decided.escrowId == e.Core().disputes.recs[id].escrowId && decided.status != Open && decided.appealResolver == None
    modifies e`dispute, e`openDisputes
    ensures Indexed(e.Core(), e.Lookup())
    ensures e.Core() == old(e.Core()).(disputes := old(e.Core()).disputes.Put(id, decided))
  {
    hide Env.Core, Env.Lookup, HoldersExact, AllowancesIndexed, DepositorsIndexed, DisputesIndexed, SplitsIndexed;
    hide PayersIndexed;
    ghost var s, x := e.Core(), e.Lookup();
    AppealClosed(s.disputes, x.escrowDispute, x.disputeHistory, x.openDisputes, id, decided);
    PutDispute(e, id, decided);
    RemoveOpen(e, id);
  }

  // ---------- what the operations rely on ----------

  lemma DisputesDense(s: State)
    requires Sound(s)
    ensures s.disputes.Dense()
  {
  }

  lemma NoAppealPending(s: State, id: u32)
    requires Sound(s) && id in s.disputes.recs && s.disputes.recs[id].status != Appealed
    ensures s.disputes.recs[id].appealResolver == None
  {
  }

  lemma SettledAmountPositive(s: State, id: u32)
    requires Sound(s) && id in s.escrows.recs
    ensures s.escrows.recs[id].amount > 0
  {
  }

  // ---------- the history of an escrow ----------

  lemma {:induction false} DisputeIdsExact(recs: map<u32, DisputeRecord>, n: u32, e: u32)
    ensures var ids := DisputeIds(recs, n, e);
            && (forall d: u32 :: d in ids <==> 1 <= d <= n && d in recs && recs[d].escrowId == e)
            && NoDup(ids)
  {
    if n > 0 {
      DisputeIdsExact(recs, n - 1, e);
      var ids := DisputeIds(recs, n - 1, e);
      forall j | 0 <= j < |ids| ensures ids[j] <= n - 1 {
        assert ids[j] in ids;
      }
    }
  }

  lemma TwoListed(ids: seq<u32>)
    requires NoDup(ids) && |ids| > 1
    ensures exists i, j :: i in ids && j in ids && i != j
  {
    assert ids[0] in ids && ids[1] in ids && ids[0] != ids[1];
  }

  /** An escrow is disputed at most once in its whole life: its history lists at most one id. */
  lemma HistoryAtMostOne(s: State, x: Indexes, e: u32)
    requires Sound(s) && Indexed(s, x)
    ensures |At(x.disputeHistory, e)| <= 1
  {
    var ids := At(x.disputeHistory, e);
    DisputeIdsExact(s.disputes.recs, s.disputes.count, e);
    assert ids == DisputeIds(s.disputes.recs, s.disputes.count, e);
    if |ids| > 1 {
      TwoListed(ids);
    }
  }

  // ---------- the operations ----------

  method SettleByOutcome(e: Env, id: u32, toBeneficiary: bool) returns (ok: bool)
    requires e.Valid()
    modifies e`balances, e`holders, e`escrow
    ensures ok <==> DisputeSpec.SettleByOutcome(old(e.Core()), id, toBeneficiary).Some?
    ensures ok ==> e.Valid() && e.Core() == DisputeSpec.SettleByOutcome(old(e.Core()), id, toBeneficiary).value
  {
    hide Sound, Indexed;
    if id !in e.escrow {
      return false;
    }
    var record := e.escrow[id];
    if record.released || record.refunded {
      return false;
    }
    if toBeneficiary {
      ok := Escrow.PayOut(e, id, record.(released := true), record.beneficiary);
    } else {
      ok := Escrow.PayOut(e, id, record.(refunded := true), record.depositor);
    }
  }

  method OpenDispute(e: Env, c: Ctx, claimant: Address, id: u32, resolver: Address, evidence: nat, expiry: u32)
    returns (ok: bool, dispute: u32)
    requires e.Valid()
    modifies e`disputeCount, e`dispute, e`escrowDispute, e`disputeHistory, e`openDisputes
    ensures ok <==> DisputeSpec.OpenDispute(c, old(e.Core()), claimant, id, resolver, evidence, expiry).Some?
    ensures ok ==> e.Valid()
    ensures ok ==> e.Core() == DisputeSpec.OpenDispute(c, old(e.Core()), claimant, id, resolver, evidence, expiry).value
    ensures ok ==> dispute == old(e.disputeCount) + 1
  {
    hide Sound, Indexed, EscrowSpec.HasOpenDispute;
    ghost var s := e.Core();
    PointerIs(s, e.Lookup(), id);
    dispute := 0;
    if evidence > DisputeSpec.MAX_EVIDENCE || expiry <= c.ledger || id !in e.escrow {
      return false, 0;
    }
    var record := e.escrow[id];
    if record.released || record.refunded {
      return false, 0;
    }
    if claimant != record.depositor && claimant != record.beneficiary {
      return false, 0;
    }
    if resolver == claimant || resolver == record.depositor || resolver == record.beneficiary {
      return false, 0;
    }
    if id in e.escrowDispute || !c.Signed(claimant) || e.disputeCount == U32_MAX {
      return false, 0;
    }
    var count := e.disputeCount + 1;
    var r := DisputeRecord(count, id, claimant, resolver, Open, c.ledger, expiry, None);
    DisputesDense(s);
    FileOpened(e, r);
    DisputeLaws.OpenSound(c, s, claimant, id, resolver, evidence, expiry);
    return true, count;
  }

  /** The escrow is settled, then the dispute closed. */
  method CloseDispute(e: Env, id: u32, toBeneficiary: bool, status: DisputeStatus) returns (ok: bool)
    requires e.Valid() && id in e.dispute && e.dispute[id].status == Open
    requires if toBeneficiary then status == ResolvedForBeneficiary else status in {ResolvedForDepositor, Expired}
    modifies e`balances, e`holders, e`escrow, e`dispute, e`escrowDispute, e`openDisputes
    ensures ok <==> DisputeSpec.Close(old(e.Core()), id, toBeneficiary, status).Some?
    ensures ok ==> e.Valid() && e.Core() == DisputeSpec.Close(old(e.Core()), id, toBeneficiary, status).value
  {
    hide Sound, Indexed, DisputeSpec.SettleByOutcome;
    ghost var s := e.Core();
    var record := e.dispute[id];
    ok := SettleByOutcome(e, record.escrowId, toBeneficiary);
    if !ok {
      return false;
    }
    FileClosed(e, id, record.(status := status));
    DisputeLaws.CloseSound(s, id, toBeneficiary, status);
  }

  method ResolveDispute(e: Env, c: Ctx, resolver: Address, id: u32, toBeneficiary: bool) returns (ok: bool)
    requires e.Valid()
    modifies e`balances, e`holders, e`escrow, e`dispute, e`escrowDispute, e`openDisputes
    ensures ok <==> DisputeSpec.Resolve(c, old(e.Core()), resolver, id, toBeneficiary).Some?
    ensures ok ==> e.Valid() && e.Core() == DisputeSpec.Resolve(c, old(e.Core()), resolver, id, toBeneficiary).value
  {
    hide Sound, Indexed, DisputeSpec.Close;
    if !c.Signed(resolver) || id !in e.dispute {
      return false;
    }
    var record := e.dispute[id];
    if record.status != Open || record.resolver != resolver {
      return false;
    }
    ok := CloseDispute(e, id, toBeneficiary, if toBeneficiary then ResolvedForBeneficiary else ResolvedForDepositor);
  }

  method ExpireDispute(e: Env, c: Ctx, id: u32) returns (ok: bool)
    requires e.Valid()
    modifies e`balances, e`holders, e`escrow, e`dispute, e`escrowDispute, e`openDisputes
    ensures ok <==> DisputeSpec.Expire(c, old(e.Core()), id).Some?
    ensures ok ==> e.Valid() && e.Core() == DisputeSpec.Expire(c, old(e.Core()), id).value
  {
    hide Sound, Indexed, DisputeSpec.Close;
    if id !in e.dispute {
      return false;
    }
    var record := e.dispute[id];
    if record.status != Open || c.ledger < record.expiry {
      return false;
    }
    ok := CloseDispute(e, id, false, Expired);
  }

  method AppealDispute(e: Env, c: Ctx, caller: Address, id: u32, appealResolver: Address) returns (ok: bool)
    requires e.Valid()
    modifies e`dispute, e`openDisputes
    ensures ok <==> DisputeSpec.Appeal(c, old(e.Core()), caller, id, appealResolver).Some?
    ensures ok ==> e.Valid() && e.Core() == DisputeSpec.Appeal(c, old(e.Core()), caller, id, appealResolver).value
  {
    hide Sound, Indexed;
    ghost var s := e.Core();
    if id !in e.dispute {
      return false;
    }
    var record := e.dispute[id];
    if record.status != ResolvedForBeneficiary && record.status != ResolvedForDepositor {
      return false;
    }
    if record.claimant != caller || !c.Signed(caller) {
      return false;
    }
    if appealResolver == record.claimant || appealResolver == record.resolver {
      return false;
    }
    var appealed := record.(status := Appealed, appealResolver := Some(appealResolver));
    NoAppealPending(s, id);
    FileAppealed(e, id, appealed);
    DisputeLaws.AppealLaw(c, s, caller, id, appealResolver);
    return true;
  }

  /** The original settlement is moved back and the escrow's flags are swapped. */
  method ReverseSettlement(e: Env, id: u32) returns (ok: bool, status: DisputeStatus)
    requires Indexed(e.Core(), e.Lookup()) && id in e.escrow && 0 <= e.escrow[id].amount
    modifies e`balances, e`holders, e`escrow
    ensures var r := old(e.escrow)[id];
            && status == (if r.released then ResolvedForDepositor else ResolvedForBeneficiary)
            && var l := if r.released then MoveFunds(old(e.Core()).ledger, r.beneficiary, r.depositor, r.amount)
                        else MoveFunds(old(e.Core()).ledger, r.depositor, r.beneficiary, r.amount);
               && (ok <==> l.Some?)
               && (ok ==> Indexed(e.Core(), e.Lookup())
                          && e.Core() == old(e.Core()).(ledger := l.value,
                               escrows := old(e.Core()).escrows.Put(id, r.(released := !r.released, refunded := r.released))))
  {
    hide Indexed;
    var record := e.escrow[id];
    var wasReleased := record.released;
    if wasReleased {
      ok := Balance.MoveFunds(e, record.beneficiary, record.depositor, record.amount);
      status := ResolvedForDepositor;
    } else {
      ok := Balance.MoveFunds(e, record.depositor, record.beneficiary, record.amount);
      status := ResolvedForBeneficiary;
    }
    if ok {
      Escrow.WriteEscrow(e, id, record.(released := !wasReleased, refunded := wasReleased));
    }
  }

  method ResolveAppeal(e: Env, c: Ctx, resolver: Address, id: u32, overturn: bool) returns (ok: bool)
    requires e.Valid()
    modifies e`balances, e`holders, e`escrow, e`dispute, e`openDisputes
    ensures ok <==> DisputeSpec.ResolveAppeal(c, old(e.Core()), resolver, id, overturn).Some?
    ensures ok ==> e.Valid() && e.Core() == DisputeSpec.ResolveAppeal(c, old(e.Core()), resolver, id, overturn).value
  {
    hide Sound, Indexed;
    ghost var s := e.Core();
    if id !in e.dispute {
      return false;
    }
    var record := e.dispute[id];
    if record.status != Appealed || record.appealResolver != Some(resolver) || !c.Signed(resolver) {
      return false;
    }
    if record.escrowId !in e.escrow {
      return false;
    }
    if overturn {
      SettledAmountPositive(s, record.escrowId);
      var moved, status := ReverseSettlement(e, record.escrowId);
      if !moved {
        return false;
      }
      record := record.(status := status);
    }
    FileDecided(e, id, record.(appealResolver := None));
    DisputeLaws.ResolveAppealLaw(c, s, resolver, id, overturn);
    return true;
  }
}
