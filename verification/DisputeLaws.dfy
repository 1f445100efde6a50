/** Disputes and appeals: when each operation commits, and what it keeps. */
module DisputeLaws {
  import opened Types
  import opened BalanceSpec
  import opened EscrowSpec
  import opened DisputeSpec
  import opened Invariants
  import opened EscrowLaws
  import AllowanceSpec

  /** An unsettled escrow without an open dispute has no dispute at all, so the guard on open
      disputes is enough to keep its whole history at one dispute. */
  lemma NoEarlierDispute(ds: Book<DisputeRecord>, es: Book<EscrowRecord>, id: u32)
    requires DisputesOk(ds, es) && id in es.recs && !es.recs[id].Settled() && !HasOpenDispute(ds, id)
    ensures forall d | d in ds.recs :: ds.recs[d].escrowId != id
  {
  }

  lemma DisputeFiled(ds: Book<DisputeRecord>, es: Book<EscrowRecord>, r: DisputeRecord)
    requires DisputesOk(ds, es) && ds.count < U32_MAX
    requires r.id == ds.count + 1 && r.status == Open && r.appealResolver == None && r.escrowId in es.recs
    requires r.claimant in {es.recs[r.escrowId].depositor, es.recs[r.escrowId].beneficiary}
    requires forall d | d in ds.recs :: ds.recs[d].escrowId != r.escrowId
    ensures DisputesOk(ds.Add(r), es)
  {
  }

  /** A dispute can be opened over an unsettled escrow that was never disputed before, by one of
      its parties, with an outside resolver and a later expiry; no funds move. */
  lemma OpenLaw(c: Ctx, s: State, claimant: Address, id: u32, resolver: Address, evidence: nat, expiry: u32)
    requires Sound(s)
    ensures OpenDispute(c, s, claimant, id, resolver, evidence, expiry).Some? <==>
            && evidence <= 128 && c.ledger < expiry && claimant in c.signers && s.disputes.count < U32_MAX
            && id in s.escrows.recs && !s.escrows.recs[id].Settled()
            && var e := s.escrows.recs[id];
               && claimant in {e.depositor, e.beneficiary} && resolver !in {e.depositor, e.beneficiary}
               && forall d | d in s.disputes.recs :: s.disputes.recs[d].escrowId != id
    ensures OpenDispute(c, s, claimant, id, resolver, evidence, expiry).Some? ==>
              var t := OpenDispute(c, s, claimant, id, resolver, evidence, expiry).value;
              && t == s.(disputes := t.disputes) && t.disputes.count in t.disputes.recs
              && var d := t.disputes.recs[t.disputes.count];
                 && t.disputes == s.disputes.Add(d) && d.escrowId == id && d.claimant == claimant
                 && d.resolver == resolver && d.status == Open && d.expiry == expiry && d.openedAt == c.ledger
  {
    hide Held, Pending, SplitsOk, RecurringsOk, Conserved;
    if id in s.escrows.recs && !s.escrows.recs[id].Settled() && !HasOpenDispute(s.disputes, id) {
      NoEarlierDispute(s.disputes, s.escrows, id);
    }
  }

  lemma OpenSound(c: Ctx, s: State, claimant: Address, id: u32, resolver: Address, evidence: nat, expiry: u32)
    requires Sound(s) && OpenDispute(c, s, claimant, id, resolver, evidence, expiry).Some?
    ensures Sound(OpenDispute(c, s, claimant, id, resolver, evidence, expiry).value)
  {
    hide Sound, SplitsOk, RecurringsOk, Held, Pending, HasOpenDispute;
    Parts(s);
    var t := OpenDispute(c, s, claimant, id, resolver, evidence, expiry).value;
    NoEarlierDispute(s.disputes, s.escrows, id);
    DisputeFiled(s.disputes, s.escrows, t.disputes.recs[s.disputes.count + 1]);
    CustodyShrinks(s, t, 0) by {
      HeldChange(s, t, id);
    }
    Assemble(s, t);
  }

  /** Closing a dispute discharges its escrow, unless the contract was paid as beneficiary and
      may have to give the amount back. */
  lemma CloseHeld(s: State, id: u32, toBeneficiary: bool, status: DisputeStatus)
    requires Sound(s) && id in s.disputes.recs
    requires if toBeneficiary then status == ResolvedForBeneficiary else status in {ResolvedForDepositor, Expired}
    requires Close(s, id, toBeneficiary, status).Some?
    ensures var e := s.escrows.recs[s.disputes.recs[id].escrowId];
            Held(Close(s, id, toBeneficiary, status).value) ==
            Held(s) - e.amount + if toBeneficiary && e.beneficiary == Contract then e.amount else 0
  {
    hide Held, Pending, EscrowsOk, SplitsOk, RecurringsOk, AllowanceSpec.Sane, Conserved;
    var eid := s.disputes.recs[id].escrowId;
    var t := Close(s, id, toBeneficiary, status).value;
    ReversibleKept(s.disputes.recs, id, t.disputes.recs[id]);
    HeldChange(s, t, eid) by {
      Parts(s);
      EidInRange(s.escrows, eid);
    }
  }

  lemma EidInRange(es: Book<EscrowRecord>, id: u32)
    requires EscrowsOk(es) && id in es.recs
    ensures 1 <= id <= es.count
  {
  }

  /** What closing dispute `id` for one party does: the escrow's amount goes from custody to that
      party, the escrow is marked accordingly and the dispute gets its final status. */
  ghost predicate Closed(s: State, id: u32, toBeneficiary: bool, status: DisputeStatus, t: State) {
    && id in s.disputes.recs && s.disputes.recs[id].escrowId in s.escrows.recs
    && var d := s.disputes.recs[id];
       var e := s.escrows.recs[d.escrowId];
       && Moved(s.ledger, Contract, if toBeneficiary then e.beneficiary else e.depositor, e.amount, t.ledger)
       && t.escrows == s.escrows.Put(d.escrowId, if toBeneficiary then e.(released := true) else e.(refunded := true))
       && t.disputes == s.disputes.Put(id, d.(status := status))
       && t.splits == s.splits && t.recurrings == s.recurrings && t.allowances == s.allowances
  }

  /** Closing an Open dispute over an unsettled escrow always commits. */
  lemma CloseLaw(s: State, id: u32, toBeneficiary: bool, status: DisputeStatus)
    requires Sound(s) && id in s.disputes.recs && s.disputes.recs[id].status == Open
    requires if toBeneficiary then status == ResolvedForBeneficiary else status in {ResolvedForDepositor, Expired}
    ensures Close(s, id, toBeneficiary, status).Some? <==> !s.escrows.recs[s.disputes.recs[id].escrowId].Settled()
    ensures Close(s, id, toBeneficiary, status).Some? ==>
              var t := Close(s, id, toBeneficiary, status).value; Sound(t) && Closed(s, id, toBeneficiary, status, t)
  {
    var d := s.disputes.recs[id];
    var e := s.escrows.recs[d.escrowId];
    if !e.Settled() {
      var settled := if toBeneficiary then e.(released := true) else e.(refunded := true);
      var to := if toBeneficiary then e.beneficiary else e.depositor;
      PaySound(s, d.escrowId, settled, to);
      PayLaw(s, d.escrowId, settled, to);
      var u := Pay(s, d.escrowId, settled, to).value;
      var t := Close(s, id, toBeneficiary, status).value;
      assert t == u.(disputes := s.disputes.Put(id, d.(status := status)));
      CloseHeld(s, id, toBeneficiary, status);
      DisputesKept(s, t, id, d.escrowId);
      assert Pending(t) == Pending(s);
      assert Solvent(t);
    }
  }

  lemma CloseSound(s: State, id: u32, toBeneficiary: bool, status: DisputeStatus)
    requires Sound(s) && id in s.disputes.recs && s.disputes.recs[id].status == Open
    requires if toBeneficiary then status == ResolvedForBeneficiary else status in {ResolvedForDepositor, Expired}
    requires Close(s, id, toBeneficiary, status).Some?
    ensures Sound(Close(s, id, toBeneficiary, status).value)
  {
    CloseLaw(s, id, toBeneficiary, status);
  }

  /** One dispute and its escrow rewritten together leave the others in step. */
  lemma DisputesKept(s: State, t: State, id: u32, eid: u32)
    requires EscrowsOk(s.escrows) && DisputesOk(s.disputes, s.escrows)
    requires id in s.disputes.recs && s.disputes.recs[id].escrowId == eid
    requires id in t.disputes.recs && t.disputes == s.disputes.Put(id, t.disputes.recs[id])
    requires eid in t.escrows.recs && t.escrows == s.escrows.Put(eid, t.escrows.recs[eid])
    requires var d, was := t.disputes.recs[id], s.disputes.recs[id];
             && d.id == was.id && d.escrowId == eid && d.claimant == was.claimant
             && StatusAgrees(d, t.escrows.recs[eid]) && (d.appealResolver.Some? ==> d.status == Appealed)
    requires var e, was := t.escrows.recs[eid], s.escrows.recs[eid];
             e.depositor == was.depositor && e.beneficiary == was.beneficiary
    ensures DisputesOk(t.disputes, t.escrows)
  {
  }

  /** The designated resolver can always resolve an Open dispute whose escrow is unsettled,
      before and after its expiry. */
  lemma ResolveLaw(c: Ctx, s: State, resolver: Address, id: u32, toBeneficiary: bool)
    requires Sound(s)
    ensures Resolve(c, s, resolver, id, toBeneficiary).Some? <==>
            && id in s.disputes.recs && s.disputes.recs[id].status == Open
            && s.disputes.recs[id].resolver == resolver && resolver in c.signers
            && !s.escrows.recs[s.disputes.recs[id].escrowId].Settled()
    ensures Resolve(c, s, resolver, id, toBeneficiary).Some? ==>
              var t := Resolve(c, s, resolver, id, toBeneficiary).value;
              && Sound(t)
              && Closed(s, id, toBeneficiary, if toBeneficiary then ResolvedForBeneficiary else ResolvedForDepositor, t)
  {
    hide Sound, Closed, Close;
    Parts(s);
    if id in s.disputes.recs && s.disputes.recs[id].status == Open {
      CloseLaw(s, id, toBeneficiary, if toBeneficiary then ResolvedForBeneficiary else ResolvedForDepositor);
    }
  }

  /** Anyone can expire an Open dispute over an unsettled escrow once its ledger has come. */
  lemma ExpireLaw(c: Ctx, s: State, id: u32)
    requires Sound(s)
    ensures Expire(c, s, id).Some? <==>
            && id in s.disputes.recs && s.disputes.recs[id].status == Open
            && s.disputes.recs[id].expiry <= c.ledger
            && !s.escrows.recs[s.disputes.recs[id].escrowId].Settled()
    ensures Expire(c, s, id).Some? ==>
              var t := Expire(c, s, id).value; Sound(t) && Closed(s, id, false, Expired, t)
  {
    hide Sound, Closed, Close;
    Parts(s);
    if id in s.disputes.recs && s.disputes.recs[id].status == Open {
      CloseLaw(s, id, false, Expired);
    }
  }

  /** An appeal needs a resolved dispute, its claimant, and a resolver new to the case; it moves
      no funds and changes no other record. */
  lemma AppealLaw(c: Ctx, s: State, caller: Address, id: u32, appealResolver: Address)
    requires Sound(s)
    ensures Appeal(c, s, caller, id, appealResolver).Some? <==>
            && id in s.disputes.recs && caller in c.signers
            && var d := s.disputes.recs[id];
               && (d.status == ResolvedForBeneficiary || d.status == ResolvedForDepositor)
               && d.claimant == caller && appealResolver != caller && appealResolver != d.resolver
    ensures Appeal(c, s, caller, id, appealResolver).Some? ==>
              var t := Appeal(c, s, caller, id, appealResolver).value;
              var d := s.disputes.recs[id].(status := Appealed, appealResolver := Some(appealResolver));
              Sound(t) && t == s.(disputes := s.disputes.Put(id, d))
  {
    var r := Appeal(c, s, caller, id, appealResolver);
    if r.Some? {
      var eid := s.disputes.recs[id].escrowId;
      assert r.value.escrows == s.escrows.Put(eid, s.escrows.recs[eid]);
      DisputesKept(s, r.value, id, eid);
      ReversibleKept(s.disputes.recs, id, r.value.disputes.recs[id]);
      HeldChange(s, r.value, eid);
    }
  }

  lemma ReversibleKept(ds: map<u32, DisputeRecord>, id: u32, d: DisputeRecord)
    requires id in ds && ds[id].escrowId == d.escrowId
    requires forall i | i in ds && ds[i].escrowId == d.escrowId :: i == id
    ensures Reversible(ds[id := d], d.escrowId) <==> d.status in {ResolvedForBeneficiary, Appealed}
  {
    assert ds[id := d][id] == d;
  }

  /** The party a settled escrow has paid, and the one it would be taken to by an overturn. */
  function PaidParty(e: EscrowRecord): Address {
    if e.released then e.beneficiary else e.depositor
  }

  function OtherParty(e: EscrowRecord): Address {
    if e.released then e.depositor else e.beneficiary
  }

  /** Overturning an appeal commits exactly when the paid party still has the amount, which
      custody always has; the same amount moves to the other party. */
  lemma OverturnLaw(s: State, id: u32)
    requires Sound(s) && id in s.disputes.recs && s.disputes.recs[id].status == Appealed
    ensures var e := s.escrows.recs[s.disputes.recs[id].escrowId];
            && (Overturn(s, id).Some? <==>
                PaidParty(e) == Contract || e.amount <= Bal(s.ledger.balances, PaidParty(e)))
            && (Overturn(s, id).Some? ==>
                  Moved(s.ledger, PaidParty(e), OtherParty(e), e.amount, Overturn(s, id).value.ledger))
  {
    var eid := s.disputes.recs[id].escrowId;
    OverturnMoves(s, id);
    CustodyCovers(s, eid);
    assert Reversible(s.disputes.recs, eid);
  }

  /** The two flags swap, the status follows them, and no appeal is pending any more. */
  lemma OverturnRecords(s: State, id: u32)
    requires id in s.disputes.recs && s.disputes.recs[id].escrowId in s.escrows.recs && Overturn(s, id).Some?
    requires var e := s.escrows.recs[s.disputes.recs[id].escrowId]; e.released != e.refunded
    ensures var t := Overturn(s, id).value;
            var eid := s.disputes.recs[id].escrowId;
            var e, f := s.escrows.recs[eid], t.escrows.recs[eid];
            && t == s.(ledger := t.ledger, escrows := s.escrows.Put(eid, f), disputes := s.disputes.Put(id, t.disputes.recs[id]))
            && f == e.(released := e.refunded, refunded := e.released)
            && t.disputes.recs[id] ==
               s.disputes.recs[id].(appealResolver := None,
                                    status := if f.released then ResolvedForBeneficiary else ResolvedForDepositor)
  {
  }

  lemma EscrowFlagsSwapped(es: Book<EscrowRecord>, id: u32)
    requires EscrowsOk(es) && id in es.recs
    ensures var e := es.recs[id];
            && EscrowsOk(es.Put(id, e.(released := e.refunded, refunded := e.released)))
            && e.amount > 0 && e.depositor != Contract && 1 <= id <= es.count
  {
  }

  lemma AppealedIsSettled(ds: Book<DisputeRecord>, es: Book<EscrowRecord>, id: u32)
    requires DisputesOk(ds, es) && EscrowsOk(es) && id in ds.recs && ds.recs[id].status == Appealed
    ensures ds.recs[id].escrowId in es.recs
    ensures var e := es.recs[ds.recs[id].escrowId]; e.released != e.refunded
    ensures Reversible(ds.recs, ds.recs[id].escrowId)
    ensures forall i | i in ds.recs && ds.recs[i].escrowId == ds.recs[id].escrowId :: i == id
  {
  }

  lemma OverturnSound(s: State, id: u32)
    requires Sound(s) && id in s.disputes.recs && s.disputes.recs[id].status == Appealed && Overturn(s, id).Some?
    ensures Sound(Overturn(s, id).value)
  {
    hide Sound, EscrowsOk, SplitsOk, RecurringsOk, Held, Pending, Reversible, Overturn;
    Parts(s);
    AppealedIsSettled(s.disputes, s.escrows, id);
    var eid := s.disputes.recs[id].escrowId;
    EscrowFlagsSwapped(s.escrows, eid);
    OverturnRecords(s, id);
    OverturnMoves(s, id);
    var t := Overturn(s, id).value;
    DisputesKept(s, t, id, eid);
    ReversibleKept(s.disputes.recs, id, t.disputes.recs[id]);
    HeldChange(s, t, eid);
    assert t.splits == s.splits;
    var e := s.escrows.recs[eid];
    CustodyShrinks(s, t, if e.beneficiary == Contract && e.released then e.amount
                         else if e.beneficiary == Contract then -e.amount else 0);
    Assemble(s, t);
  }

  /** An upheld appeal only ceases to be pending. An overturned one makes the paid party pay the
      other, swaps the escrow's flags and gives the dispute the opposite status. */
  ghost predicate Decided(s: State, id: u32, overturn: bool, t: State) {
    && id in s.disputes.recs && s.disputes.recs[id].escrowId in s.escrows.recs
    && var d := s.disputes.recs[id];
       var e := s.escrows.recs[d.escrowId];
       if overturn then
         && Moved(s.ledger, PaidParty(e), OtherParty(e), e.amount, t.ledger)
         && t == s.(ledger := t.ledger,
                    escrows := s.escrows.Put(d.escrowId, e.(released := e.refunded, refunded := e.released)),
                    disputes := s.disputes.Put(id, d.(
                      appealResolver := None,
                      status := if e.released then ResolvedForDepositor else ResolvedForBeneficiary)))
       else
         t == s.(disputes := s.disputes.Put(id, d.(appealResolver := None)))
  }

  /** Only a pending appeal can be decided, by its own resolver, and only once. It can always be
      upheld; it can be overturned as long as the paid party still has the amount. */
  lemma ResolveAppealLaw(c: Ctx, s: State, resolver: Address, id: u32, overturn: bool)
    requires Sound(s)
    ensures ResolveAppeal(c, s, resolver, id, overturn).Some? <==>
            && id in s.disputes.recs && resolver in c.signers
            && s.disputes.recs[id].status == Appealed && s.disputes.recs[id].appealResolver == Some(resolver)
            && s.disputes.recs[id].escrowId in s.escrows.recs
            && var e := s.escrows.recs[s.disputes.recs[id].escrowId];
               overturn ==> PaidParty(e) == Contract || e.amount <= Bal(s.ledger.balances, PaidParty(e))
    ensures ResolveAppeal(c, s, resolver, id, overturn).Some? ==>
              var t := ResolveAppeal(c, s, resolver, id, overturn).value;
              Sound(t) && Decided(s, id, overturn, t)
  {
    hide Sound, Overturn, Moved, Held, Pending, Reversible, EscrowsOk, SplitsOk, RecurringsOk;
    Parts(s);
    if id in s.disputes.recs && s.disputes.recs[id].status == Appealed {
      AppealedIsSettled(s.disputes, s.escrows, id);
      if overturn {
        OverturnLaw(s, id);
        if Overturn(s, id).Some? {
          OverturnSound(s, id);
          OverturnRecords(s, id);
        }
      } else {
        UpheldSound(s, id);
      }
    }
  }

  lemma UpheldSound(s: State, id: u32)
    requires Sound(s) && id in s.disputes.recs && s.disputes.recs[id].status == Appealed
    ensures Sound(s.(disputes := s.disputes.Put(id, s.disputes.recs[id].(appealResolver := None))))
  {
    hide Sound, EscrowsOk, SplitsOk, RecurringsOk, Held, Pending, Reversible;
    Parts(s);
    var t := s.(disputes := s.disputes.Put(id, s.disputes.recs[id].(appealResolver := None)));
    var eid := s.disputes.recs[id].escrowId;
    AppealedIsSettled(s.disputes, s.escrows, id);
    EidInRange(s.escrows, eid);
    assert t.escrows == s.escrows.Put(eid, s.escrows.recs[eid]);
    DisputesKept(s, t, id, eid);
    ReversibleKept(s.disputes.recs, id, t.disputes.recs[id]);
    HeldChange(s, t, eid);
    CustodyShrinks(s, t, 0);
    Assemble(s, t);
  }

  /** An overturn on the ledger alone: the paid party pays the other one. */
  lemma OverturnMoves(s: State, id: u32)
    requires Conserved(s.ledger) && id in s.disputes.recs && s.disputes.recs[id].escrowId in s.escrows.recs
    requires s.escrows.recs[s.disputes.recs[id].escrowId].amount > 0
    ensures var e := s.escrows.recs[s.disputes.recs[id].escrowId];
            && (Overturn(s, id).Some? <==> e.amount <= Bal(s.ledger.balances, PaidParty(e)))
            && (Overturn(s, id).Some? ==>
                  var l := Overturn(s, id).value.ledger;
                  Conserved(l) && Moved(s.ledger, PaidParty(e), OtherParty(e), e.amount, l))
  {
    var e := s.escrows.recs[s.disputes.recs[id].escrowId];
    MoveExact(s.ledger, PaidParty(e), OtherParty(e), e.amount);
  }

  /** What two appeals with an overturn in between make of a resolved dispute. */
  ghost predicate OverturnedOnce(s: State, s1: State, s2: State, s3: State, id: u32, first: Address, second: Address) {
    && id in s.disputes.recs && s.disputes.recs[id].escrowId in s.escrows.recs
    && var d := s.disputes.recs[id];
       var e := s.escrows.recs[d.escrowId];
       && e.amount > 0 && e.depositor != e.beneficiary && e.released != e.refunded && d.appealResolver == None
       && d.status == (if e.released then ResolvedForBeneficiary else ResolvedForDepositor)
       && s1 == s.(disputes := s.disputes.Put(id, d.(status := Appealed, appealResolver := Some(first))))
       && Decided(s1, id, true, s2)
       && id in s2.disputes.recs
       && s3 == s2.(disputes := s2.disputes.Put(id, s2.disputes.recs[id].(status := Appealed, appealResolver := Some(second))))
  }

  /** The party that the first overturn paid has what the second one asks for. */
  lemma OtherCanPay(s: State, s1: State, s2: State, s3: State, id: u32, first: Address, second: Address)
    requires Conserved(s.ledger) && OverturnedOnce(s, s1, s2, s3, id, first, second)
    ensures id in s3.disputes.recs && s3.disputes.recs[id].escrowId in s3.escrows.recs
    ensures var f := s3.escrows.recs[s3.disputes.recs[id].escrowId]; f.amount <= Bal(s3.ledger.balances, PaidParty(f))
  {
    var e := s.escrows.recs[s.disputes.recs[id].escrowId];
    BalanceBounds(s.ledger, OtherParty(e), OtherParty(e));
  }

  lemma BackAgain(s: State, s1: State, s2: State, s3: State, t: State, id: u32, first: Address, second: Address)
    requires OverturnedOnce(s, s1, s2, s3, id, first, second) && Decided(s3, id, true, t)
    ensures t.escrows == s.escrows && t.disputes == s.disputes
    ensures forall a :: Bal(t.ledger.balances, a) == Bal(s.ledger.balances, a)
  {
    assert t.escrows.recs == s.escrows.recs;
    assert t.disputes.recs == s.disputes.recs;
  }

  /** A resolved dispute is about a settled escrow between two parties, and says who was paid. */
  lemma SettledParties(s: State, id: u32)
    requires Sound(s) && id in s.disputes.recs
    requires s.disputes.recs[id].status == ResolvedForBeneficiary || s.disputes.recs[id].status == ResolvedForDepositor
    ensures s.disputes.recs[id].escrowId in s.escrows.recs && s.disputes.recs[id].appealResolver == None
    ensures var e := s.escrows.recs[s.disputes.recs[id].escrowId];
            && e.amount > 0 && e.depositor != e.beneficiary && e.released != e.refunded
            && s.disputes.recs[id].status == if e.released then ResolvedForBeneficiary else ResolvedForDepositor
  {
  }

  /** An appeal overturned, appealed again and overturned again restores every balance, the
      escrow record and the dispute record, and the second overturn cannot fail. */
  lemma TwoOverturnsCancel(c1: Ctx, c2: Ctx, c3: Ctx, c4: Ctx, s: State, s1: State, s2: State, s3: State, id: u32,
                           first: Address, second: Address, caller: Address)
    requires Sound(s) && Appeal(c1, s, caller, id, first) == Some(s1)
    requires ResolveAppeal(c2, s1, first, id, true) == Some(s2)
    requires Appeal(c3, s2, caller, id, second) == Some(s3) && second in c4.signers
    ensures var t := ResolveAppeal(c4, s3, second, id, true);
            && t.Some? && t.value.escrows == s.escrows && t.value.disputes == s.disputes
            && forall a :: Bal(t.value.ledger.balances, a) == Bal(s.ledger.balances, a)
  {
    hide Sound, Appeal, ResolveAppeal, EscrowsOk, DisputesOk, SplitsOk, RecurringsOk, Solvent, Conserved, Moved, Decided;
    Parts(s);
    AppealLaw(c1, s, caller, id, first);
    ResolveAppealLaw(c2, s1, first, id, true);
    AppealLaw(c3, s2, caller, id, second);
    ResolveAppealLaw(c4, s3, second, id, true);
    SettledParties(s, id);
    OtherCanPay(s, s1, s2, s3, id, first, second);
    BackAgain(s, s1, s2, s3, ResolveAppeal(c4, s3, second, id, true).value, id, first, second);
  }
}
