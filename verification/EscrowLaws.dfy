/** Escrows: when each operation commits, and what it keeps. */
module EscrowLaws {
  import opened Types
  import opened BalanceSpec
  import opened EscrowSpec
  import opened Invariants

  // ---------- funding ----------

  /** A new escrow needs a positive amount the depositor holds, two different parties and a
      ledger to come; its funds move into custody and nothing else changes. */
  lemma CreateCommits(c: Ctx, s: State, depositor: Address, beneficiary: Address, amount: i128, expiry: u32)
    requires Conserved(s.ledger)
    ensures Create(c, s, depositor, beneficiary, amount, expiry).Some? <==>
            && 0 < amount <= Bal(s.ledger.balances, depositor)
            && c.ledger <= expiry && depositor != beneficiary && depositor in c.signers
            && s.escrows.count < U32_MAX
    ensures Create(c, s, depositor, beneficiary, amount, expiry).Some? ==>
              var t := Create(c, s, depositor, beneficiary, amount, expiry).value;
              var id := t.escrows.count;
              && id == s.escrows.count + 1 && id in t.escrows.recs && t.escrows == s.escrows.Add(t.escrows.recs[id])
              && var e := t.escrows.recs[id];
                 && e.id == id && e.depositor == depositor && e.beneficiary == beneficiary
                 && e.amount == amount && e.expiry == expiry && !e.Settled()
                 && Moved(s.ledger, depositor, Contract, amount, t.ledger)
                 && t == s.(ledger := t.ledger, escrows := t.escrows)
  {
    if amount > 0 {
      MoveExact(s.ledger, depositor, Contract, amount);
    }
  }

  lemma CreateSound(c: Ctx, s: State, depositor: Address, beneficiary: Address, amount: i128, expiry: u32)
    requires Sound(s) && c.Genuine() && Create(c, s, depositor, beneficiary, amount, expiry).Some?
    ensures Sound(Create(c, s, depositor, beneficiary, amount, expiry).value)
  {
    hide Sound, SplitsOk, RecurringsOk, Held, Pending;
    Parts(s);
    MoveExact(s.ledger, depositor, Contract, amount);
    var t := Create(c, s, depositor, beneficiary, amount, expiry).value;
    var r := t.escrows.recs[s.escrows.count + 1];
    EscrowFiled(s.escrows, s.disputes, r);
    CustodyGrows(s, t, amount) by {
      HeldAdd(s, t, r);
    }
    Assemble(s, t);
  }

  /** Custody and obligations grow together. */
  lemma CustodyGrows(s: State, t: State, amount: int)
    requires Solvent(s) && t.splits == s.splits && Held(t) == Held(s) + amount
    requires Bal(t.ledger.balances, Contract) == Bal(s.ledger.balances, Contract) + amount
    ensures Solvent(t)
  {
  }

  /** A top-up commits exactly when its guards pass: the new amount is always representable,
      because custody already holds it. */
  lemma TopupCommits(c: Ctx, s: State, depositor: Address, id: u32, amount: i128)
    requires Sound(s)
    ensures Topup(c, s, depositor, id, amount).Some? <==>
            && id in s.escrows.recs && !s.escrows.recs[id].Settled()
            && s.escrows.recs[id].depositor == depositor && depositor in c.signers
            && (forall d | d in s.disputes.recs && s.disputes.recs[d].escrowId == id :: s.disputes.recs[d].status != Open)
            && 0 < amount <= Bal(s.ledger.balances, depositor)
    ensures Topup(c, s, depositor, id, amount).Some? ==>
              var t := Topup(c, s, depositor, id, amount).value;
              && Moved(s.ledger, depositor, Contract, amount, t.ledger)
              && t == s.(ledger := t.ledger, escrows := t.escrows) && id in t.escrows.recs
              && t.escrows == s.escrows.Put(id, s.escrows.recs[id].(amount := t.escrows.recs[id].amount))
              && t.escrows.recs[id].amount == s.escrows.recs[id].amount + amount
  {
    if amount > 0 && id in s.escrows.recs && s.escrows.recs[id].depositor == depositor && !s.escrows.recs[id].Settled() {
      MoveExact(s.ledger, depositor, Contract, amount);
      CustodyCovers(s, id);
      BalanceBounds(s.ledger, depositor, Contract);
    }
  }

  lemma TopupSound(c: Ctx, s: State, depositor: Address, id: u32, amount: i128)
    requires Sound(s) && Topup(c, s, depositor, id, amount).Some?
    ensures Sound(Topup(c, s, depositor, id, amount).value)
  {
    hide Sound, SplitsOk, RecurringsOk, Held, Pending;
    Parts(s);
    MoveExact(s.ledger, depositor, Contract, amount);
    var t := Topup(c, s, depositor, id, amount).value;
    EscrowRewritten(s.escrows, s.disputes, id, t.escrows.recs[id]);
    CustodyGrows(s, t, amount) by {
      HeldChange(s, t, id);
    }
    Assemble(s, t);
  }

  // ---------- settling ----------

  /** `settled` may replace the unsettled escrow `id`. */
  ghost predicate Settles(s: State, id: u32, settled: EscrowRecord) {
    && id in s.escrows.recs && !s.escrows.recs[id].Settled()
    && (settled == s.escrows.recs[id].(released := true) || settled == s.escrows.recs[id].(refunded := true))
  }

  /** Custody can always pay an unsettled escrow: neither the debit nor the credit fails.
      The payee gains exactly the amount and custody loses exactly the amount. */
  lemma PayLaw(s: State, id: u32, settled: EscrowRecord, to: Address)
    requires Sound(s) && Settles(s, id, settled)
    ensures 0 < settled.amount && Pay(s, id, settled, to).Some?
    ensures var l := Pay(s, id, settled, to).value.ledger;
            Conserved(l) && Moved(s.ledger, Contract, to, settled.amount, l)
  {
    CustodyCovers(s, id);
    MoveExact(s.ledger, Contract, to, settled.amount);
  }

  lemma PaySound(s: State, id: u32, settled: EscrowRecord, to: Address)
    requires Sound(s) && Settles(s, id, settled)
    ensures 0 < settled.amount && Pay(s, id, settled, to).Some? && Sound(Pay(s, id, settled, to).value)
  {
    hide Sound, SplitsOk, RecurringsOk, Held, Pending;
    Parts(s);
    PayLaw(s, id, settled, to);
    var t := Pay(s, id, settled, to).value;
    EscrowRewritten(s.escrows, s.disputes, id, settled);
    CustodyShrinks(s, t, settled.amount) by {
      HeldChange(s, t, id);
    }
    Assemble(s, t);
  }

  lemma CustodyShrinks(s: State, t: State, amount: int)
    requires Solvent(s) && t.splits == s.splits && Held(t) == Held(s) - amount
    requires Bal(t.ledger.balances, Contract) >= Bal(s.ledger.balances, Contract) - amount
    ensures Solvent(t)
  {
  }

  /** The beneficiary can always release an unsettled escrow, even one under dispute. */
  lemma ReleaseCommits(c: Ctx, s: State, caller: Address, id: u32)
    requires Sound(s)
    ensures Release(c, s, caller, id).Some? <==>
            && id in s.escrows.recs && !s.escrows.recs[id].Settled()
            && s.escrows.recs[id].beneficiary == caller && caller in c.signers
    ensures Release(c, s, caller, id).Some? ==>
              var t := Release(c, s, caller, id).value;
              && Sound(t) && t == s.(ledger := t.ledger, escrows := t.escrows)
              && t.escrows == s.escrows.Put(id, s.escrows.recs[id].(released := true))
              && Moved(s.ledger, Contract, s.escrows.recs[id].beneficiary, s.escrows.recs[id].amount, t.ledger)
  {
    hide Sound;
    if id in s.escrows.recs && !s.escrows.recs[id].Settled() {
      PaySound(s, id, s.escrows.recs[id].(released := true), s.escrows.recs[id].beneficiary);
      PayLaw(s, id, s.escrows.recs[id].(released := true), s.escrows.recs[id].beneficiary);
    }
  }

  /** The depositor, or anyone once the escrow has expired, can refund an unsettled escrow
      that has no open dispute. */
  lemma RefundCommits(c: Ctx, s: State, caller: Address, id: u32)
    requires Sound(s)
    ensures Refund(c, s, caller, id).Some? <==>
            && id in s.escrows.recs && !s.escrows.recs[id].Settled()
            && (s.escrows.recs[id].depositor == caller || s.escrows.recs[id].expiry < c.ledger)
            && caller in c.signers
            && (forall d | d in s.disputes.recs && s.disputes.recs[d].escrowId == id :: s.disputes.recs[d].status != Open)
    ensures Refund(c, s, caller, id).Some? ==>
              var t := Refund(c, s, caller, id).value;
              && Sound(t) && t == s.(ledger := t.ledger, escrows := t.escrows)
              && t.escrows == s.escrows.Put(id, s.escrows.recs[id].(refunded := true))
              && Moved(s.ledger, Contract, s.escrows.recs[id].depositor, s.escrows.recs[id].amount, t.ledger)
  {
    hide Sound;
    if id in s.escrows.recs && !s.escrows.recs[id].Settled() {
      PaySound(s, id, s.escrows.recs[id].(refunded := true), s.escrows.recs[id].depositor);
      PayLaw(s, id, s.escrows.recs[id].(refunded := true), s.escrows.recs[id].depositor);
    }
  }

  /** The admin can always settle an unsettled escrow, with the funds going to anyone it names. */
  lemma AdminSettleCommits(c: Ctx, s: State, admin: Address, id: u32, recipient: Address)
    requires Sound(s)
    ensures AdminSettle(c, s, admin, id, recipient).Some? <==>
            && admin in c.signers && admin == c.admin
            && (c.adminActiveAfter.Some? ==> c.adminActiveAfter.value <= c.ledger)
            && id in s.escrows.recs && !s.escrows.recs[id].Settled()
    ensures AdminSettle(c, s, admin, id, recipient).Some? ==>
              var t := AdminSettle(c, s, admin, id, recipient).value;
              && Sound(t) && t == s.(ledger := t.ledger, escrows := t.escrows)
              && t.escrows == s.escrows.Put(id, s.escrows.recs[id].(released := true))
              && Moved(s.ledger, Contract, recipient, s.escrows.recs[id].amount, t.ledger)
  {
    hide Sound;
    if id in s.escrows.recs && !s.escrows.recs[id].Settled() {
      PaySound(s, id, s.escrows.recs[id].(released := true), recipient);
      PayLaw(s, id, s.escrows.recs[id].(released := true), recipient);
    }
  }
}
