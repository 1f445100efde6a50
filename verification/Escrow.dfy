/** escrow.rs on the storage cells, with the depositor index and the queries over it. */
module Escrow {
  import opened Types
  import opened Invariants
  import opened Storage
  import EscrowSpec
  import EscrowLaws
  import Balance

  // ---------- writing records ----------

  /** A new record is filed under the next id and appended to its depositor's list. */
  method FileEscrow(e: Env, record: EscrowRecord)
    requires Indexed(e.Core(), e.Lookup()) && e.escrowCount < U32_MAX
    modifies e`escrowCount, e`escrow, e`depositorEscrows
    ensures Indexed(e.Core(), e.Lookup())
    ensures e.Core() == old(e.Core()).(escrows := old(e.Core()).escrows.Add(record))
  {
    hide HoldersExact, AllowancesIndexed, DepositorsIndexed, DisputesIndexed, SplitsIndexed, PayersIndexed;
    DepositorsAdded(e.Core().escrows, record, e.depositorEscrows);
    e.escrowCount := e.escrowCount + 1;
    var count := e.escrowCount;
    e.escrow := e.escrow[count := record];
    e.depositorEscrows := e.depositorEscrows[record.depositor := At(e.depositorEscrows, record.depositor) + [count]];
  }

  /** A record written back keeps its depositor, so the lists stay exact. */
  method WriteEscrow(e: Env, id: u32, record: EscrowRecord)
    requires Indexed(e.Core(), e.Lookup()) && id in e.escrow && record.depositor == e.escrow[id].depositor
    modifies e`escrow
    ensures Indexed(e.Core(), e.Lookup())
    ensures e.Core() == old(e.Core()).(escrows := old(e.Core()).escrows.Put(id, record))
  {
    hide HoldersExact, AllowancesIndexed, DepositorsIndexed, DisputesIndexed, SplitsIndexed, PayersIndexed;
    DepositorsKept(e.Core().escrows, id, record, e.depositorEscrows);
    e.escrow := e.escrow[id := record];
  }

  // ---------- the operations ----------

  method CreateEscrow(e: Env, c: Ctx, depositor: Address, beneficiary: Address, amount: i128, expiry: u32)
    returns (ok: bool, id: u32)
    requires e.Valid() && c.Genuine()
    modifies e`balances, e`holders, e`escrowCount, e`escrow, e`depositorEscrows
    ensures ok <==> EscrowSpec.Create(c, old(e.Core()), depositor, beneficiary, amount, expiry).Some?
    ensures ok ==> e.Valid()
    ensures ok ==> e.Core() == EscrowSpec.Create(c, old(e.Core()), depositor, beneficiary, amount, expiry).value
    ensures ok ==> id == old(e.escrowCount) + 1
  {
    hide Sound, Indexed;
    ghost var s := e.Core();
    if amount <= 0 || expiry < c.ledger || depositor == beneficiary || !c.Signed(depositor) {
      return false, 0;
    }
    ok := Balance.MoveFunds(e, depositor, Contract, amount);
    if !ok || e.escrowCount == U32_MAX {
      return false, 0;
    }
    id := e.escrowCount + 1;
    FileEscrow(e, EscrowRecord(id, depositor, beneficiary, amount, false, false, expiry));
    EscrowLaws.CreateSound(c, s, depositor, beneficiary, amount, expiry);
  }

  /** The record is written back settled, then the funds leave custody. */
  method PayOut(e: Env, id: u32, settled: EscrowRecord, to: Address) returns (ok: bool)
    requires e.Valid() && EscrowLaws.Settles(e.Core(), id, settled)
    modifies e`balances, e`holders, e`escrow
    ensures ok && EscrowSpec.Pay(old(e.Core()), id, settled, to).Some?
    ensures e.Valid() && e.Core() == EscrowSpec.Pay(old(e.Core()), id, settled, to).value
  {
    hide Sound, Indexed;
    EscrowLaws.PaySound(e.Core(), id, settled, to);
    WriteEscrow(e, id, settled);
    ok := Balance.MoveFunds(e, Contract, to, settled.amount);
  }

  method ReleaseEscrow(e: Env, c: Ctx, caller: Address, id: u32) returns (ok: bool)
    requires e.Valid()
    modifies e`balances, e`holders, e`escrow
    ensures ok <==> EscrowSpec.Release(c, old(e.Core()), caller, id).Some?
    ensures ok ==> e.Valid() && e.Core() == EscrowSpec.Release(c, old(e.Core()), caller, id).value
  {
    hide Sound, Indexed;
    if !c.Signed(caller) || id !in e.escrow {
      return false;
    }
    var record := e.escrow[id];
    if record.beneficiary != caller || record.released || record.refunded {
      return false;
    }
    ok := PayOut(e, id, record.(released := true), record.beneficiary);
  }

  method RefundEscrow(e: Env, c: Ctx, caller: Address, id: u32) returns (ok: bool)
    requires e.Valid()
    modifies e`balances, e`holders, e`escrow
    ensures ok <==> EscrowSpec.Refund(c, old(e.Core()), caller, id).Some?
    ensures ok ==> e.Valid() && e.Core() == EscrowSpec.Refund(c, old(e.Core()), caller, id).value
  {
    hide Sound, Indexed, EscrowSpec.HasOpenDispute;
    PointerIs(e.Core(), e.Lookup(), id);
    if id !in e.escrow {
      return false;
    }
    var record := e.escrow[id];
    if id in e.escrowDispute {
      return false;
    }
    var expired := c.ledger > record.expiry;
    if record.depositor != caller && !expired {
      return false;
    }
    if record.released || record.refunded || !c.Signed(caller) {
      return false;
    }
    ok := PayOut(e, id, record.(refunded := true), record.depositor);
  }

  method TopupEscrow(e: Env, c: Ctx, depositor: Address, id: u32, amount: i128) returns (ok: bool)
    requires e.Valid()
    modifies e`balances, e`holders, e`escrow
    ensures ok <==> EscrowSpec.Topup(c, old(e.Core()), depositor, id, amount).Some?
    ensures ok ==> e.Valid() && e.Core() == EscrowSpec.Topup(c, old(e.Core()), depositor, id, amount).value
  {
    hide Sound, Indexed, EscrowSpec.HasOpenDispute;
    ghost var s := e.Core();
    PointerIs(s, e.Lookup(), id);
    if !c.Signed(depositor) || amount <= 0 || id in e.escrowDispute || id !in e.escrow {
      return false;
    }
    var record := e.escrow[id];
    if record.released || record.refunded || record.depositor != depositor {
      return false;
    }
    ok := Balance.MoveFunds(e, depositor, Contract, amount);
    if !ok || !FitsI128(record.amount + amount) {
      return false;
    }
    WriteEscrow(e, id, record.(amount := record.amount + amount));
    EscrowLaws.TopupSound(c, s, depositor, id, amount);
  }

  method AdminSettleEscrow(e: Env, c: Ctx, admin: Address, id: u32, recipient: Address) returns (ok: bool)
    requires e.Valid()
    modifies e`balances, e`holders, e`escrow
    ensures ok <==> EscrowSpec.AdminSettle(c, old(e.Core()), admin, id, recipient).Some?
    ensures ok ==> e.Valid() && e.Core() == EscrowSpec.AdminSettle(c, old(e.Core()), admin, id, recipient).value
  {
    hide Sound, Indexed;
    if !c.IsAdmin(admin) || id !in e.escrow {
      return false;
    }
    var record := e.escrow[id];
    if record.released || record.refunded {
      return false;
    }
    ok := PayOut(e, id, record.(released := true), recipient);
  }
}
