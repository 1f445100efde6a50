/** batch.rs on the storage cells. */
module Batch {
  import opened Types
  import opened BalanceSpec
  import opened Storage
  import opened BatchSpec
  import Invariants
  import TokenSpec
  import TokenLaws
  import Balance
  import Token

  method ClawbackBatch(e: Env, c: Ctx, admin: Address, targets: seq<BatchEntry>) returns (ok: bool)
    requires e.Valid()
    modifies e`balances, e`holders, e`totalSupply
    ensures ok <==> BatchSpec.ClawbackBatch(c, old(e.Core()), admin, targets).Some?
    ensures ok ==> e.Valid() && e.Core() == BatchSpec.ClawbackBatch(c, old(e.Core()), admin, targets).value
  {
    hide Invariants.Sound, Indexed, BurnOf;
    ghost var s := e.Core();
    if !c.IsAdmin(admin) || !c.CosignerAgrees() || |targets| > MAX_TARGETS {
      return false;
    }
    for i := 0 to |targets|
      invariant Indexed(e.Core(), e.Lookup()) && e.Core() == s.(ledger := e.Core().ledger)
      invariant ClawbackRest(e.Core().ledger, targets, i) == ClawbackRest(s.ledger, targets, 0)
    {
      var t := targets[i];
      if t.address == Contract || t.amount <= 0 {
        return false;
      }
      ok := Balance.BurnFunds(e, t.address, t.amount);
      if !ok {
        return false;
      }
    }
    TokenLaws.ClawbackBatchSound(c, s, admin, targets);
    return true;
  }

  /** The running total never overflows before the supply guard has fired. */
  method MintBatch(e: Env, c: Ctx, admin: Address, entries: seq<BatchEntry>) returns (ok: bool)
    requires e.Valid()
    modifies e`balances, e`holders, e`totalSupply
    ensures ok <==> BatchSpec.MintBatch(c, old(e.Core()), admin, entries).Some?
    ensures ok ==> e.Valid() && e.Core() == BatchSpec.MintBatch(c, old(e.Core()), admin, entries).value
  {
    hide Invariants.Sound, Indexed;
    hide MintTo;
    ghost var s := e.Core();
    if !c.IsAdmin(admin) || |entries| > MAX_TARGETS {
      return false;
    }
    var total: i128 := 0;
    TokenLaws.SupplyNonNegative(s);
    for i := 0 to |entries|
      invariant Indexed(e.Core(), e.Lookup()) && e.Core() == s.(ledger := e.Core().ledger)
      invariant MintRest(e.Core().ledger, entries, i) == MintRest(s.ledger, entries, 0)
      invariant total == e.Core().ledger.supply - s.ledger.supply && 0 <= total
    {
      var t := entries[i];
      if t.amount <= 0 {
        return false;
      }
      TokenLaws.MintAdds(e.Core().ledger, t.address, t.amount);
      ok := Balance.MintFunds(e, t.address, t.amount);
      if !ok {
        return false;
      }
      total := total + t.amount;
    }
    TokenLaws.MintBatchSound(c, s, admin, entries);
    return true;
  }

  method BurnFromBatch(e: Env, c: Ctx, spender: Address, targets: seq<BatchEntry>) returns (ok: bool)
    requires e.Valid()
    modifies e`balances, e`holders, e`totalSupply, e`allowance, e`spenderAllowances, e`ownerAllowances
    ensures ok <==> BatchSpec.BurnFromBatch(c, old(e.Core()), spender, targets).Some?
    ensures ok ==> e.Valid() && e.Core() == BatchSpec.BurnFromBatch(c, old(e.Core()), spender, targets).value
  {
    hide Invariants.Sound, Indexed, TokenSpec.BurnApproved, Env.Core, Env.Lookup;
    if !c.Signed(spender) || |targets| > MAX_TARGETS {
      return false;
    }
    for i := 0 to |targets|
      invariant e.Valid()
      invariant BurnFromRest(c, e.Core(), spender, targets, i) == BurnFromRest(c, old(e.Core()), spender, targets, 0)
    {
      if targets[i].amount <= 0 {
        return false;
      }
      ok := Token.BurnApproved(e, c, spender, targets[i].address, targets[i].amount);
      if !ok {
        return false;
      }
    }
    return true;
  }

  /** The total, or None when an amount is not positive or the sum is not representable. */
  method SumAmounts(entries: seq<BatchEntry>) returns (total: Option<i128>)
    ensures total.Some? <==> AllPositive(entries) && FitsI128(SumFirst(entries, |entries|))
    ensures total.Some? ==> total.value == SumFirst(entries, |entries|)
  {
    var sum: i128 := 0;
    for i := 0 to |entries|
      invariant forall k | 0 <= k < i :: entries[k].amount > 0
      invariant sum == SumFirst(entries, i) && 0 <= sum
    {
      var t := entries[i];
      if t.amount <= 0 {
        return None;
      }
      if !FitsI128(sum + t.amount) {
        TokenLaws.SumFirstMonotone(entries, i + 1);
        return None;
      }
      sum := sum + t.amount;
    }
    return Some(sum);
  }

  /** One debit, then a credit for every entry. */
  method PayEntries(e: Env, from: Address, total: i128, entries: seq<BatchEntry>) returns (ok: bool)
    requires HoldersExact(e.holders, e.balances) && AllPositive(entries)
    requires total == SumFirst(entries, |entries|) && 0 <= total
    modifies e`balances, e`holders
    ensures ok <==> PayBatch(old(e.balances), from, entries).Some?
    ensures ok ==> e.balances == PayBatch(old(e.balances), from, entries).value
    ensures ok ==> HoldersExact(e.holders, e.balances)
  {
    hide HoldersExact;
    ok := Balance.SpendBalance(e, from, total);
    if !ok {
      return false;
    }
    ghost var spent := e.balances;
    for i := 0 to |entries|
      invariant HoldersExact(e.holders, e.balances)
      invariant CreditRest(e.balances, entries, i) == CreditRest(spent, entries, 0)
    {
      ok := Balance.ReceiveBalance(e, entries[i].address, entries[i].amount);
      if !ok {
        return false;
      }
    }
    return true;
  }

  method TransferBatch(e: Env, c: Ctx, from: Address, entries: seq<BatchEntry>) returns (ok: bool)
    requires e.Valid() && c.Genuine()
    modifies e`balances, e`holders
    ensures ok <==> BatchSpec.TransferBatch(c, old(e.Core()), from, entries).Some?
    ensures ok ==> e.Valid() && e.Core() == BatchSpec.TransferBatch(c, old(e.Core()), from, entries).value
  {
    hide Invariants.Sound, HoldersExact, AllowancesIndexed, DepositorsIndexed, DisputesIndexed, SplitsIndexed;
    hide PayersIndexed;
    hide AllPositive;
    ghost var s := e.Core();
    if !c.Signed(from) || |entries| > MAX_TARGETS {
      return false;
    }
    var total := SumAmounts(entries);
    if total == None {
      return false;
    }
    TokenLaws.SumNonNegative(entries);
    ok := PayEntries(e, from, total.value, entries);
    TokenLaws.TransferBatchSound(c, s, from, entries);
  }

  method TransferBatchWithMemo(e: Env, c: Ctx, from: Address, entries: seq<(BatchEntry, nat)>) returns (ok: bool)
    requires e.Valid() && c.Genuine()
    modifies e`balances, e`holders
    ensures ok <==> BatchSpec.TransferBatchWithMemo(c, old(e.Core()), from, entries).Some?
    ensures ok ==> e.Valid() && e.Core() == BatchSpec.TransferBatchWithMemo(c, old(e.Core()), from, entries).value
  {
    hide Invariants.Sound, Indexed, BatchSpec.TransferBatch;
    for i := 0 to |entries|
      invariant forall k | 0 <= k < i :: entries[k].1 <= MAX_MEMO
    {
      if entries[i].1 > MAX_MEMO {
        assert entries[i] in entries;
        return false;
      }
    }
    ok := TransferBatch(e, c, from, Plain(entries));
  }
}
