/** Which records a call can touch. */
module Frames {
  import opened Types
  import opened Machine
  import BalanceSpec
  import AllowanceSpec
  import BatchSpec
  import TokenSpec
  import SplitterSpec

  lemma AllGenuinePrefix(trace: seq<Step>)
    requires trace != [] && AllGenuine(trace)
    ensures AllGenuine(trace[..|trace| - 1]) && Genuine(trace[|trace| - 1])
  {
  }

  lemma {:induction false} BurnFromRestFrame(c: Ctx, s: State, spender: Address, targets: seq<BatchEntry>, i: nat)
    requires i <= |targets|
    ensures BatchSpec.BurnFromRest(c, s, spender, targets, i).Some? ==>
              var t := BatchSpec.BurnFromRest(c, s, spender, targets, i).value;
              t == s.(ledger := t.ledger, allowances := t.allowances)
    decreases |targets| - i
  {
    if i < |targets| && targets[i].amount > 0 {
      var b := TokenSpec.BurnApproved(c, s, spender, targets[i].address, targets[i].amount);
      if b.Some? {
        BurnFromRestFrame(c, b.value, spender, targets, i + 1);
      }
    }
  }

  lemma {:induction false} DistributeRestFrame(c: Ctx, s: State, caller: Address, ids: seq<u32>, i: nat)
    requires i <= |ids|
    ensures SplitterSpec.DistributeRest(c, s, caller, ids, i).Some? ==>
              var t := SplitterSpec.DistributeRest(c, s, caller, ids, i).value;
              t == s.(ledger := t.ledger, splits := t.splits)
    decreases |ids| - i
  {
    hide SplitterSpec.PayRest;
    if i < |ids| {
      var b := SplitterSpec.Distribute(c, s, caller, ids[i]);
      if b.Some? {
        DistributeRestFrame(c, b.value, caller, ids, i + 1);
      }
    }
  }

  lemma TokenFrame(c: Ctx, s: State, call: TokenCall)
    requires ApplyToken(c, s, call).Some?
    ensures var t := ApplyToken(c, s, call).value; t == s.(ledger := t.ledger, allowances := t.allowances)
  {
    hide BatchSpec.ClawbackRest, BatchSpec.MintRest, BatchSpec.PayBatch, BalanceSpec.MoveFunds, BalanceSpec.BurnOf;
    hide BalanceSpec.MintTo, BalanceSpec.SetMaxSupply, AllowanceSpec.Spend, BatchSpec.BurnFromRest;
    if call.BurnFromBatch? {
      BurnFromRestFrame(c, s, call.spender, call.targets, 0);
    }
  }

  lemma SplitFrame(c: Ctx, s: State, call: SplitCall)
    requires ApplySplit(c, s, call).Some?
    ensures var t := ApplySplit(c, s, call).value; t == s.(ledger := t.ledger, splits := t.splits)
  {
    hide SplitterSpec.PayRest, BalanceSpec.MoveFunds, SplitterSpec.DistributeRest;
    if call.BulkDistribute? {
      DistributeRestFrame(c, s, call.caller, call.ids, 0);
    }
  }

  lemma RecurringFrame(c: Ctx, s: State, call: RecurringCall)
    requires ApplyRecurring(c, s, call).Some?
    ensures var t := ApplyRecurring(c, s, call).value; t == s.(ledger := t.ledger, recurrings := t.recurrings)
  {
  }

  lemma EscrowFrame(c: Ctx, s: State, call: EscrowCall)
    requires ApplyEscrow(c, s, call).Some?
    ensures var t := ApplyEscrow(c, s, call).value; t == s.(ledger := t.ledger, escrows := t.escrows)
  {
  }

  lemma DisputeFrame(c: Ctx, s: State, call: DisputeCall)
    requires ApplyDispute(c, s, call).Some?
    ensures var t := ApplyDispute(c, s, call).value;
            t == s.(ledger := t.ledger, escrows := t.escrows, disputes := t.disputes)
  {
  }

  /** Token calls touch the ledger and approvals, approval calls only approvals, split calls the
      ledger and splits, recurring calls the ledger and schedules, and so on: no call reaches
      into another machine's records. */
  lemma CallFrame(c: Ctx, s: State, call: Call)
    requires Apply(c, s, call).Some?
    ensures var t := Apply(c, s, call).value;
            match call
            case OnToken(_) => t == s.(ledger := t.ledger, allowances := t.allowances)
            case OnAllowance(_) => t == s.(allowances := t.allowances)
            case OnSplit(_) => t == s.(ledger := t.ledger, splits := t.splits)
            case OnRecurring(_) => t == s.(ledger := t.ledger, recurrings := t.recurrings)
            case OnEscrow(_) => t == s.(ledger := t.ledger, escrows := t.escrows)
            case OnDispute(_) => t == s.(ledger := t.ledger, escrows := t.escrows, disputes := t.disputes)
  {
    hide ApplyToken, ApplyEscrow, ApplyDispute, ApplySplit, ApplyRecurring;
    match call
    case OnToken(t) => TokenFrame(c, s, t);
    case OnAllowance(a) =>
    case OnSplit(p) => SplitFrame(c, s, p);
    case OnRecurring(r) => RecurringFrame(c, s, r);
    case OnEscrow(e) => EscrowFrame(c, s, e);
    case OnDispute(d) => DisputeFrame(c, s, d);
  }
}
