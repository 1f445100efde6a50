/** The host: it dispatches a call to its entry point and puts every cell back after a panic.
    Executing calls on the storage cells, indexes and loops included, refines the machine. */
module Host {
  import opened Types
  import opened Machine
  import opened Storage
  import Invariants
  import TokenSpec
  import BatchSpec
  import DividendSpec
  import AllowanceSpec
  import EscrowSpec
  import DisputeSpec
  import SplitterSpec
  import RecurringSpec
  import Token
  import Batch
  import Dividend
  import Allowances
  import Escrow
  import Dispute
  import Splitter
  import Recurring

  // ---------- one call of each component ----------

  method CallToken(e: Env, c: Ctx, call: TokenCall) returns (ok: bool)
    requires e.Valid() && Genuine(Step(c, OnToken(call)))
    modifies e
    ensures ok <==> ApplyToken(c, old(e.Core()), call).Some?
    ensures ok ==> e.Valid() && e.Core() == ApplyToken(c, old(e.Core()), call).value
  {
    hide Invariants.Sound, Indexed, TokenSpec.Mint, TokenSpec.Burn, TokenSpec.BurnFrom, TokenSpec.Clawback;
    hide TokenSpec.Transfer, TokenSpec.TransferFrom, TokenSpec.TransferWithMemo, TokenSpec.SetCap;
    hide BatchSpec.ClawbackBatch, BatchSpec.MintBatch, BatchSpec.BurnFromBatch, BatchSpec.TransferBatch;
    hide BatchSpec.TransferBatchWithMemo, DividendSpec.Distribute;
    match call
    case Mint(admin, to, amount) => ok := Token.Mint(e, c, admin, to, amount);
    case Burn(from, amount) => ok := Token.Burn(e, c, from, amount);
    case BurnFrom(spender, from, amount) => ok := Token.BurnFrom(e, c, spender, from, amount);
    case Clawback(admin, from, amount) => ok := Token.Clawback(e, c, admin, from, amount);
    case Transfer(from, to, amount) => ok := Token.Transfer(e, c, from, to, amount);
    case TransferFrom(spender, from, to, amount) => ok := Token.TransferFrom(e, c, spender, from, to, amount);
    case TransferWithMemo(from, to, amount) => ok := Token.TransferWithMemo(e, c, from, to, amount);
    case SetMaxSupply(admin, newMax) => ok := Token.SetMaxSupply(e, c, admin, newMax);
    case ClawbackBatch(admin, targets) => ok := Batch.ClawbackBatch(e, c, admin, targets);
    case MintBatch(admin, targets) => ok := Batch.MintBatch(e, c, admin, targets);
    case BurnFromBatch(spender, targets) => ok := Batch.BurnFromBatch(e, c, spender, targets);
    case TransferBatch(from, targets) => ok := Batch.TransferBatch(e, c, from, targets);
    case TransferBatchWithMemo(from, entries) => ok := Batch.TransferBatchWithMemo(e, c, from, entries);
    case Dividend(admin, amount) => ok := Dividend.DistributeDividend(e, c, admin, amount);
  }

  method CallAllowance(e: Env, c: Ctx, call: AllowanceCall) returns (ok: bool)
    requires e.Valid() && c.Genuine()
    modifies e
    ensures ok <==> ApplyAllowance(c, old(e.Core()), call).Some?
    ensures ok ==> e.Valid() && e.Core() == ApplyAllowance(c, old(e.Core()), call).value
  {
    hide Invariants.Sound, Indexed, AllowanceSpec.Approve, AllowanceSpec.ApproveBatch, AllowanceSpec.RevokeAll;
    hide AllowanceSpec.Prune;
    match call
    case Approve(from, spender, amount, expiration) =>
      ok := Allowances.Approve(e, c, from, spender, amount, expiration);
    case ApproveBatch(from, approvals) => ok := Allowances.ApproveBatch(e, c, from, approvals);
    case RevokeAll(from) => ok := Allowances.RevokeAllAllowances(e, c, from);
    case View(from, spender) =>
      var amount := Allowances.AllowanceView(e, c, from, spender);
      ok := true;
  }

  method CallEscrow(e: Env, c: Ctx, call: EscrowCall) returns (ok: bool)
    requires e.Valid() && c.Genuine()
    modifies e
    ensures ok <==> ApplyEscrow(c, old(e.Core()), call).Some?
    ensures ok ==> e.Valid() && e.Core() == ApplyEscrow(c, old(e.Core()), call).value
  {
    hide Invariants.Sound, Indexed, EscrowSpec.Create, EscrowSpec.Release, EscrowSpec.Refund, EscrowSpec.Topup;
    hide EscrowSpec.AdminSettle;
    match call
    case Create(depositor, beneficiary, amount, expiry) =>
      var id;
      ok, id := Escrow.CreateEscrow(e, c, depositor, beneficiary, amount, expiry);
    case Release(caller, id) => ok := Escrow.ReleaseEscrow(e, c, caller, id);
    case Refund(caller, id) => ok := Escrow.RefundEscrow(e, c, caller, id);
    case Topup(depositor, id, amount) => ok := Escrow.TopupEscrow(e, c, depositor, id, amount);
    case AdminSettle(admin, id, recipient) => ok := Escrow.AdminSettleEscrow(e, c, admin, id, recipient);
  }

  method CallDispute(e: Env, c: Ctx, call: DisputeCall) returns (ok: bool)
    requires e.Valid()
    modifies e
    ensures ok <==> ApplyDispute(c, old(e.Core()), call).Some?
    ensures ok ==> e.Valid() && e.Core() == ApplyDispute(c, old(e.Core()), call).value
  {
    hide Invariants.Sound, Indexed, DisputeSpec.OpenDispute, DisputeSpec.Resolve, DisputeSpec.Expire;
    hide DisputeSpec.Appeal, DisputeSpec.ResolveAppeal;
    match call
    case OpenDispute(claimant, escrowId, resolver, evidence, expiry) =>
      var id;
      ok, id := Dispute.OpenDispute(e, c, claimant, escrowId, resolver, evidence, expiry);
    case Resolve(resolver, id, toBeneficiary) => ok := Dispute.ResolveDispute(e, c, resolver, id, toBeneficiary);
    case Expire(id) => ok := Dispute.ExpireDispute(e, c, id);
    case Appeal(caller, id, appealResolver) => ok := Dispute.AppealDispute(e, c, caller, id, appealResolver);
    case ResolveAppeal(resolver, id, overturn) => ok := Dispute.ResolveAppeal(e, c, resolver, id, overturn);
  }

  method CallSplit(e: Env, c: Ctx, call: SplitCall) returns (ok: bool)
    requires e.Valid() && c.Genuine()
    modifies e
    ensures ok <==> ApplySplit(c, old(e.Core()), call).Some?
    ensures ok ==> e.Valid() && e.Core() == ApplySplit(c, old(e.Core()), call).value
  {
    hide Invariants.Sound, Indexed, SplitterSpec.CreateSplitWithMemo, SplitterSpec.Distribute, SplitterSpec.Cancel;
    hide SplitterSpec.Replace, SplitterSpec.BulkDistribute;
    match call
    case CreateSplit(sender, recipients, total, memo) =>
      var id;
      ok, id := Splitter.CreateSplitWithMemo(e, c, sender, recipients, total, memo);
    case Distribute(caller, id) => ok := Splitter.Distribute(e, c, caller, id);
    case CancelSplit(caller, id) => ok := Splitter.CancelSplit(e, c, caller, id);
    case Replace(sender, id, was, now) => ok := Splitter.ReplaceSplitRecipient(e, c, sender, id, was, now);
    case BulkDistribute(caller, ids) => ok := Splitter.BulkDistribute(e, c, caller, ids);
  }

  method CallRecurring(e: Env, c: Ctx, call: RecurringCall) returns (ok: bool)
    requires e.Valid() && c.Genuine()
    modifies e
    ensures ok <==> ApplyRecurring(c, old(e.Core()), call).Some?
    ensures ok ==> e.Valid() && e.Core() == ApplyRecurring(c, old(e.Core()), call).value
  {
    hide Invariants.Sound, Indexed, RecurringSpec.Setup, RecurringSpec.Execute, RecurringSpec.Cancel;
    hide RecurringSpec.SetPaused, RecurringSpec.Amend, RecurringSpec.TransferPayer, RecurringSpec.CancelBatch;
    match call
    case Setup(payer, payee, amount, interval) =>
      var id;
      ok, id := Recurring.SetupRecurring(e, c, payer, payee, amount, interval);
    case Execute(id) => ok := Recurring.ExecuteRecurring(e, c, id);
    case Cancel(caller, id) => ok := Recurring.CancelRecurring(e, c, caller, id);
    case SetPaused(caller, id, paused) => ok := Recurring.SetPaused(e, c, caller, id, paused);
    case Amend(caller, id, amount, interval) => ok := Recurring.AmendRecurring(e, c, caller, id, amount, interval);
    case TransferPayer(was, now, id) => ok := Recurring.TransferPayer(e, c, was, now, id);
    case CancelBatch(payer, ids) => ok := Recurring.CancelBatch(e, c, payer, ids);
  }

  // ---------- one step, and every run ----------

  /** A step commits what the machine says or leaves every cell as it was, and in either case
      all indexes are exact afterwards. */
  method Invoke(e: Env, st: Step) returns (ok: bool)
    requires e.Valid() && Genuine(st)
    modifies e
    ensures e.Valid() && e.Core() == Next(old(e.Core()), st)
    ensures ok <==> Apply(st.c, old(e.Core()), st.call).Some?
    ensures !ok ==> e.Lookup() == old(e.Lookup())
  {
    hide Invariants.Sound, Indexed, ApplyToken, ApplyAllowance, ApplyEscrow, ApplyDispute, ApplySplit, ApplyRecurring;
    var core, lookup := e.Core(), e.Lookup();
    match st.call {
      case OnToken(t) => ok := CallToken(e, st.c, t);
      case OnAllowance(a) => ok := CallAllowance(e, st.c, a);
      case OnEscrow(x) => ok := CallEscrow(e, st.c, x);
      case OnDispute(d) => ok := CallDispute(e, st.c, d);
      case OnSplit(p) => ok := CallSplit(e, st.c, p);
      case OnRecurring(r) => ok := CallRecurring(e, st.c, r);
    }
    if !ok {
      e.Revert(core, lookup);
    }
  }

  /** Any run on the storage cells ends in the state of the machine's run, with every index exact. */
  method InvokeAll(e: Env, trace: seq<Step>)
    requires e.Valid() && AllGenuine(trace)
    modifies e
    ensures e.Valid() && e.Core() == Run(old(e.Core()), trace)
  {
    hide Invariants.Sound, Indexed, Next, Genuine;
    for i := 0 to |trace|
      invariant e.Valid()
      invariant e.Core() == Run(old(e.Core()), trace[..i])
    {
      RunStep(old(e.Core()), trace, i);
      var ok := Invoke(e, trace[i]);
    }
    assert trace[..|trace|] == trace;
  }

  lemma RunStep(s: State, trace: seq<Step>, i: nat)
    requires i < |trace|
    ensures Run(s, trace[..i + 1]) == Next(Run(s, trace[..i]), trace[i])
  {
    assert trace[..i + 1][..i] == trace[..i];
  }

  /** Every reachable storage: deployed with some cap and driven by any calls, it holds sound
      records and exact indexes. */
  method Reach(maxSupply: i128, trace: seq<Step>) returns (e: Env)
    requires AllGenuine(trace)
    ensures fresh(e) && e.Valid() && e.Core() == Run(Initial(maxSupply), trace)
  {
    e := new Env(maxSupply);
    InvokeAll(e, trace);
  }
}
