/** The contract as one state machine: every state-changing entry point is a call, a call that
    panics changes nothing, and a run is any sequence of calls. */
module Machine {
  import opened Types
  import TokenSpec
  import BatchSpec
  import DividendSpec
  import AllowanceSpec
  import EscrowSpec
  import DisputeSpec
  import SplitterSpec
  import RecurringSpec

  datatype TokenCall =
    | Mint(admin: Address, to: Address, amount: i128)
    | Burn(from: Address, amount: i128)
    | BurnFrom(spender: Address, from: Address, amount: i128)
    | Clawback(admin: Address, from: Address, amount: i128)
    | Transfer(from: Address, to: Address, amount: i128)
    | TransferFrom(spender: Address, from: Address, to: Address, amount: i128)
    | TransferWithMemo(from: Address, to: Address, amount: i128)
    | SetMaxSupply(admin: Address, newMax: i128)
    | ClawbackBatch(admin: Address, targets: seq<BatchEntry>)
    | MintBatch(admin: Address, targets: seq<BatchEntry>)
    | BurnFromBatch(spender: Address, targets: seq<BatchEntry>)
    | TransferBatch(from: Address, targets: seq<BatchEntry>)
    | TransferBatchWithMemo(from: Address, entries: seq<(BatchEntry, nat)>)
    | Dividend(admin: Address, amount: i128)

  datatype AllowanceCall =
    | Approve(from: Address, spender: Address, amount: i128, expiration: u32)
    | ApproveBatch(from: Address, approvals: seq<AllowanceSpec.Approval>)
    | RevokeAll(from: Address)
    | View(from: Address, spender: Address)

  datatype EscrowCall =
    | Create(depositor: Address, beneficiary: Address, amount: i128, expiry: u32)
    | Release(caller: Address, id: u32)
    | Refund(caller: Address, id: u32)
    | Topup(depositor: Address, id: u32, amount: i128)
    | AdminSettle(admin: Address, id: u32, recipient: Address)

  datatype DisputeCall =
    | OpenDispute(claimant: Address, escrowId: u32, resolver: Address, evidence: nat, expiry: u32)
    | Resolve(resolver: Address, id: u32, toBeneficiary: bool)
    | Expire(id: u32)
    | Appeal(caller: Address, id: u32, appealResolver: Address)
    | ResolveAppeal(resolver: Address, id: u32, overturn: bool)

  datatype SplitCall =
    | CreateSplit(sender: Address, recipients: seq<Recipient>, total: i128, memo: nat)
    | Distribute(caller: Address, id: u32)
    | CancelSplit(caller: Address, id: u32)
    | Replace(sender: Address, id: u32, was: Address, now: Address)
    | BulkDistribute(caller: Address, ids: seq<u32>)

  datatype RecurringCall =
    | Setup(payer: Address, payee: Address, amount: i128, interval: u32)
    | Execute(id: u32)
    | Cancel(caller: Address, id: u32)
    | SetPaused(caller: Address, id: u32, paused: bool)
    | Amend(caller: Address, id: u32, newAmount: Option<i128>, newInterval: Option<u32>)
    | TransferPayer(was: Address, now: Address, id: u32)
    | CancelBatch(payer: Address, ids: seq<u32>)

  datatype Call =
    | OnToken(t: TokenCall)
    | OnAllowance(a: AllowanceCall)
    | OnEscrow(e: EscrowCall)
    | OnDispute(d: DisputeCall)
    | OnSplit(p: SplitCall)
    | OnRecurring(r: RecurringCall)

  ghost function ApplyToken(c: Ctx, s: State, call: TokenCall): Option<State> {
    match call
    case Mint(admin, to, amount) => TokenSpec.Mint(c, s, admin, to, amount)
    case Burn(from, amount) => TokenSpec.Burn(c, s, from, amount)
    case BurnFrom(spender, from, amount) => TokenSpec.BurnFrom(c, s, spender, from, amount)
    case Clawback(admin, from, amount) => TokenSpec.Clawback(c, s, admin, from, amount)
    case Transfer(from, to, amount) => TokenSpec.Transfer(c, s, from, to, amount)
    case TransferFrom(spender, from, to, amount) => TokenSpec.TransferFrom(c, s, spender, from, to, amount)
    case TransferWithMemo(from, to, amount) => TokenSpec.TransferWithMemo(c, s, from, to, amount)
    case SetMaxSupply(admin, newMax) => TokenSpec.SetCap(c, s, admin, newMax)
    case ClawbackBatch(admin, targets) => BatchSpec.ClawbackBatch(c, s, admin, targets)
    case MintBatch(admin, targets) => BatchSpec.MintBatch(c, s, admin, targets)
    case BurnFromBatch(spender, targets) => BatchSpec.BurnFromBatch(c, s, spender, targets)
    case TransferBatch(from, targets) => BatchSpec.TransferBatch(c, s, from, targets)
    case TransferBatchWithMemo(from, entries) => BatchSpec.TransferBatchWithMemo(c, s, from, entries)
    case Dividend(admin, amount) => DividendSpec.Distribute(c, s, admin, amount)
  }

  function ApplyAllowance(c: Ctx, s: State, call: AllowanceCall): Option<State> {
    var al :- match call
              case Approve(from, spender, amount, expiration) =>
                AllowanceSpec.Approve(c, s.allowances, from, spender, amount, expiration)
              case ApproveBatch(from, approvals) => AllowanceSpec.ApproveBatch(c, s.allowances, from, approvals)
              case RevokeAll(from) => AllowanceSpec.RevokeAll(c, s.allowances, from)
              case View(from, spender) => Some(AllowanceSpec.Prune(s.allowances, c.ledger, from, spender));
    Some(s.(allowances := al))
  }

  function ApplyEscrow(c: Ctx, s: State, call: EscrowCall): Option<State> {
    match call
    case Create(depositor, beneficiary, amount, expiry) => EscrowSpec.Create(c, s, depositor, beneficiary, amount, expiry)
    case Release(caller, id) => EscrowSpec.Release(c, s, caller, id)
    case Refund(caller, id) => EscrowSpec.Refund(c, s, caller, id)
    case Topup(depositor, id, amount) => EscrowSpec.Topup(c, s, depositor, id, amount)
    case AdminSettle(admin, id, recipient) => EscrowSpec.AdminSettle(c, s, admin, id, recipient)
  }

  function ApplyDispute(c: Ctx, s: State, call: DisputeCall): Option<State> {
    match call
    case OpenDispute(claimant, id, resolver, evidence, expiry) =>
      DisputeSpec.OpenDispute(c, s, claimant, id, resolver, evidence, expiry)
    case Resolve(resolver, id, toBeneficiary) => DisputeSpec.Resolve(c, s, resolver, id, toBeneficiary)
    case Expire(id) => DisputeSpec.Expire(c, s, id)
    case Appeal(caller, id, appealResolver) => DisputeSpec.Appeal(c, s, caller, id, appealResolver)
    case ResolveAppeal(resolver, id, overturn) => DisputeSpec.ResolveAppeal(c, s, resolver, id, overturn)
  }

  function ApplySplit(c: Ctx, s: State, call: SplitCall): Option<State> {
    match call
    case CreateSplit(sender, rs, total, memo) => SplitterSpec.CreateSplitWithMemo(c, s, sender, rs, total, memo)
    case Distribute(caller, id) => SplitterSpec.Distribute(c, s, caller, id)
    case CancelSplit(caller, id) => SplitterSpec.Cancel(c, s, caller, id)
    case Replace(sender, id, was, now) => SplitterSpec.Replace(c, s, sender, id, was, now)
    case BulkDistribute(caller, ids) => SplitterSpec.BulkDistribute(c, s, caller, ids)
  }

  function ApplyRecurring(c: Ctx, s: State, call: RecurringCall): Option<State> {
    match call
    case Setup(payer, payee, amount, interval) => RecurringSpec.Setup(c, s, payer, payee, amount, interval)
    case Execute(id) => RecurringSpec.Execute(c, s, id)
    case Cancel(caller, id) => RecurringSpec.Cancel(c, s, caller, id)
    case SetPaused(caller, id, paused) => RecurringSpec.SetPaused(c, s, caller, id, paused)
    case Amend(caller, id, amount, interval) => RecurringSpec.Amend(c, s, caller, id, amount, interval)
    case TransferPayer(was, now, id) => RecurringSpec.TransferPayer(c, s, was, now, id)
    case CancelBatch(payer, ids) => RecurringSpec.CancelBatch(c, s, payer, ids)
  }

  /** The state a call commits, or None when it panics. */
  ghost function Apply(c: Ctx, s: State, call: Call): Option<State> {
    match call
    case OnToken(t) => ApplyToken(c, s, t)
    case OnAllowance(a) => ApplyAllowance(c, s, a)
    case OnEscrow(e) => ApplyEscrow(c, s, e)
    case OnDispute(d) => ApplyDispute(c, s, d)
    case OnSplit(p) => ApplySplit(c, s, p)
    case OnRecurring(r) => ApplyRecurring(c, s, r)
  }

  datatype Step = Step(c: Ctx, call: Call)

  /** A step the host can produce: the contract signs nothing. Dividends of a negative amount,
      which mint tokens, are set apart. */
  predicate Genuine(st: Step) {
    && st.c.Genuine()
    && (st.call.OnToken? && st.call.t.Dividend? ==> 0 <= st.call.t.amount)
  }

  predicate AllGenuine(trace: seq<Step>) {
    forall i | 0 <= i < |trace| :: Genuine(trace[i])
  }

  /** A panic reverts the whole call. */
  ghost function Next(s: State, st: Step): State {
    match Apply(st.c, s, st.call)
    case Some(t) => t
    case None => s
  }

  ghost function Run(s: State, trace: seq<Step>): State {
    if trace == [] then s else Next(Run(s, trace[..|trace| - 1]), trace[|trace| - 1])
  }
}
