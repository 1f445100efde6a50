/** What one approval can be used for during a whole run. */
module ApprovalLife {
  import opened Types
  import opened Machine
  import opened Invariants
  import opened MachineLaws
  import opened Frames
  import BalanceSpec
  import AllowanceSpec
  import BatchSpec
  import TokenSpec
  import TokenLaws

  /** The calls by which the owner sets its approvals anew. */
  predicate OwnerWrites(call: Call, from: Address) {
    match call
    case OnAllowance(Approve(f, _, _, _)) => f == from
    case OnAllowance(ApproveBatch(f, _)) => f == from
    case OnAllowance(RevokeAll(f)) => f == from
    case _ => false
  }

  /** What a committed step takes from `from` on the strength of its approval of `spender`. */
  ghost function Taken(s: State, st: Step, from: Address, spender: Address): int {
    if Apply(st.c, s, st.call).None? then 0 else
      match st.call
      case OnToken(BurnFrom(sp, f, amount)) => if sp == spender && f == from then amount else 0
      case OnToken(TransferFrom(sp, f, _, amount)) => if sp == spender && f == from then amount else 0
      case OnToken(BurnFromBatch(sp, targets)) => if sp == spender then TokenLaws.AmountFor(targets, from, 0) else 0
      case _ => 0
  }

  ghost function TotalTaken(s: State, trace: seq<Step>, from: Address, spender: Address): int {
    if trace == [] then 0 else
      var before := trace[..|trace| - 1];
      TotalTaken(s, before, from, spender) + Taken(Run(s, before), trace[|trace| - 1], from, spender)
  }

  function Budget(s: State, from: Address, spender: Address): int {
    AllowanceSpec.Stored(s.allowances, from, spender).amount
  }

  lemma {:induction false} BatchBudget(c: Ctx, s: State, sp: Address, targets: seq<BatchEntry>, i: nat, from: Address, spender: Address)
    requires i <= |targets| && BatchSpec.BurnFromRest(c, s, sp, targets, i).Some?
    ensures Budget(BatchSpec.BurnFromRest(c, s, sp, targets, i).value, from, spender) ==
            Budget(s, from, spender) - if sp == spender then TokenLaws.AmountFor(targets, from, i) else 0
    decreases |targets| - i
  {
    hide AllowanceSpec.Spend, BalanceSpec.BurnOf;
    if i < |targets| {
      var t := targets[i];
      AllowanceSpec.SpendExact(s.allowances, c.ledger, t.address, sp, t.amount);
      assert t.address != from || sp != spender ==> Pair(from, spender) != Pair(t.address, sp);
      var b := TokenSpec.BurnApproved(c, s, sp, t.address, t.amount);
      assert AllowanceSpec.Stored(b.value.allowances, Pair(from, spender).from, Pair(from, spender).spender)
             == AllowanceSpec.Stored(b.value.allowances, from, spender);
      BatchBudget(c, b.value, sp, targets, i + 1, from, spender);
    }
  }

  lemma SpendBudget(al: Types.Allowances, ledger: u32, f: Address, sp: Address, amount: i128, from: Address, spender: Address)
    requires 0 <= amount && AllowanceSpec.Spend(al, ledger, f, sp, amount).Some?
    ensures AllowanceSpec.Stored(AllowanceSpec.Spend(al, ledger, f, sp, amount).value, from, spender).amount ==
            AllowanceSpec.Stored(al, from, spender).amount - if f == from && sp == spender then amount else 0
  {
  }

  lemma TokenBudget(c: Ctx, s: State, call: TokenCall, from: Address, spender: Address)
    requires ApplyToken(c, s, call).Some?
    ensures Budget(ApplyToken(c, s, call).value, from, spender) ==
            Budget(s, from, spender) - Taken(s, Step(c, OnToken(call)), from, spender)
  {
    hide BatchSpec.ClawbackRest, BatchSpec.MintRest, BatchSpec.PayBatch, BalanceSpec.MoveFunds, BalanceSpec.BurnOf;
    hide BalanceSpec.MintTo, BalanceSpec.SetMaxSupply, AllowanceSpec.Spend, BatchSpec.BurnFromRest, TokenLaws.AmountFor;
    hide AllowanceSpec.Validates, AllowanceSpec.Stored;
    match call
    case BurnFrom(sp, f, amount) => SpendBudget(s.allowances, c.ledger, f, sp, amount, from, spender);
    case TransferFrom(sp, f, to, amount) => SpendBudget(s.allowances, c.ledger, f, sp, amount, from, spender);
    case BurnFromBatch(sp, targets) => BatchBudget(c, s, sp, targets, 0, from, spender);
    case _ =>
  }

  /** Others' writes and expiry pruning never raise what is left of an approval. */
  lemma OthersWrite(c: Ctx, s: State, call: AllowanceCall, from: Address, spender: Address)
    requires AllowanceSpec.Sane(s.allowances) && ApplyAllowance(c, s, call).Some? && !OwnerWrites(OnAllowance(call), from)
    ensures Budget(ApplyAllowance(c, s, call).value, from, spender) <= Budget(s, from, spender)
  {
    if call.ApproveBatch? {
      AllowanceSpec.ApproveRestExact(s.allowances, c.ledger, call.from, call.approvals, 0);
    }
  }

  lemma BudgetStep(s: State, st: Step, from: Address, spender: Address)
    requires Sound(s) && !OwnerWrites(st.call, from)
    ensures Budget(Next(s, st), from, spender) + Taken(s, st, from, spender) <= Budget(s, from, spender)
  {
    hide Sound, ApplyToken, ApplyAllowance, ApplyEscrow, ApplyDispute, ApplySplit, ApplyRecurring;
    TokenLaws.ApprovalsSane(s);
    if Apply(st.c, s, st.call).Some? {
      match st.call
      case OnToken(t) => TokenBudget(st.c, s, t, from, spender);
      case OnAllowance(a) => OthersWrite(st.c, s, a, from, spender);
      case _ => CallFrame(st.c, s, st.call);
    }
  }

  /** Between two writes by the owner, what is taken and what is left never exceed the budget. */
  lemma {:induction false} BudgetHolds(s: State, trace: seq<Step>, from: Address, spender: Address)
    requires Sound(s) && AllGenuine(trace) && forall i | 0 <= i < |trace| :: !OwnerWrites(trace[i].call, from)
    ensures Budget(Run(s, trace), from, spender) + TotalTaken(s, trace, from, spender) <= Budget(s, from, spender)
  {
    hide Sound, Next, AllGenuine, Taken, Budget, OwnerWrites;
    if trace != [] {
      AllGenuinePrefix(trace);
      var before := trace[..|trace| - 1];
      forall i | 0 <= i < |before| ensures !OwnerWrites(before[i].call, from) {
        assert before[i] == trace[i];
      }
      BudgetHolds(s, before, from, spender);
      RunSound(s, before);
      BudgetStep(Run(s, before), trace[|trace| - 1], from, spender);
    }
  }

  // ---------- the expiry of one approval ----------

  /** An approval of `spender` by `from`, if there is one, expires by `expiry`. */
  ghost predicate ExpiresBy(al: Types.Allowances, from: Address, spender: Address, expiry: u32) {
    Pair(from, spender) in al ==> al[Pair(from, spender)].expiration <= expiry
  }

  lemma SpendExpires(al: Types.Allowances, ledger: u32, f: Address, sp: Address, amount: i128, from: Address,
                     spender: Address, expiry: u32)
    requires 0 < amount && AllowanceSpec.Spend(al, ledger, f, sp, amount).Some? && ExpiresBy(al, from, spender, expiry)
    ensures ExpiresBy(AllowanceSpec.Spend(al, ledger, f, sp, amount).value, from, spender, expiry)
    ensures f == from && sp == spender ==> ledger <= expiry
  {
  }

  lemma {:induction false} BatchExpires(c: Ctx, s: State, sp: Address, targets: seq<BatchEntry>, i: nat, from: Address,
                                        spender: Address, expiry: u32)
    requires i <= |targets| && BatchSpec.BurnFromRest(c, s, sp, targets, i).Some?
    requires ExpiresBy(s.allowances, from, spender, expiry)
    ensures ExpiresBy(BatchSpec.BurnFromRest(c, s, sp, targets, i).value.allowances, from, spender, expiry)
    ensures sp == spender && TokenLaws.AmountFor(targets, from, i) > 0 ==> c.ledger <= expiry
    decreases |targets| - i
  {
    hide AllowanceSpec.Spend, BalanceSpec.BurnOf, ExpiresBy;
    if i < |targets| {
      var t := targets[i];
      SpendExpires(s.allowances, c.ledger, t.address, sp, t.amount, from, spender, expiry);
      var b := TokenSpec.BurnApproved(c, s, sp, t.address, t.amount);
      BatchExpires(c, b.value, sp, targets, i + 1, from, spender, expiry);
    }
  }

  lemma TokenExpires(c: Ctx, s: State, call: TokenCall, from: Address, spender: Address, expiry: u32)
    requires ApplyToken(c, s, call).Some? && ExpiresBy(s.allowances, from, spender, expiry)
    ensures ExpiresBy(ApplyToken(c, s, call).value.allowances, from, spender, expiry)
    ensures Taken(s, Step(c, OnToken(call)), from, spender) > 0 ==> c.ledger <= expiry
  {
    hide BatchSpec.ClawbackRest, BatchSpec.MintRest, BatchSpec.PayBatch, BalanceSpec.MoveFunds, BalanceSpec.BurnOf;
    hide BalanceSpec.MintTo, BalanceSpec.SetMaxSupply, AllowanceSpec.Spend, BatchSpec.BurnFromRest, TokenLaws.AmountFor;
    hide AllowanceSpec.Validates, AllowanceSpec.Stored, ExpiresBy;
    match call
    case BurnFrom(sp, f, amount) => SpendExpires(s.allowances, c.ledger, f, sp, amount, from, spender, expiry);
    case TransferFrom(sp, f, to, amount) => SpendExpires(s.allowances, c.ledger, f, sp, amount, from, spender, expiry);
    case BurnFromBatch(sp, targets) => BatchExpires(c, s, sp, targets, 0, from, spender, expiry);
    case _ =>
  }

  /** Nobody but the owner can put the expiry off. */
  lemma OthersExpire(c: Ctx, s: State, call: AllowanceCall, from: Address, spender: Address, expiry: u32)
    requires ApplyAllowance(c, s, call).Some? && !OwnerWrites(OnAllowance(call), from)
    requires ExpiresBy(s.allowances, from, spender, expiry)
    ensures ExpiresBy(ApplyAllowance(c, s, call).value.allowances, from, spender, expiry)
  {
    if call.ApproveBatch? {
      AllowanceSpec.ApproveRestExact(s.allowances, c.ledger, call.from, call.approvals, 0);
    }
  }

  lemma ExpiryStep(s: State, st: Step, from: Address, spender: Address, expiry: u32)
    requires !OwnerWrites(st.call, from) && ExpiresBy(s.allowances, from, spender, expiry)
    ensures ExpiresBy(Next(s, st).allowances, from, spender, expiry)
    ensures Taken(s, st, from, spender) > 0 ==> st.c.ledger <= expiry
  {
    hide ApplyToken, ApplyAllowance, ApplyEscrow, ApplyDispute, ApplySplit, ApplyRecurring, ExpiresBy;
    if Apply(st.c, s, st.call).Some? {
      match st.call
      case OnToken(t) => TokenExpires(st.c, s, t, from, spender, expiry);
      case OnAllowance(a) => OthersExpire(st.c, s, a, from, spender, expiry);
      case _ => CallFrame(st.c, s, st.call);
    }
  }

  /** In any run in which the owner writes no approval, every committed call that takes something on
      the strength of its approval does so by the ledger at which that approval expires. */
  lemma {:induction false} ExpiryHolds(s: State, trace: seq<Step>, from: Address, spender: Address, expiry: u32)
    requires ExpiresBy(s.allowances, from, spender, expiry)
    requires forall i | 0 <= i < |trace| :: !OwnerWrites(trace[i].call, from)
    ensures ExpiresBy(Run(s, trace).allowances, from, spender, expiry)
    ensures forall i | 0 <= i < |trace| && Taken(Run(s, trace[..i]), trace[i], from, spender) > 0 ::
              trace[i].c.ledger <= expiry
  {
    hide Next, Taken, ExpiresBy, OwnerWrites;
    if trace != [] {
      var n := |trace| - 1;
      var before := trace[..n];
      forall i | 0 <= i < |before| ensures !OwnerWrites(before[i].call, from) {
        assert before[i] == trace[i];
      }
      ExpiryHolds(s, before, from, spender, expiry);
      ExpiryStep(Run(s, before), trace[n], from, spender, expiry);
      forall i | 0 <= i < |trace| && Taken(Run(s, trace[..i]), trace[i], from, spender) > 0
        ensures trace[i].c.ledger <= expiry
      {
        if i < n {
          assert before[..i] == trace[..i] && before[i] == trace[i];
        }
      }
    }
  }
}
