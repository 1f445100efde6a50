/** What holds after every run. */
module MachineLaws {
  import opened Types
  import opened Machine
  import opened Invariants
  import AllowanceSpec
  import BatchSpec
  import TokenSpec
  import BalanceSpec
  import DividendSpec
  import DisputeSpec
  import EscrowSpec
  import SplitterSpec
  import TokenLaws
  import DividendLaws
  import EscrowLaws
  import DisputeLaws
  import SplitterLaws
  import RecurringLaws
  import Storage

  // ---------- one step keeps the state sound ----------

  lemma TokenStepSound(c: Ctx, s: State, call: TokenCall)
    requires Sound(s) && Genuine(Step(c, OnToken(call))) && ApplyToken(c, s, call).Some?
    ensures Sound(ApplyToken(c, s, call).value)
  {
    hide Sound, BatchSpec.ClawbackBatch, BatchSpec.MintBatch, BatchSpec.TransferBatch, DividendSpec.Distribute;
    hide TokenSpec.Mint, TokenSpec.Burn, TokenSpec.Clawback, TokenSpec.TransferWithMemo, TokenSpec.TransferFrom;
    hide TokenSpec.SetCap, TokenSpec.BurnApproved;
    match call
    case Mint(admin, to, amount) => TokenLaws.MintSound(c, s, admin, to, amount);
    case Burn(from, amount) => TokenLaws.BurnSound(c, s, from, amount);
    case BurnFrom(spender, from, amount) => TokenLaws.BurnApprovedSound(c, s, spender, from, amount);
    case Clawback(admin, from, amount) => TokenLaws.ClawbackSound(c, s, admin, from, amount);
    case Transfer(from, to, amount) => TokenLaws.TransferSound(c, s, from, to, amount);
    case TransferFrom(spender, from, to, amount) => TokenLaws.TransferFromSound(c, s, spender, from, to, amount);
    case TransferWithMemo(from, to, amount) => TokenLaws.TransferSound(c, s, from, to, amount);
    case SetMaxSupply(admin, newMax) => TokenLaws.SetCapSound(c, s, admin, newMax);
    case ClawbackBatch(admin, targets) => TokenLaws.ClawbackBatchSound(c, s, admin, targets);
    case MintBatch(admin, targets) => TokenLaws.MintBatchSound(c, s, admin, targets);
    case BurnFromBatch(spender, targets) => TokenLaws.BurnFromRestLaw(c, s, spender, targets, 0);
    case TransferBatch(from, targets) => TokenLaws.TransferBatchSound(c, s, from, targets);
    case TransferBatchWithMemo(from, entries) => TokenLaws.TransferBatchSound(c, s, from, BatchSpec.Plain(entries));
    case Dividend(admin, amount) => DividendLaws.DividendSound(c, s, admin, amount);
  }

  lemma AllowanceStepSound(c: Ctx, s: State, call: AllowanceCall)
    requires Sound(s) && c.Genuine() && ApplyAllowance(c, s, call).Some?
    ensures Sound(ApplyAllowance(c, s, call).value)
  {
    hide Sound;
    TokenLaws.ApprovalsSane(s);
    var al := ApplyAllowance(c, s, call).value.allowances;
    match call {
      case Approve(from, spender, amount, expiration) =>
        AllowanceSpec.WriteSane(s.allowances, c.ledger, from, spender, amount, expiration);
      case ApproveBatch(from, approvals) => AllowanceSpec.ApproveRestSane(s.allowances, c.ledger, from, approvals, 0);
      case RevokeAll(from) => AllowanceSpec.RevokeSane(c, s.allowances, from);
      case View(from, spender) => AllowanceSpec.PruneSane(s.allowances, c.ledger, from, spender);
    }
    TokenLaws.AllowancesStep(s, al);
  }

  lemma EscrowStepSound(c: Ctx, s: State, call: EscrowCall)
    requires Sound(s) && c.Genuine() && ApplyEscrow(c, s, call).Some?
    ensures Sound(ApplyEscrow(c, s, call).value)
  {
    hide Sound;
    match call
    case Create(depositor, beneficiary, amount, expiry) =>
      EscrowLaws.CreateSound(c, s, depositor, beneficiary, amount, expiry);
    case Release(caller, id) => EscrowLaws.ReleaseCommits(c, s, caller, id);
    case Refund(caller, id) => EscrowLaws.RefundCommits(c, s, caller, id);
    case Topup(depositor, id, amount) => EscrowLaws.TopupSound(c, s, depositor, id, amount);
    case AdminSettle(admin, id, recipient) => EscrowLaws.AdminSettleCommits(c, s, admin, id, recipient);
  }

  lemma DisputeStepSound(c: Ctx, s: State, call: DisputeCall)
    requires Sound(s) && ApplyDispute(c, s, call).Some?
    ensures Sound(ApplyDispute(c, s, call).value)
  {
    hide Sound;
    match call
    case OpenDispute(claimant, id, resolver, evidence, expiry) =>
      DisputeLaws.OpenSound(c, s, claimant, id, resolver, evidence, expiry);
    case Resolve(resolver, id, toBeneficiary) => DisputeLaws.ResolveLaw(c, s, resolver, id, toBeneficiary);
    case Expire(id) => DisputeLaws.ExpireLaw(c, s, id);
    case Appeal(caller, id, appealResolver) => DisputeLaws.AppealLaw(c, s, caller, id, appealResolver);
    case ResolveAppeal(resolver, id, overturn) => DisputeLaws.ResolveAppealLaw(c, s, resolver, id, overturn);
  }

  lemma SplitStepSound(c: Ctx, s: State, call: SplitCall)
    requires Sound(s) && c.Genuine() && ApplySplit(c, s, call).Some?
    ensures Sound(ApplySplit(c, s, call).value)
  {
    hide Sound;
    match call
    case CreateSplit(sender, rs, total, memo) => SplitterLaws.CreateSplitSound(c, s, sender, rs, total);
    case Distribute(caller, id) => SplitterLaws.DistributeSound(c, s, caller, id);
    case CancelSplit(caller, id) => SplitterLaws.CancelSound(c, s, caller, id);
    case Replace(sender, id, was, now) => SplitterLaws.ReplaceSound(c, s, sender, id, was, now);
    case BulkDistribute(caller, ids) => SplitterLaws.BulkDistributeLaw(c, s, caller, ids);
  }

  lemma RecurringStepSound(c: Ctx, s: State, call: RecurringCall)
    requires Sound(s) && c.Genuine() && ApplyRecurring(c, s, call).Some?
    ensures Sound(ApplyRecurring(c, s, call).value)
  {
    hide Sound;
    match call
    case Setup(payer, payee, amount, interval) => RecurringLaws.SetupLaw(c, s, payer, payee, amount, interval);
    case Execute(id) => RecurringLaws.ExecuteSound(c, s, id);
    case Cancel(caller, id) => RecurringLaws.CancelLaw(c, s, caller, id);
    case SetPaused(caller, id, paused) => RecurringLaws.SetPausedLaw(c, s, caller, id, paused);
    case Amend(caller, id, amount, interval) => RecurringLaws.AmendLaw(c, s, caller, id, amount, interval);
    case TransferPayer(was, now, id) => RecurringLaws.TransferPayerLaw(c, s, was, now, id);
    case CancelBatch(payer, ids) => RecurringLaws.CancelBatchLaw(c, s, payer, ids);
  }

  lemma StepSound(s: State, st: Step)
    requires Sound(s) && Genuine(st)
    ensures Sound(Next(s, st))
  {
    hide Sound, ApplyToken, ApplyAllowance, ApplyEscrow, ApplyDispute, ApplySplit, ApplyRecurring;
    if Apply(st.c, s, st.call).Some? {
      match st.call
      case OnToken(t) => TokenStepSound(st.c, s, t);
      case OnAllowance(a) => AllowanceStepSound(st.c, s, a);
      case OnEscrow(e) => EscrowStepSound(st.c, s, e);
      case OnDispute(d) => DisputeStepSound(st.c, s, d);
      case OnSplit(p) => SplitStepSound(st.c, s, p);
      case OnRecurring(r) => RecurringStepSound(st.c, s, r);
    }
  }

  // ---------- every run ----------

  lemma {:induction false} RunSound(s: State, trace: seq<Step>)
    requires Sound(s) && AllGenuine(trace)
    ensures Sound(Run(s, trace))
  {
    hide Sound, Next, Genuine;
    if trace != [] {
      var before := trace[..|trace| - 1];
      assert Genuine(trace[|trace| - 1]);
      assert AllGenuine(before) by {
        forall i | 0 <= i < |before| ensures Genuine(before[i]) {
          assert before[i] == trace[i];
        }
      }
      RunSound(s, before);
      StepSound(Run(s, before), trace[|trace| - 1]);
    }
  }

  /** From a fresh deployment: conservation, the cap, solvency and the agreement of disputes
      with escrows hold after every run. */
  lemma EveryRun(maxSupply: i128, trace: seq<Step>)
    requires AllGenuine(trace)
    ensures var s := Run(Storage.Initial(maxSupply), trace);
            Sound(s) && BalanceSpec.Conserved(s.ledger) && Solvent(s) && DisputesOk(s.disputes, s.escrows)
  {
    Storage.InitialValid(maxSupply);
    RunSound(Storage.Initial(maxSupply), trace);
  }

  // ---------- progress ----------

  /** Nobody can be kept from settling what is theirs to settle: the signed release of an unsettled
      escrow by its beneficiary, its refund to the depositor while no dispute is open, the decision
      of an Open dispute by its resolver and the cancellation of a pending split by its sender. */
  ghost predicate CanSettle(c: Ctx, s: State) {
    && (forall id | id in s.escrows.recs && !s.escrows.recs[id].Settled() && s.escrows.recs[id].beneficiary in c.signers ::
          EscrowSpec.Release(c, s, s.escrows.recs[id].beneficiary, id).Some?)
    && (forall id | && id in s.escrows.recs && !s.escrows.recs[id].Settled() && s.escrows.recs[id].depositor in c.signers
                    && (forall d | d in s.disputes.recs && s.disputes.recs[d].escrowId == id ::
                          s.disputes.recs[d].status != Open) ::
          EscrowSpec.Refund(c, s, s.escrows.recs[id].depositor, id).Some?)
    && (forall d, toBeneficiary | && d in s.disputes.recs && s.disputes.recs[d].status == Open
                                  && s.disputes.recs[d].escrowId in s.escrows.recs
                                  && !s.escrows.recs[s.disputes.recs[d].escrowId].Settled()
                                  && s.disputes.recs[d].resolver in c.signers ::
          DisputeSpec.Resolve(c, s, s.disputes.recs[d].resolver, d, toBeneficiary).Some?)
    && (forall id | id in s.splits.recs && s.splits.recs[id].Pending() && s.splits.recs[id].sender in c.signers ::
          SplitterSpec.Cancel(c, s, s.splits.recs[id].sender, id).Some?)
  }

  lemma SoundCanSettle(c: Ctx, s: State)
    requires Sound(s)
    ensures CanSettle(c, s)
  {
    hide Sound, EscrowSpec.Release, EscrowSpec.Refund, DisputeSpec.Resolve, SplitterSpec.Cancel;
    forall id | id in s.escrows.recs && !s.escrows.recs[id].Settled() && s.escrows.recs[id].beneficiary in c.signers
      ensures EscrowSpec.Release(c, s, s.escrows.recs[id].beneficiary, id).Some?
    {
      EscrowLaws.ReleaseCommits(c, s, s.escrows.recs[id].beneficiary, id);
    }
    forall id | && id in s.escrows.recs && !s.escrows.recs[id].Settled() && s.escrows.recs[id].depositor in c.signers
                && (forall d | d in s.disputes.recs && s.disputes.recs[d].escrowId == id ::
                      s.disputes.recs[d].status != Open)
      ensures EscrowSpec.Refund(c, s, s.escrows.recs[id].depositor, id).Some?
    {
      EscrowLaws.RefundCommits(c, s, s.escrows.recs[id].depositor, id);
    }
    forall d, toBeneficiary | && d in s.disputes.recs && s.disputes.recs[d].status == Open
                              && s.disputes.recs[d].escrowId in s.escrows.recs
                              && !s.escrows.recs[s.disputes.recs[d].escrowId].Settled()
                              && s.disputes.recs[d].resolver in c.signers
      ensures DisputeSpec.Resolve(c, s, s.disputes.recs[d].resolver, d, toBeneficiary).Some?
    {
      DisputeLaws.ResolveLaw(c, s, s.disputes.recs[d].resolver, d, toBeneficiary);
    }
    forall id | id in s.splits.recs && s.splits.recs[id].Pending() && s.splits.recs[id].sender in c.signers
      ensures SplitterSpec.Cancel(c, s, s.splits.recs[id].sender, id).Some?
    {
      SplitterLaws.CancelLaw(c, s, s.splits.recs[id].sender, id);
    }
  }

  /** In every reachable state, and in any later call. */
  lemma Progress(maxSupply: i128, trace: seq<Step>, c: Ctx)
    requires AllGenuine(trace)
    ensures CanSettle(c, Run(Storage.Initial(maxSupply), trace))
  {
    hide Sound, CanSettle, Run;
    Storage.InitialValid(maxSupply);
    RunSound(Storage.Initial(maxSupply), trace);
    SoundCanSettle(c, Run(Storage.Initial(maxSupply), trace));
  }
}
