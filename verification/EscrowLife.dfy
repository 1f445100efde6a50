/** What happens to one escrow, and to a dispute over it, during a whole run. */
module EscrowLife {
  import opened Types
  import opened Machine
  import opened Invariants
  import opened MachineLaws
  import opened Frames
  import Sums
  import BalanceSpec
  import DisputeSpec
  import EscrowSpec
  import EscrowLaws
  import DisputeLaws

  // ---------- one escrow ----------

  /** The calls that pay escrow `id` out of custody when they commit. */
  predicate PaysOut(s: State, call: Call, id: u32) {
    match call
    case OnEscrow(Release(_, i)) => i == id
    case OnEscrow(Refund(_, i)) => i == id
    case OnEscrow(AdminSettle(_, i, _)) => i == id
    case OnDispute(Resolve(_, d, _)) => d in s.disputes.recs && s.disputes.recs[d].escrowId == id
    case OnDispute(Expire(d)) => d in s.disputes.recs && s.disputes.recs[d].escrowId == id
    case _ => false
  }

  /** Who is paid by such a call. */
  function Payee(call: Call, e: EscrowRecord): Address {
    match call
    case OnEscrow(AdminSettle(_, _, recipient)) => recipient
    case OnEscrow(Refund(_, _)) => e.depositor
    case OnDispute(Resolve(_, _, toBeneficiary)) => if toBeneficiary then e.beneficiary else e.depositor
    case OnDispute(Expire(_)) => e.depositor
    case _ => e.beneficiary
  }

  /** Whether such a call marks the escrow released, as opposed to refunded. */
  predicate Releases(call: Call) {
    match call
    case OnEscrow(Refund(_, _)) => false
    case OnDispute(Resolve(_, _, toBeneficiary)) => toBeneficiary
    case OnDispute(Expire(_)) => false
    case _ => true
  }

  /** The calls that overturn the settlement of escrow `id`. */
  predicate Overturns(s: State, call: Call, id: u32) {
    match call
    case OnDispute(ResolveAppeal(_, d, overturn)) =>
      overturn && d in s.disputes.recs && s.disputes.recs[d].escrowId == id
    case _ => false
  }

  /** The only ways in which one committed call changes an escrow. */
  ghost predicate Evolves(c: Ctx, s: State, call: Call, id: u32, e: EscrowRecord, f: EscrowRecord) {
    if PaysOut(s, call, id) then
      !e.Settled() && f == if Releases(call) then e.(released := true) else e.(refunded := true)
    else if Overturns(s, call, id) then
      e.Settled() && f == e.(released := e.refunded, refunded := e.released)
    else if call.OnEscrow? && call.e.Topup? && call.e.id == id then
      && !e.Settled() && e.depositor in c.signers && call.e.amount > 0
      && e.amount + call.e.amount == f.amount && f == e.(amount := f.amount)
    else
      f == e
  }

  lemma EscrowCallStep(c: Ctx, s: State, call: EscrowCall, id: u32)
    requires EscrowsOk(s.escrows) && id in s.escrows.recs && ApplyEscrow(c, s, call).Some?
    ensures var t := ApplyEscrow(c, s, call).value;
            id in t.escrows.recs && Evolves(c, s, OnEscrow(call), id, s.escrows.recs[id], t.escrows.recs[id])
  {
    hide BalanceSpec.MoveFunds, EscrowSpec.HasOpenDispute;
  }

  lemma DisputeCallStep(c: Ctx, s: State, call: DisputeCall, id: u32)
    requires EscrowsOk(s.escrows) && DisputesOk(s.disputes, s.escrows)
    requires id in s.escrows.recs && ApplyDispute(c, s, call).Some?
    ensures var t := ApplyDispute(c, s, call).value;
            id in t.escrows.recs && Evolves(c, s, OnDispute(call), id, s.escrows.recs[id], t.escrows.recs[id])
  {
    hide BalanceSpec.MoveFunds, EscrowSpec.HasOpenDispute, EscrowsOk, DisputesOk, DisputeSpec.Overturn;
    if call.ResolveAppeal? && call.overturn {
      DisputeLaws.AppealedIsSettled(s.disputes, s.escrows, call.id);
      DisputeLaws.OverturnRecords(s, call.id);
    }
  }

  /** Every committed call leaves an escrow alone, tops it up, settles it or overturns it, and
      which of these it does is visible from the call. */
  lemma EscrowStep(c: Ctx, s: State, call: Call, id: u32)
    requires Sound(s) && id in s.escrows.recs && Apply(c, s, call).Some?
    ensures var t := Apply(c, s, call).value;
            id in t.escrows.recs && Evolves(c, s, call, id, s.escrows.recs[id], t.escrows.recs[id])
  {
    hide Sound, ApplyToken, ApplyEscrow, ApplyDispute, ApplySplit, ApplyRecurring, EscrowsOk, DisputesOk;
    Parts(s);
    match call
    case OnEscrow(e) => EscrowCallStep(c, s, e, id);
    case OnDispute(d) => DisputeCallStep(c, s, d, id);
    case _ => CallFrame(c, s, call);
  }

  /** A committed payout moves exactly the escrow's amount from custody to its payee. */
  lemma PayoutMoves(c: Ctx, s: State, call: Call, id: u32)
    requires Sound(s) && id in s.escrows.recs && PaysOut(s, call, id) && Apply(c, s, call).Some?
    ensures BalanceSpec.Moved(s.ledger, Contract, Payee(call, s.escrows.recs[id]), s.escrows.recs[id].amount,
                              Apply(c, s, call).value.ledger)
  {
    hide Sound, BalanceSpec.MoveFunds, EscrowSpec.HasOpenDispute, BalanceSpec.Moved;
    EscrowStep(c, s, call, id);
    var f := Apply(c, s, call).value.escrows.recs[id];
    EscrowLaws.PayLaw(s, id, f, Payee(call, s.escrows.recs[id]));
    assert Apply(c, s, call).value.ledger == EscrowSpec.Pay(s, id, f, Payee(call, s.escrows.recs[id])).value.ledger;
  }

  /** A record never disappears and never changes hands. */
  lemma EscrowKept(s: State, st: Step, id: u32)
    requires Sound(s) && id in s.escrows.recs
    ensures id in Next(s, st).escrows.recs
    ensures var e, f := s.escrows.recs[id], Next(s, st).escrows.recs[id];
            && f.depositor == e.depositor && f.beneficiary == e.beneficiary && f.expiry == e.expiry
            && e.amount <= f.amount
            && (e.Settled() ==> f.Settled() && f.amount == e.amount)
  {
    hide Sound, Apply;
    if Apply(st.c, s, st.call).Some? {
      EscrowStep(st.c, s, st.call, id);
    }
  }

  /** Once settled, always settled, for the same parties and amount, through any run. */
  lemma {:induction false} SettledForever(s: State, trace: seq<Step>, id: u32)
    requires Sound(s) && AllGenuine(trace) && id in s.escrows.recs
    ensures id in Run(s, trace).escrows.recs
    ensures var e, f := s.escrows.recs[id], Run(s, trace).escrows.recs[id];
            && f.depositor == e.depositor && f.beneficiary == e.beneficiary && f.expiry == e.expiry
            && e.amount <= f.amount
            && (e.Settled() ==> f.Settled() && f.amount == e.amount)
  {
    hide Sound, Next, AllGenuine;
    if trace != [] {
      AllGenuinePrefix(trace);
      var before := trace[..|trace| - 1];
      SettledForever(s, before, id);
      RunSound(s, before);
      EscrowKept(Run(s, before), trace[|trace| - 1], id);
    }
  }

  /** What one step pays out of custody for escrow `id`. */
  ghost function PaidFor(s: State, st: Step, id: u32): int {
    if id in s.escrows.recs && PaysOut(s, st.call, id) && Apply(st.c, s, st.call).Some?
    then s.escrows.recs[id].amount else 0
  }

  ghost function TotalPaidFor(s: State, trace: seq<Step>, id: u32): int {
    if trace == [] then 0 else
      var before := trace[..|trace| - 1];
      TotalPaidFor(s, before, id) + PaidFor(Run(s, before), trace[|trace| - 1], id)
  }

  /** What has left custody for an escrow: nothing while it is unsettled, else its amount. */
  function LeftCustody(s: State, id: u32): int {
    if id in s.escrows.recs && s.escrows.recs[id].Settled() then s.escrows.recs[id].amount else 0
  }

  lemma CreateUnsettled(c: Ctx, s: State, call: EscrowCall, id: u32)
    requires ApplyEscrow(c, s, call).Some? && id !in s.escrows.recs
    ensures var t := ApplyEscrow(c, s, call).value; id in t.escrows.recs ==> !t.escrows.recs[id].Settled()
  {
  }

  lemma DisputesFileNoEscrow(c: Ctx, s: State, call: DisputeCall, id: u32)
    requires ApplyDispute(c, s, call).Some? && id !in s.escrows.recs
    ensures id !in ApplyDispute(c, s, call).value.escrows.recs
  {
  }

  /** A record filed by a step starts unsettled. */
  lemma FiledUnsettled(s: State, st: Step, id: u32)
    requires id !in s.escrows.recs
    ensures id in Next(s, st).escrows.recs ==> !Next(s, st).escrows.recs[id].Settled()
  {
    hide ApplyToken, ApplyEscrow, ApplyDispute, ApplySplit, ApplyRecurring;
    if Apply(st.c, s, st.call).Some? {
      match st.call
      case OnEscrow(e) => CreateUnsettled(st.c, s, e, id);
      case OnDispute(d) => DisputesFileNoEscrow(st.c, s, d, id);
      case _ => CallFrame(st.c, s, st.call);
    }
  }

  lemma PaidStep(s: State, st: Step, id: u32)
    requires Sound(s)
    ensures LeftCustody(Next(s, st), id) == LeftCustody(s, id) + PaidFor(s, st, id)
  {
    hide Sound, Apply;
    if id in s.escrows.recs {
      if Apply(st.c, s, st.call).Some? {
        EscrowStep(st.c, s, st.call, id);
      }
    } else {
      FiledUnsettled(s, st, id);
    }
  }

  /** Over any run the payouts for an escrow add up to exactly what has newly left custody:
      zero while it is unsettled, its amount once it is settled, and never twice. */
  lemma {:induction false} ExactlyOnce(s: State, trace: seq<Step>, id: u32)
    requires Sound(s) && AllGenuine(trace)
    ensures TotalPaidFor(s, trace, id) == LeftCustody(Run(s, trace), id) - LeftCustody(s, id)
  {
    hide Sound, Next, AllGenuine, PaidFor, LeftCustody;
    if trace != [] {
      AllGenuinePrefix(trace);
      var before := trace[..|trace| - 1];
      ExactlyOnce(s, before, id);
      RunSound(s, before);
      PaidStep(Run(s, before), trace[|trace| - 1], id);
    }
  }

  // ---------- disputes that outlive their escrow ----------

  /** A dispute that is still Open although its escrow has been settled past it. */
  ghost predicate Stuck(s: State, d: u32) {
    && d in s.disputes.recs && s.disputes.recs[d].status == Open
    && s.disputes.recs[d].escrowId in s.escrows.recs
    && s.escrows.recs[s.disputes.recs[d].escrowId].Settled()
  }

  lemma StuckCall(c: Ctx, s: State, call: DisputeCall, d: u32)
    requires Sound(s) && Stuck(s, d) && ApplyDispute(c, s, call).Some?
    ensures d in ApplyDispute(c, s, call).value.disputes.recs
    ensures ApplyDispute(c, s, call).value.disputes.recs[d] == s.disputes.recs[d]
  {
    hide BalanceSpec.MoveFunds, EscrowSpec.HasOpenDispute, EscrowsOk, SplitsOk, RecurringsOk, BalanceSpec.Conserved;
  }

  lemma StuckStep(s: State, st: Step, d: u32)
    requires Sound(s) && Stuck(s, d)
    ensures Stuck(Next(s, st), d) && Next(s, st).disputes.recs[d] == s.disputes.recs[d]
  {
    hide Sound, ApplyToken, ApplyEscrow, ApplyDispute, ApplySplit, ApplyRecurring;
    EscrowKept(s, st, s.disputes.recs[d].escrowId);
    if Apply(st.c, s, st.call).Some? {
      match st.call
      case OnDispute(x) => StuckCall(st.c, s, x, d);
      case _ => CallFrame(st.c, s, st.call);
    }
  }

  /** Once its escrow is released or settled by the admin, an Open dispute stays Open for good:
      no run resolves, expires or appeals it. */
  lemma {:induction false} StuckForever(s: State, trace: seq<Step>, d: u32)
    requires Sound(s) && AllGenuine(trace) && Stuck(s, d)
    ensures Stuck(Run(s, trace), d) && Run(s, trace).disputes.recs[d] == s.disputes.recs[d]
  {
    hide Sound, Next, AllGenuine, Stuck;
    if trace != [] {
      AllGenuinePrefix(trace);
      var before := trace[..|trace| - 1];
      StuckForever(s, before, d);
      RunSound(s, before);
      StuckStep(Run(s, before), trace[|trace| - 1], d);
    }
  }

  /** One escrow of one unit between accounts 0 and 1, under dispute before account 2. */
  function Disputed(): State {
    State(Ledger(map[Contract := 1], 1, 0), map[],
          Book(1, map[1 := EscrowRecord(1, Account(0), Account(1), 1, false, false, 10)]),
          Book(1, map[1 := DisputeRecord(1, 1, Account(0), Account(2), Open, 0, 5, None)]),
          Book(0, map[]), Book(0, map[]))
  }

  lemma DisputedSound()
    ensures Sound(Disputed())
  {
    var s := Disputed();
    Sums.SumRemove(s.ledger.balances, Contract);
    assert s.ledger.balances - {Contract} == map[];
    assert HeldAt(s.escrows.recs, s.disputes.recs)(1) == 1;
    assert Held(s) == 1 && Pending(s) == 0;
  }

  /** An open dispute does not freeze its escrow: the beneficiary releases it, and the dispute
      is left stuck. */
  lemma DisputeDoesNotFreeze()
    ensures var c := Ctx(1, {Account(1)}, Account(9), None, None, false, {});
            var t := EscrowSpec.Release(c, Disputed(), Account(1), 1);
            Sound(Disputed()) && t.Some? && Stuck(t.value, 1)
  {
    DisputedSound();
    EscrowLaws.ReleaseCommits(Ctx(1, {Account(1)}, Account(9), None, None, false, {}), Disputed(), Account(1), 1);
  }

  /** The escrow of an Open dispute, not yet settled. */
  ghost predicate Contested(s: State, d: u32, id: u32) {
    && d in s.disputes.recs && s.disputes.recs[d].status == Open && s.disputes.recs[d].escrowId == id
    && id in s.escrows.recs && !s.escrows.recs[id].Settled()
  }

  lemma EscrowCallContested(c: Ctx, s: State, call: EscrowCall, d: u32, id: u32)
    requires Sound(s) && Contested(s, d, id) && ApplyEscrow(c, s, call).Some?
    ensures var t := ApplyEscrow(c, s, call).value;
            && t.disputes == s.disputes && id in t.escrows.recs
            && (t.escrows.recs[id].Settled() <==> (call.Release? || call.AdminSettle?) && call.id == id)
  {
    hide Sound, ApplyEscrow, EscrowsOk, DisputesOk;
    Parts(s);
    EscrowFrame(c, s, call);
    EscrowCallStep(c, s, call, id);
    if call.Refund? && call.id == id {
      RefundBlocked(c, s, call, d, id);
    }
  }

  lemma RefundBlocked(c: Ctx, s: State, call: EscrowCall, d: u32, id: u32)
    requires Contested(s, d, id) && call.Refund? && call.id == id
    ensures ApplyEscrow(c, s, call).None?
  {
  }

  lemma DisputeCallContested(c: Ctx, s: State, call: DisputeCall, d: u32, id: u32)
    requires Sound(s) && Contested(s, d, id) && ApplyDispute(c, s, call).Some?
    ensures var t := ApplyDispute(c, s, call).value;
            && d in t.disputes.recs && t.disputes.recs[d].escrowId == id && id in t.escrows.recs
            && (t.escrows.recs[id].Settled() <==> (call.Resolve? || call.Expire?) && call.id == d)
            && (t.disputes.recs[d].status == Open <==> !t.escrows.recs[id].Settled())
  {
    hide BalanceSpec.MoveFunds, EscrowSpec.HasOpenDispute, SplitsOk, RecurringsOk, BalanceSpec.Conserved, Held, Pending;
  }

  /** While a dispute is Open over an unsettled escrow, a committed call settles the escrow exactly
      when it decides the dispute, or is a release or an admin settlement, which leave it stuck. */
  lemma SettledDespiteDispute(c: Ctx, s: State, call: Call, d: u32, id: u32)
    requires Sound(s) && Contested(s, d, id) && Apply(c, s, call).Some?
    ensures var t := Apply(c, s, call).value;
            && (Stuck(t, d) <==> call.OnEscrow? && (call.e.Release? || call.e.AdminSettle?) && call.e.id == id)
            && (Contested(t, d, id) <==>
                  !(call.OnEscrow? && (call.e.Release? || call.e.AdminSettle?) && call.e.id == id)
                  && !(call.OnDispute? && (call.d.Resolve? || call.d.Expire?) && call.d.id == d))
  {
    hide Sound, ApplyToken, ApplyEscrow, ApplyDispute, ApplySplit, ApplyRecurring;
    match call
    case OnEscrow(x) => EscrowCallContested(c, s, x, d, id);
    case OnDispute(x) => DisputeCallContested(c, s, x, d, id);
    case _ => CallFrame(c, s, call);
  }
}
