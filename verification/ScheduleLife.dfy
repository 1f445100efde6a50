/** What happens to one recurring payment during a whole run. */
module ScheduleLife {
  import opened Types
  import opened Machine
  import opened Invariants
  import opened MachineLaws
  import opened Frames
  import BalanceSpec
  import RecurringSpec
  import RecurringLaws

  /** The interval in force when a step charges record `id`. */
  ghost function IntervalCharged(s: State, st: Step, id: u32): int {
    if st.call == OnRecurring(Execute(id)) && Apply(st.c, s, st.call).Some? && id in s.recurrings.recs
    then s.recurrings.recs[id].interval else 0
  }

  ghost function IntervalsCharged(s: State, trace: seq<Step>, id: u32): int {
    if trace == [] then 0 else
      var before := trace[..|trace| - 1];
      IntervalsCharged(s, before, id) + IntervalCharged(Run(s, before), trace[|trace| - 1], id)
  }

  lemma RecurringCallStep(c: Ctx, s: State, call: RecurringCall, id: u32)
    requires RecurringsOk(s.recurrings) && id in s.recurrings.recs && ApplyRecurring(c, s, call).Some?
    ensures var t := ApplyRecurring(c, s, call).value;
            && id in t.recurrings.recs
            && if call == Execute(id)
               then t.recurrings.recs[id].last == s.recurrings.recs[id].last + s.recurrings.recs[id].interval <= c.ledger
               else t.recurrings.recs[id].last == s.recurrings.recs[id].last
  {
    hide BalanceSpec.MoveFunds, RecurringSpec.CancelRest;
    if call.CancelBatch? {
      RecurringLaws.CancelRestLaw(s.recurrings.recs, call.ids, 0);
    }
  }

  lemma ScheduleStep(s: State, st: Step, id: u32)
    requires Sound(s) && id in s.recurrings.recs
    ensures id in Next(s, st).recurrings.recs
    ensures Next(s, st).recurrings.recs[id].last == s.recurrings.recs[id].last + IntervalCharged(s, st, id)
    ensures IntervalCharged(s, st, id) > 0 ==> Next(s, st).recurrings.recs[id].last <= st.c.ledger
  {
    hide Sound, ApplyToken, ApplyEscrow, ApplyDispute, ApplySplit, ApplyRecurring, RecurringsOk;
    Parts(s);
    if Apply(st.c, s, st.call).Some? {
      match st.call
      case OnRecurring(r) => RecurringCallStep(st.c, s, r, id);
      case _ => CallFrame(st.c, s, st.call);
    }
  }

  /** Through amendments, pauses, cancellations and changes of payer, the last charged ledger
      advances by exactly the intervals in force at the committed charges: no drift. */
  lemma {:induction false} NoDrift(s: State, trace: seq<Step>, id: u32)
    requires Sound(s) && AllGenuine(trace) && id in s.recurrings.recs
    ensures id in Run(s, trace).recurrings.recs
    ensures Run(s, trace).recurrings.recs[id].last == s.recurrings.recs[id].last + IntervalsCharged(s, trace, id)
  {
    hide Sound, Next, AllGenuine, IntervalCharged;
    if trace != [] {
      AllGenuinePrefix(trace);
      var before := trace[..|trace| - 1];
      NoDrift(s, before, id);
      RunSound(s, before);
      ScheduleStep(Run(s, before), trace[|trace| - 1], id);
    }
  }

  /** No schedule has been charged beyond `ledger`. */
  ghost predicate NotAhead(s: State, ledger: u32) {
    forall id | id in s.recurrings.recs :: s.recurrings.recs[id].last <= ledger
  }

  /** The ledger sequence never goes back during a run that starts at `from`. */
  ghost predicate Monotone(from: u32, trace: seq<Step>) {
    forall i | 0 <= i < |trace| :: LastLedger(from, trace[..i]) <= trace[i].c.ledger
  }

  lemma MonotonePrefix(from: u32, trace: seq<Step>)
    requires trace != [] && Monotone(from, trace)
    ensures Monotone(from, trace[..|trace| - 1])
    ensures LastLedger(from, trace[..|trace| - 1]) <= trace[|trace| - 1].c.ledger
  {
  }

  function LastLedger(from: u32, trace: seq<Step>): u32 {
    if trace == [] then from else trace[|trace| - 1].c.ledger
  }

  lemma NotAheadStep(s: State, st: Step, ledger: u32)
    requires Sound(s) && NotAhead(s, ledger) && ledger <= st.c.ledger
    ensures NotAhead(Next(s, st), st.c.ledger)
  {
    hide Sound, Next, IntervalCharged;
    var t := Next(s, st);
    forall id | id in t.recurrings.recs ensures t.recurrings.recs[id].last <= st.c.ledger {
      if id in s.recurrings.recs {
        ScheduleStep(s, st, id);
        IntervalNonNegative(s, st, id);
      } else {
        SetupNow(s, st, id);
      }
    }
  }

  lemma IntervalNonNegative(s: State, st: Step, id: u32)
    ensures 0 <= IntervalCharged(s, st, id)
  {
  }

  lemma SetupCallNow(c: Ctx, s: State, call: RecurringCall, id: u32)
    requires ApplyRecurring(c, s, call).Some? && id !in s.recurrings.recs
    requires id in ApplyRecurring(c, s, call).value.recurrings.recs
    ensures ApplyRecurring(c, s, call).value.recurrings.recs[id].last == c.ledger
  {
    hide BalanceSpec.MoveFunds, RecurringSpec.CancelRest;
    if call.CancelBatch? {
      RecurringLaws.CancelRestLaw(s.recurrings.recs, call.ids, 0);
    }
  }

  lemma SetupNow(s: State, st: Step, id: u32)
    requires id !in s.recurrings.recs && id in Next(s, st).recurrings.recs
    ensures Next(s, st).recurrings.recs[id].last == st.c.ledger
  {
    hide ApplyToken, ApplyEscrow, ApplyDispute, ApplySplit, ApplyRecurring;
    match st.call
    case OnRecurring(r) => SetupCallNow(st.c, s, r, id);
    case _ => CallFrame(st.c, s, st.call);
  }

  /** While ledgers only advance, no last charged ledger lies in the future. */
  lemma {:induction false} NeverAhead(s: State, trace: seq<Step>, from: u32)
    requires Sound(s) && AllGenuine(trace) && Monotone(from, trace) && NotAhead(s, from)
    ensures NotAhead(Run(s, trace), LastLedger(from, trace))
  {
    hide Sound, Next, AllGenuine, NotAhead;
    if trace != [] {
      AllGenuinePrefix(trace);
      var before := trace[..|trace| - 1];
      MonotonePrefix(from, trace);
      NeverAhead(s, before, from);
      RunSound(s, before);
      NotAheadStep(Run(s, before), trace[|trace| - 1], LastLedger(from, before));
    }
  }

  /** Apart from charges, a schedule changes only with its payer's signature, and never its payee
      or its anchor; a cancelled one stays cancelled and is never charged. */
  ghost predicate RecordEvolves(c: Ctx, call: RecurringCall, r: RecurringRecord, q: RecurringRecord) {
    && q.id == r.id && q.payee == r.payee
    && (q.active ==> r.active)
    && (if q.last != r.last
        then r.active && !r.paused && call == Execute(r.id) && q.last == r.last + r.interval && q == r.(last := q.last)
        else q != r ==> r.payer in c.signers)
  }

  lemma RecurringEvolves(c: Ctx, s: State, call: RecurringCall, id: u32)
    requires RecurringsOk(s.recurrings) && id in s.recurrings.recs && ApplyRecurring(c, s, call).Some?
    ensures var t := ApplyRecurring(c, s, call).value;
            id in t.recurrings.recs && RecordEvolves(c, call, s.recurrings.recs[id], t.recurrings.recs[id])
  {
    hide BalanceSpec.MoveFunds, RecurringSpec.CancelRest;
    if call.CancelBatch? {
      RecurringLaws.CancelRestLaw(s.recurrings.recs, call.ids, 0);
    }
  }

  /** What the payer's calls leave in the record they name. */
  ghost predicate AsRequested(c: Ctx, call: RecurringCall, id: u32, r: RecurringRecord, q: RecurringRecord) {
    match call
    case Amend(caller, i, amount, interval) =>
      i == id ==> && caller == r.payer && r.active && q.payer == r.payer && q.paused == r.paused
                  && q.amount == (if amount.Some? then amount.value else r.amount)
                  && q.interval == (if interval.Some? then interval.value else r.interval)
    case TransferPayer(was, now, i) =>
      i == id ==> && was == r.payer && q.payer == now && now in c.signers && r.active && q.amount == r.amount
                  && q.interval == r.interval
    case SetPaused(caller, i, paused) => i == id ==> caller == r.payer && q.paused == paused && q.payer == r.payer
    case Cancel(caller, i) => i == id ==> caller == r.payer && !q.active && q.payer == r.payer
    case CancelBatch(payer, ids) => id in ids ==> payer == r.payer && !q.active && q.payer == r.payer
    case _ => true
  }

  /** Amendments, transfers, pauses and cancellations do what they were asked to, and only to the
      records they name. */
  lemma ChangesAsRequested(c: Ctx, s: State, call: RecurringCall, id: u32)
    requires RecurringsOk(s.recurrings) && id in s.recurrings.recs && ApplyRecurring(c, s, call).Some?
    ensures var t := ApplyRecurring(c, s, call).value;
            && id in t.recurrings.recs
            && AsRequested(c, call, id, s.recurrings.recs[id], t.recurrings.recs[id])
            && (t.recurrings.recs[id] != s.recurrings.recs[id] ==>
                  !call.Setup? && (if call.CancelBatch? then id in call.ids else call.id == id))
  {
    hide BalanceSpec.MoveFunds, RecurringSpec.CancelRest;
    if call.CancelBatch? {
      RecurringLaws.CancelRestLaw(s.recurrings.recs, call.ids, 0);
    }
  }

  lemma CancelledStep(s: State, st: Step, id: u32)
    requires Sound(s) && id in s.recurrings.recs && !s.recurrings.recs[id].active
    ensures id in Next(s, st).recurrings.recs && !Next(s, st).recurrings.recs[id].active
    ensures IntervalCharged(s, st, id) == 0
  {
    hide Sound, ApplyToken, ApplyEscrow, ApplyDispute, ApplySplit, ApplyRecurring, RecurringsOk;
    Parts(s);
    if Apply(st.c, s, st.call).Some? {
      match st.call
      case OnRecurring(r) =>
        RecurringEvolves(st.c, s, r, id);
        RecurringCallStep(st.c, s, r, id);
      case _ => CallFrame(st.c, s, st.call);
    }
  }

  /** Once cancelled, a schedule is never charged again, whatever is called. */
  lemma {:induction false} CancelledForever(s: State, trace: seq<Step>, id: u32)
    requires Sound(s) && AllGenuine(trace) && id in s.recurrings.recs && !s.recurrings.recs[id].active
    ensures id in Run(s, trace).recurrings.recs && !Run(s, trace).recurrings.recs[id].active
    ensures IntervalsCharged(s, trace, id) == 0
  {
    hide Sound, Next, AllGenuine, IntervalCharged;
    if trace != [] {
      AllGenuinePrefix(trace);
      var before := trace[..|trace| - 1];
      CancelledForever(s, before, id);
      RunSound(s, before);
      CancelledStep(Run(s, before), trace[|trace| - 1], id);
    }
  }
}
