/** recurring.rs on the storage cells, with the payer index. */
module Recurring {
  import opened Types
  import opened Sums
  import opened Storage
  import Invariants
  import RecurringSpec
  import RecurringLaws
  import Balance

  // ---------- the payer index ----------

  method AppendPayerIndex(e: Env, payer: Address, id: u32)
    modifies e`payerRecurrings
    ensures e.Core() == old(e.Core())
    ensures var was := old(e.Lookup()).payerRecurrings;
            e.Lookup() == old(e.Lookup()).(payerRecurrings := was[payer := At(was, payer) + [id]])
  {
    e.payerRecurrings := e.payerRecurrings[payer := At(e.payerRecurrings, payer) + [id]];
  }

  method RemovePayerIndex(e: Env, payer: Address, id: u32)
    modifies e`payerRecurrings
    ensures e.Core() == old(e.Core())
    ensures var was := old(e.Lookup()).payerRecurrings;
            e.Lookup() == old(e.Lookup()).(payerRecurrings := was[payer := Without(At(was, payer), id)])
  {
    var updated := Filter(At(e.payerRecurrings, payer), id);
    e.payerRecurrings := e.payerRecurrings[payer := updated];
  }

  lemma PayerAdded(rc: Book<RecurringRecord>, idx: AddressIndex, r: RecurringRecord)
    requires PayersIndexed(rc, idx) && rc.Dense() && rc.count < U32_MAX
    ensures PayersIndexed(rc.Add(r), idx[r.payer := At(idx, r.payer) + [rc.count + 1]])
  {
    var id: u32 := rc.count + 1;
    var out := idx[r.payer := At(idx, r.payer) + [id]];
    assert id !in At(idx, r.payer) by {
      assert id !in rc.recs;
    }
    forall a ensures NoDup(At(out, a)) {
      assert NoDup(At(idx, a));
    }
    forall a, i: u32 ensures i in At(out, a) <==> i in rc.Add(r).recs && rc.Add(r).recs[i].payer == a {
      assert i in At(idx, a) <==> i in rc.recs && rc.recs[i].payer == a;
    }
  }

  /** A record rewritten under the same payer stays where it is listed. */
  lemma PayerKept(rc: Book<RecurringRecord>, idx: AddressIndex, id: u32, r: RecurringRecord)
    requires PayersIndexed(rc, idx) && id in rc.recs && r.payer == rc.recs[id].payer
    ensures PayersIndexed(rc.Put(id, r), idx)
  {
  }

  /** Removed from the old payer's list and appended to the new one's. */
  lemma PayerMoved(rc: Book<RecurringRecord>, idx: AddressIndex, id: u32, now: Address)
    requires PayersIndexed(rc, idx) && id in rc.recs && rc.recs[id].payer != now
    ensures var was := rc.recs[id].payer;
            var mid := idx[was := Without(At(idx, was), id)];
            PayersIndexed(rc.Put(id, rc.recs[id].(payer := now)), mid[now := At(mid, now) + [id]])
  {
    hide Without;
    var was := rc.recs[id].payer;
    var mid := idx[was := Without(At(idx, was), id)];
    var out := mid[now := At(mid, now) + [id]];
    var t := rc.Put(id, rc.recs[id].(payer := now));
    WithoutFacts(At(idx, was), id);
    assert At(mid, now) == At(idx, now) && id !in At(idx, now);
    forall a ensures NoDup(At(out, a)) {
      assert NoDup(At(idx, a));
    }
    forall a, i: u32 ensures i in At(out, a) <==> i in t.recs && t.recs[i].payer == a {
      assert i in At(idx, a) <==> i in rc.recs && rc.recs[i].payer == a;
    }
  }

  // ---------- writing records ----------

  method AddRecurring(e: Env, record: RecurringRecord)
    requires e.Core().recurrings.count < U32_MAX
    modifies e`recurringCount, e`recurring
    ensures e.Core() == old(e.Core()).(recurrings := old(e.Core()).recurrings.Add(record)) && e.Lookup() == old(e.Lookup())
  {
    e.recurringCount := e.recurringCount + 1;
    e.recurring := e.recurring[e.recurringCount := record];
  }

  method PutRecurring(e: Env, id: u32, record: RecurringRecord)
    modifies e`recurring
    ensures e.Core() == old(e.Core()).(recurrings := old(e.Core()).recurrings.Put(id, record)) && e.Lookup() == old(e.Lookup())
  {
    e.recurring := e.recurring[id := record];
  }

  /** A new record is filed under the next id and appended to its payer's list. */
  method FileRecurring(e: Env, record: RecurringRecord)
    requires Indexed(e.Core(), e.Lookup()) && e.Core().recurrings.Dense() && e.Core().recurrings.count < U32_MAX
    requires record.id == e.Core().recurrings.count + 1
    modifies e`recurringCount, e`recurring, e`payerRecurrings
    ensures Indexed(e.Core(), e.Lookup())
    ensures e.Core() == old(e.Core()).(recurrings := old(e.Core()).recurrings.Add(record))
  {
    hide Env.Core, Env.Lookup, HoldersExact, AllowancesIndexed, DepositorsIndexed, DisputesIndexed, SplitsIndexed;
    hide PayersIndexed;
    PayerAdded(e.Core().recurrings, e.Lookup().payerRecurrings, record);
    AddRecurring(e, record);
    AppendPayerIndex(e, record.payer, record.id);
  }

  /** A record written back under the same payer. */
  method WriteRecurring(e: Env, id: u32, record: RecurringRecord)
    requires Indexed(e.Core(), e.Lookup()) && id in e.recurring && record.payer == e.recurring[id].payer
    modifies e`recurring
    ensures Indexed(e.Core(), e.Lookup())
    ensures e.Core() == old(e.Core()).(recurrings := old(e.Core()).recurrings.Put(id, record))
  {
    hide HoldersExact, AllowancesIndexed, DepositorsIndexed, DisputesIndexed, SplitsIndexed, PayersIndexed;
    PayerKept(e.Core().recurrings, e.payerRecurrings, id, record);
    PutRecurring(e, id, record);
  }

  /** A record handed to another payer moves between the two lists. */
  method FilePayer(e: Env, id: u32, record: RecurringRecord, now: Address)
    requires Indexed(e.Core(), e.Lookup()) && id in e.Core().recurrings.recs && record == e.Core().recurrings.recs[id]
    requires record.payer != now
    modifies e`recurring, e`payerRecurrings
    ensures Indexed(e.Core(), e.Lookup())
    ensures e.Core() == old(e.Core()).(recurrings := old(e.Core()).recurrings.Put(id, record.(payer := now)))
  {
    hide Env.Core, Env.Lookup, HoldersExact, AllowancesIndexed, DepositorsIndexed, DisputesIndexed, SplitsIndexed;
    hide PayersIndexed;
    PayerMoved(e.Core().recurrings, e.Lookup().payerRecurrings, id, now);
    PutRecurring(e, id, record.(payer := now));
    RemovePayerIndex(e, record.payer, id);
    AppendPayerIndex(e, now, id);
  }

  // ---------- the operations ----------

  method SetupRecurring(e: Env, c: Ctx, payer: Address, payee: Address, amount: i128, interval: u32)
    returns (ok: bool, id: u32)
    requires e.Valid() && c.Genuine()
    modifies e`recurringCount, e`recurring, e`payerRecurrings
    ensures ok <==> RecurringSpec.Setup(c, old(e.Core()), payer, payee, amount, interval).Some?
    ensures ok ==> e.Valid() && e.Core() == RecurringSpec.Setup(c, old(e.Core()), payer, payee, amount, interval).value
    ensures ok ==> id == old(e.recurringCount) + 1
  {
    hide Invariants.Sound, Indexed;
    ghost var s := e.Core();
    if amount <= 0 || interval == 0 || payer == payee || !c.Signed(payer) || !c.Signed(payee) || e.recurringCount == U32_MAX {
      return false, 0;
    }
    id := e.recurringCount + 1;
    var record := RecurringRecord(id, payer, payee, amount, interval, c.ledger, true, false);
    RecurringLaws.RecurringsDense(s);
    FileRecurring(e, record);
    RecurringLaws.SetupLaw(c, s, payer, payee, amount, interval);
    return true, id;
  }

  method ExecuteRecurring(e: Env, c: Ctx, id: u32) returns (ok: bool)
    requires e.Valid()
    modifies e`balances, e`holders, e`recurring
    ensures ok <==> RecurringSpec.Execute(c, old(e.Core()), id).Some?
    ensures ok ==> e.Valid() && e.Core() == RecurringSpec.Execute(c, old(e.Core()), id).value
  {
    hide Invariants.Sound, Indexed;
    ghost var s := e.Core();
    if id !in e.recurring {
      return false;
    }
    var record := e.recurring[id];
    if !record.active || record.paused {
      return false;
    }
    if !FitsU32(record.last + record.interval) || c.ledger < record.last + record.interval {
      return false;
    }
    var funds := Balance.ReadBalance(e, record.payer);
    if funds < record.amount {
      return false;
    }
    RecurringLaws.RecordSane(s, id);
    ok := Balance.MoveFunds(e, record.payer, record.payee, record.amount);
    if !ok {
      return false;
    }
    WriteRecurring(e, id, record.(last := record.last + record.interval));
    RecurringLaws.ExecuteSound(c, s, id);
  }

  /** The answer is true exactly when a charge would commit; None is a panic. */
  method IsExecutable(e: Env, c: Ctx, id: u32) returns (r: Option<bool>)
    requires e.Valid()
    ensures r == RecurringSpec.IsExecutable(c, e.Core(), id)
    ensures r == Some(true) <==> RecurringSpec.Execute(c, e.Core(), id).Some?
  {
    hide Invariants.Sound, Indexed;
    RecurringLaws.IsExecutableLaw(c, e.Core(), id);
    if id !in e.recurring {
      return None;
    }
    var record := e.recurring[id];
    if !record.active || record.paused {
      return Some(false);
    }
    if !FitsU32(record.last + record.interval) {
      return None;
    }
    if c.ledger < record.last + record.interval {
      return Some(false);
    }
    var funds := Balance.ReadBalance(e, record.payer);
    return Some(funds >= record.amount);
  }

  /** A record is written back under the same payer. */
  method Rewrite(e: Env, id: u32, r: RecurringRecord)
    requires e.Valid() && id in e.recurring
    requires r.id == id && r.payer == e.recurring[id].payer && r.amount > 0 && r.interval > 0
    modifies e`recurring
    ensures e.Valid() && e.Core() == old(e.Core()).(recurrings := old(e.Core()).recurrings.Put(id, r))
  {
    hide Invariants.Sound, Indexed;
    ghost var s := e.Core();
    RecurringLaws.RecordSane(s, id);
    RecurringLaws.ChangeLaw(s, id, r);
    WriteRecurring(e, id, r);
  }

  method CancelRecurring(e: Env, c: Ctx, caller: Address, id: u32) returns (ok: bool)
    requires e.Valid()
    modifies e`recurring
    ensures ok <==> RecurringSpec.Cancel(c, old(e.Core()), caller, id).Some?
    ensures ok ==> e.Valid() && e.Core() == RecurringSpec.Cancel(c, old(e.Core()), caller, id).value
  {
    hide Invariants.Sound, Indexed;
    if !c.Signed(caller) || id !in e.recurring {
      return false;
    }
    var record := e.recurring[id];
    if record.payer != caller {
      return false;
    }
    RecurringLaws.RecordSane(e.Core(), id);
    Rewrite(e, id, record.(active := false));
    return true;
  }

  /** Pause and resume, which differ only in the flag they write. */
  method SetPaused(e: Env, c: Ctx, caller: Address, id: u32, paused: bool) returns (ok: bool)
    requires e.Valid()
    modifies e`recurring
    ensures ok <==> RecurringSpec.SetPaused(c, old(e.Core()), caller, id, paused).Some?
    ensures ok ==> e.Valid() && e.Core() == RecurringSpec.SetPaused(c, old(e.Core()), caller, id, paused).value
  {
    hide Invariants.Sound, Indexed;
    if !c.Signed(caller) || id !in e.recurring {
      return false;
    }
    var record := e.recurring[id];
    if record.payer != caller {
      return false;
    }
    RecurringLaws.RecordSane(e.Core(), id);
    Rewrite(e, id, record.(paused := paused));
    return true;
  }

  method AmendRecurring(e: Env, c: Ctx, caller: Address, id: u32, amount: Option<i128>, interval: Option<u32>)
    returns (ok: bool)
    requires e.Valid()
    modifies e`recurring
    ensures ok <==> RecurringSpec.Amend(c, old(e.Core()), caller, id, amount, interval).Some?
    ensures ok ==> e.Valid() && e.Core() == RecurringSpec.Amend(c, old(e.Core()), caller, id, amount, interval).value
  {
    hide Invariants.Sound, Indexed;
    if !c.Signed(caller) || id !in e.recurring {
      return false;
    }
    var record := e.recurring[id];
    if record.payer != caller || !record.active {
      return false;
    }
    RecurringLaws.RecordSane(e.Core(), id);
    if amount.Some? {
      if amount.value <= 0 {
        return false;
      }
      record := record.(amount := amount.value);
    }
    if interval.Some? {
      if interval.value == 0 {
        return false;
      }
      record := record.(interval := interval.value);
    }
    Rewrite(e, id, record);
    return true;
  }

  method TransferPayer(e: Env, c: Ctx, was: Address, now: Address, id: u32) returns (ok: bool)
    requires e.Valid() && c.Genuine()
    modifies e`recurring, e`payerRecurrings
    ensures ok <==> RecurringSpec.TransferPayer(c, old(e.Core()), was, now, id).Some?
    ensures ok ==> e.Valid() && e.Core() == RecurringSpec.TransferPayer(c, old(e.Core()), was, now, id).value
  {
    hide Invariants.Sound, Indexed;
    ghost var s := e.Core();
    if !c.Signed(was) || !c.Signed(now) || now == was || id !in e.recurring {
      return false;
    }
    var record := e.recurring[id];
    if !record.active || record.payer != was {
      return false;
    }
    RecurringLaws.RecordSane(s, id);
    RecurringLaws.ChangeLaw(s, id, record.(payer := now));
    FilePayer(e, id, record, now);
    return true;
  }

  /** All ids are checked before any record is touched. */
  method CancelBatch(e: Env, c: Ctx, payer: Address, ids: seq<u32>) returns (ok: bool)
    requires e.Valid()
    modifies e`recurring
    ensures ok <==> RecurringSpec.CancelBatch(c, old(e.Core()), payer, ids).Some?
    ensures ok ==> e.Valid() && e.Core() == RecurringSpec.CancelBatch(c, old(e.Core()), payer, ids).value
  {
    hide Invariants.Sound, Indexed;
    if !c.Signed(payer) || |ids| > RecurringSpec.MAX_CANCEL_BATCH {
      return false;
    }
    for i := 0 to |ids|
      invariant forall k | 0 <= k < i :: ids[k] in e.recurring && e.recurring[ids[k]].payer == payer
    {
      if ids[i] !in e.recurring || e.recurring[ids[i]].payer != payer {
        assert ids[i] in ids;
        return false;
      }
    }
    ghost var recs := e.recurring;
    for i := 0 to |ids|
      invariant e.Valid()
      invariant forall id | id in ids :: id in e.recurring
      invariant e.Core() == old(e.Core()).(recurrings := Book(e.recurringCount, e.recurring))
      invariant RecurringSpec.CancelRest(e.recurring, ids, i) == RecurringSpec.CancelRest(recs, ids, 0)
    {
      assert ids[i] in ids;
      RecurringLaws.RecordSane(e.Core(), ids[i]);
      Rewrite(e, ids[i], e.recurring[ids[i]].(active := false));
    }
    return true;
  }
}
