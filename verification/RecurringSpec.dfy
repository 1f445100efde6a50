/** recurring.rs without its payer index. */
module RecurringSpec {
  import opened Types
  import opened BalanceSpec

  const MAX_CANCEL_BATCH := 20

  function Setup(c: Ctx, s: State, payer: Address, payee: Address, amount: i128, interval: u32): Option<State> {
    if || amount <= 0 || interval == 0 || payer == payee
       || !c.Signed(payer) || !c.Signed(payee) || s.recurrings.count == U32_MAX
    then None
    else Some(s.(recurrings := s.recurrings.Add(
                   RecurringRecord(s.recurrings.count + 1, payer, payee, amount, interval, c.ledger, true, false))))
  }

  function Execute(c: Ctx, s: State, id: u32): Option<State> {
    if id !in s.recurrings.recs then None else
      var r := s.recurrings.recs[id];
      if || !r.active || r.paused
         || !FitsU32(r.last + r.interval) || c.ledger < r.last + r.interval
         || Bal(s.ledger.balances, r.payer) < r.amount
      then None else
        var l :- MoveFunds(s.ledger, r.payer, r.payee, r.amount);
        Some(s.(ledger := l, recurrings := s.recurrings.Put(id, r.(last := r.last + r.interval))))
  }

  /** None: the record is missing or the next due ledger is not representable. */
  function IsExecutable(c: Ctx, s: State, id: u32): Option<bool> {
    if id !in s.recurrings.recs then None else
      var r := s.recurrings.recs[id];
      if !r.active || r.paused then Some(false)
      else if !FitsU32(r.last + r.interval) then None
      else Some(r.last + r.interval <= c.ledger && r.amount <= Bal(s.ledger.balances, r.payer))
  }

  /** The record of `id`, changed by its payer. */
  function ByPayer(c: Ctx, s: State, caller: Address, id: u32): Option<RecurringRecord> {
    if !c.Signed(caller) || id !in s.recurrings.recs || s.recurrings.recs[id].payer != caller then None
    else Some(s.recurrings.recs[id])
  }

  function Cancel(c: Ctx, s: State, caller: Address, id: u32): Option<State> {
    var r :- ByPayer(c, s, caller, id);
    Some(s.(recurrings := s.recurrings.Put(id, r.(active := false))))
  }

  function SetPaused(c: Ctx, s: State, caller: Address, id: u32, paused: bool): Option<State> {
    var r :- ByPayer(c, s, caller, id);
    Some(s.(recurrings := s.recurrings.Put(id, r.(paused := paused))))
  }

  function Amend(c: Ctx, s: State, caller: Address, id: u32, amount: Option<i128>, interval: Option<u32>)
    : Option<State>
  {
    var r :- ByPayer(c, s, caller, id);
    if !r.active || (amount.Some? && amount.value <= 0) || interval == Some(0) then None else
      var r1 := if amount.Some? then r.(amount := amount.value) else r;
      var r2 := if interval.Some? then r1.(interval := interval.value) else r1;
      Some(s.(recurrings := s.recurrings.Put(id, r2)))
  }

  function TransferPayer(c: Ctx, s: State, was: Address, now: Address, id: u32): Option<State> {
    if !c.Signed(was) || !c.Signed(now) || now == was || id !in s.recurrings.recs then None else
      var r := s.recurrings.recs[id];
      if !r.active || r.payer != was then None
      else Some(s.(recurrings := s.recurrings.Put(id, r.(payer := now))))
  }

  function CancelRest(recs: map<u32, RecurringRecord>, ids: seq<u32>, i: nat): map<u32, RecurringRecord>
    requires i <= |ids|
    requires forall id | id in ids :: id in recs
    decreases |ids| - i
  {
    if i == |ids| then recs
    else CancelRest(recs[ids[i] := recs[ids[i]].(active := false)], ids, i + 1)
  }

  function CancelBatch(c: Ctx, s: State, payer: Address, ids: seq<u32>): Option<State> {
    if || !c.Signed(payer)
       || |ids| > MAX_CANCEL_BATCH
       || exists id | id in ids :: id !in s.recurrings.recs || s.recurrings.recs[id].payer != payer
    then None
    else Some(s.(recurrings := Book(s.recurrings.count, CancelRest(s.recurrings.recs, ids, 0))))
  }
}
