/** escrow.rs without its depositor index. */
module EscrowSpec {
  import opened Types
  import opened BalanceSpec

  predicate HasOpenDispute(ds: Book<DisputeRecord>, escrowId: int) {
    exists d | d in ds.recs :: ds.recs[d].status == Open && ds.recs[d].escrowId == escrowId
  }

  function Create(c: Ctx, s: State, depositor: Address, beneficiary: Address, amount: i128, expiry: u32)
    : Option<State>
  {
    if amount <= 0 || expiry < c.ledger || depositor == beneficiary || !c.Signed(depositor) then None else
      var l :- MoveFunds(s.ledger, depositor, Contract, amount);
      if s.escrows.count == U32_MAX then None else
        Some(s.(ledger := l,
                escrows := s.escrows.Add(EscrowRecord(s.escrows.count + 1, depositor, beneficiary, amount,
                                                      false, false, expiry))))
  }

  /** The record is written back as `settled` and its amount leaves custody for `to`. */
  function Pay(s: State, id: u32, settled: EscrowRecord, to: Address): Option<State> {
    var l :- MoveFunds(s.ledger, Contract, to, settled.amount);
    Some(s.(ledger := l, escrows := s.escrows.Put(id, settled)))
  }

  function Release(c: Ctx, s: State, caller: Address, id: u32): Option<State> {
    if !c.Signed(caller) || id !in s.escrows.recs then None else
      var e := s.escrows.recs[id];
      if e.beneficiary != caller || e.Settled() then None
      else Pay(s, id, e.(released := true), e.beneficiary)
  }

  function Refund(c: Ctx, s: State, caller: Address, id: u32): Option<State> {
    if id !in s.escrows.recs || HasOpenDispute(s.disputes, id) then None else
      var e := s.escrows.recs[id];
      if (e.depositor != caller && c.ledger <= e.expiry) || e.Settled() || !c.Signed(caller) then None
      else Pay(s, id, e.(refunded := true), e.depositor)
  }

  function Topup(c: Ctx, s: State, depositor: Address, id: u32, amount: i128): Option<State> {
    if !c.Signed(depositor) || amount <= 0 || HasOpenDispute(s.disputes, id) || id !in s.escrows.recs then None else
      var e := s.escrows.recs[id];
      if e.Settled() || e.depositor != depositor then None else
        var l :- MoveFunds(s.ledger, depositor, Contract, amount);
        if !FitsI128(e.amount + amount) then None
        else Some(s.(ledger := l, escrows := s.escrows.Put(id, e.(amount := e.amount + amount))))
  }

  function AdminSettle(c: Ctx, s: State, admin: Address, id: u32, recipient: Address): Option<State> {
    if !c.IsAdmin(admin) || id !in s.escrows.recs then None else
      var e := s.escrows.recs[id];
      if e.Settled() then None else Pay(s, id, e.(released := true), recipient)
  }
}
