/** dispute.rs without the escrow pointer, the open list and the history lists. */
module DisputeSpec {
  import opened Types
  import opened BalanceSpec
  import opened EscrowSpec

  const MAX_EVIDENCE := 128

  /** Funds leave custody for the party the outcome names. */
  function SettleByOutcome(s: State, id: u32, toBeneficiary: bool): Option<State> {
    if id !in s.escrows.recs then None else
      var e := s.escrows.recs[id];
      if e.Settled() then None
      else if toBeneficiary then Pay(s, id, e.(released := true), e.beneficiary)
      else Pay(s, id, e.(refunded := true), e.depositor)
  }

  function OpenDispute(c: Ctx, s: State, claimant: Address, id: u32, resolver: Address, evidence: nat, expiry: u32)
    : Option<State>
  {
    if evidence > MAX_EVIDENCE || expiry <= c.ledger || id !in s.escrows.recs then None else
      var e := s.escrows.recs[id];
      if || e.Settled()
         || (claimant != e.depositor && claimant != e.beneficiary)
         || resolver in {claimant, e.depositor, e.beneficiary}
         || HasOpenDispute(s.disputes, id)
         || !c.Signed(claimant)
         || s.disputes.count == U32_MAX
      then None
      else Some(s.(disputes := s.disputes.Add(DisputeRecord(s.disputes.count + 1, id, claimant, resolver, Open,
                                                            c.ledger, expiry, None))))
  }

  /** An Open dispute is closed with `status` once its escrow has been settled. */
  function Close(s: State, id: u32, toBeneficiary: bool, status: DisputeStatus): Option<State>
    requires id in s.disputes.recs
  {
    var d := s.disputes.recs[id];
    var t :- SettleByOutcome(s, d.escrowId, toBeneficiary);
    Some(t.(disputes := t.disputes.Put(id, d.(status := status))))
  }

  function Resolve(c: Ctx, s: State, resolver: Address, id: u32, toBeneficiary: bool): Option<State> {
    if !c.Signed(resolver) || id !in s.disputes.recs then None else
      var d := s.disputes.recs[id];
      if d.status != Open || d.resolver != resolver then None
      else Close(s, id, toBeneficiary, if toBeneficiary then ResolvedForBeneficiary else ResolvedForDepositor)
  }

  function Expire(c: Ctx, s: State, id: u32): Option<State> {
    if id !in s.disputes.recs then None else
      var d := s.disputes.recs[id];
      if d.status != Open || c.ledger < d.expiry then None else Close(s, id, false, Expired)
  }

  function Appeal(c: Ctx, s: State, caller: Address, id: u32, appealResolver: Address): Option<State> {
    if id !in s.disputes.recs then None else
      var d := s.disputes.recs[id];
      if || d.status !in {ResolvedForBeneficiary, ResolvedForDepositor}
         || d.claimant != caller
         || !c.Signed(caller)
         || appealResolver == d.claimant
         || appealResolver == d.resolver
      then None
      else Some(s.(disputes := s.disputes.Put(id, d.(status := Appealed, appealResolver := Some(appealResolver)))))
  }

  function ResolveAppeal(c: Ctx, s: State, resolver: Address, id: u32, overturn: bool): Option<State> {
    if id !in s.disputes.recs then None else
      var d := s.disputes.recs[id];
      if || d.status != Appealed
         || d.appealResolver != Some(resolver)
         || !c.Signed(resolver)
         || d.escrowId !in s.escrows.recs
      then None
      else if !overturn then Some(s.(disputes := s.disputes.Put(id, d.(appealResolver := None))))
      else Overturn(s, id)
  }

  /** The settled amount moves to the other party, and flags and status follow it. */
  function Overturn(s: State, id: u32): Option<State>
    requires id in s.disputes.recs && s.disputes.recs[id].escrowId in s.escrows.recs
  {
    var d := s.disputes.recs[id];
    var e := s.escrows.recs[d.escrowId];
    var (payer, payee, status) := if e.released
                                  then (e.beneficiary, e.depositor, ResolvedForDepositor)
                                  else (e.depositor, e.beneficiary, ResolvedForBeneficiary);
    var l :- MoveFunds(s.ledger, payer, payee, e.amount);
    Some(s.(ledger := l,
            escrows := s.escrows.Put(d.escrowId, e.(released := !e.released, refunded := e.released)),
            disputes := s.disputes.Put(id, d.(status := status, appealResolver := None))))
  }
}
