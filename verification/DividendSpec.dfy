/** dividend.rs: a pro-rata payout over all holders. */
module DividendSpec {
  import opened Types
  import opened Sums
  import opened BalanceSpec

  /** The holders a dividend counts: a positive balance and not frozen. */
  function Eligible(b: Balances, frozen: set<Address>): map<Address, int> {
    map a | a in b && b[a] > 0 && a !in frozen :: b[a] as int
  }

  /** The share of one holding, rounded toward zero; a share that is not positive is not paid. */
  function ShareOf(holding: int, amount: int, supply: int): int
    requires supply > 0
  {
    var q := Quot(holding * amount, supply);
    if q > 0 then q else 0
  }

  function Shares(eligible: map<Address, int>, amount: int, supply: int): map<Address, int>
    requires supply > 0
  {
    map a | a in eligible :: ShareOf(eligible[a], amount, supply)
  }

  /** No holding times the amount leaves the representable range. */
  predicate ProductsFit(el: map<Address, int>, amount: int) {
    forall a | a in el :: FitsI128(el[a] * amount)
  }

  /** All holders are credited at once. */
  ghost function Credited(b: Balances, shares: map<Address, int>): Option<Balances>
    requires shares.Keys <= b.Keys
  {
    if exists a | a in shares :: !FitsI128(b[a] + shares[a]) then None
    else Some(map a | a in b :: if a in shares then b[a] + shares[a] else b[a])
  }

  /** Who gets no share: the frozen, and an admin who is not on the holder list because it had
      nothing when the dividend was called. */
  function Excluded(c: Ctx, l: Ledger, admin: Address): set<Address> {
    if Bal(l.balances, admin) > 0 then c.frozen else c.frozen + {admin}
  }

  ghost function Distribute(c: Ctx, s: State, admin: Address, amount: i128): Option<State> {
    var S := s.ledger.supply;
    if !c.IsAdmin(admin) || S <= 0 then None else
      var b :- Debit(s.ledger.balances, admin, amount);
      var el := Eligible(b, Excluded(c, s.ledger, admin));
      var sh := Shares(el, amount, S);
      if !ProductsFit(el, amount) then None else
        var paid :- Credited(b, sh);
        var rest := amount - Sum(sh);
        if !FitsI128(rest) then None
        else if rest <= 0 then Some(s.(ledger := s.ledger.(balances := paid)))
        else
          var final :- Credit(paid, admin, rest);
          Some(s.(ledger := s.ledger.(balances := final)))
  }
}
