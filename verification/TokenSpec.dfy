/** contract.rs: the entry points that move, create or destroy tokens. */
module TokenSpec {
  import opened Types
  import opened BalanceSpec
  import AllowanceSpec

  function WithLedger(s: State, l: Option<Ledger>): Option<State> {
    var l' :- l;
    Some(s.(ledger := l'))
  }

  function Mint(c: Ctx, s: State, admin: Address, to: Address, amount: i128): Option<State> {
    if to == Contract || !c.IsAdmin(admin) || c.paused || amount <= 0 then None
    else WithLedger(s, MintTo(s.ledger, to, amount))
  }

  function Burn(c: Ctx, s: State, from: Address, amount: i128): Option<State> {
    if !c.Signed(from) || c.paused || amount <= 0 then None
    else WithLedger(s, BurnOf(s.ledger, from, amount))
  }

  /** An approved burn: the allowance is used up by what is burnt. */
  function BurnApproved(c: Ctx, s: State, spender: Address, from: Address, amount: i128): Option<State> {
    var al :- AllowanceSpec.Spend(s.allowances, c.ledger, from, spender, amount);
    WithLedger(s.(allowances := al), BurnOf(s.ledger, from, amount))
  }

  function BurnFrom(c: Ctx, s: State, spender: Address, from: Address, amount: i128): Option<State> {
    if !c.Signed(spender) || from in c.frozen || c.paused || amount <= 0 then None
    else BurnApproved(c, s, spender, from, amount)
  }

  function Clawback(c: Ctx, s: State, admin: Address, from: Address, amount: i128): Option<State> {
    if !c.IsAdmin(admin) || from == Contract || !c.CosignerAgrees() || amount <= 0 then None
    else WithLedger(s, BurnOf(s.ledger, from, amount))
  }

  function TransferWithMemo(c: Ctx, s: State, from: Address, to: Address, amount: i128): Option<State> {
    if !c.Signed(from) || c.paused || from in c.frozen || amount <= 0 then None
    else WithLedger(s, MoveFunds(s.ledger, from, to, amount))
  }

  function Transfer(c: Ctx, s: State, from: Address, to: Address, amount: i128): Option<State> {
    if to == Contract then None else TransferWithMemo(c, s, from, to, amount)
  }

  function TransferFrom(c: Ctx, s: State, spender: Address, from: Address, to: Address, amount: i128): Option<State> {
    if || to == Contract || !c.Signed(spender) || c.paused || from in c.frozen || amount <= 0
       || !AllowanceSpec.Validates(s.allowances, c.ledger, from, spender, amount)
    then None else
      var al :- AllowanceSpec.Spend(s.allowances, c.ledger, from, spender, amount);
      WithLedger(s.(allowances := al), MoveFunds(s.ledger, from, to, amount))
  }

  function SetCap(c: Ctx, s: State, admin: Address, newMax: i128): Option<State> {
    if !c.IsAdmin(admin) then None else WithLedger(s, SetMaxSupply(s.ledger, newMax))
  }
}
