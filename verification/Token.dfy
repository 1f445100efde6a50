/** contract.rs on the storage cells: mint, burn, clawback and transfers. */
module Token {
  import opened Types
  import opened Storage
  import Invariants
  import AllowanceSpec
  import TokenSpec
  import TokenLaws
  import Allowances
  import Balance

  method Mint(e: Env, c: Ctx, admin: Address, to: Address, amount: i128) returns (ok: bool)
    requires e.Valid()
    modifies e`balances, e`holders, e`totalSupply
    ensures ok <==> TokenSpec.Mint(c, old(e.Core()), admin, to, amount).Some?
    ensures ok ==> e.Valid() && e.Core() == TokenSpec.Mint(c, old(e.Core()), admin, to, amount).value
  {
    hide Invariants.Sound, Indexed;
    ghost var s := e.Core();
    if to == Contract || !c.IsAdmin(admin) || c.paused || amount <= 0 {
      return false;
    }
    ok := Balance.MintFunds(e, to, amount);
    TokenLaws.MintSound(c, s, admin, to, amount);
  }

  method Burn(e: Env, c: Ctx, from: Address, amount: i128) returns (ok: bool)
    requires e.Valid() && c.Genuine()
    modifies e`balances, e`holders, e`totalSupply
    ensures ok <==> TokenSpec.Burn(c, old(e.Core()), from, amount).Some?
    ensures ok ==> e.Valid() && e.Core() == TokenSpec.Burn(c, old(e.Core()), from, amount).value
  {
    hide Invariants.Sound, Indexed;
    ghost var s := e.Core();
    if !c.Signed(from) || c.paused || amount <= 0 {
      return false;
    }
    ok := Balance.BurnFunds(e, from, amount);
    TokenLaws.BurnSound(c, s, from, amount);
  }

  /** The allowance is spent, then the tokens are burnt. */
  method BurnApproved(e: Env, c: Ctx, spender: Address, from: Address, amount: i128) returns (ok: bool)
    requires e.Valid() && 0 < amount
    modifies e`balances, e`holders, e`totalSupply, e`allowance, e`spenderAllowances, e`ownerAllowances
    ensures ok <==> TokenSpec.BurnApproved(c, old(e.Core()), spender, from, amount).Some?
    ensures ok ==> e.Valid() && e.Core() == TokenSpec.BurnApproved(c, old(e.Core()), spender, from, amount).value
  {
    hide Invariants.Sound, Indexed;
    hide AllowanceSpec.Spend;
    ghost var s := e.Core();
    ok := Allowances.SpendApproval(e, c.ledger, from, spender, amount);
    if !ok {
      return false;
    }
    ok := Balance.BurnFunds(e, from, amount);
    TokenLaws.BurnApprovedSound(c, s, spender, from, amount);
  }

  method BurnFrom(e: Env, c: Ctx, spender: Address, from: Address, amount: i128) returns (ok: bool)
    requires e.Valid()
    modifies e`balances, e`holders, e`totalSupply, e`allowance, e`spenderAllowances, e`ownerAllowances
    ensures ok <==> TokenSpec.BurnFrom(c, old(e.Core()), spender, from, amount).Some?
    ensures ok ==> e.Valid() && e.Core() == TokenSpec.BurnFrom(c, old(e.Core()), spender, from, amount).value
  {
    hide Invariants.Sound, Indexed;
    if !c.Signed(spender) || from in c.frozen || c.paused || amount <= 0 {
      return false;
    }
    ok := BurnApproved(e, c, spender, from, amount);
  }

  method Clawback(e: Env, c: Ctx, admin: Address, from: Address, amount: i128) returns (ok: bool)
    requires e.Valid()
    modifies e`balances, e`holders, e`totalSupply
    ensures ok <==> TokenSpec.Clawback(c, old(e.Core()), admin, from, amount).Some?
    ensures ok ==> e.Valid() && e.Core() == TokenSpec.Clawback(c, old(e.Core()), admin, from, amount).value
  {
    hide Invariants.Sound, Indexed;
    ghost var s := e.Core();
    if !c.IsAdmin(admin) || from == Contract || !c.CosignerAgrees() || amount <= 0 {
      return false;
    }
    ok := Balance.BurnFunds(e, from, amount);
    TokenLaws.ClawbackSound(c, s, admin, from, amount);
  }

  method TransferWithMemo(e: Env, c: Ctx, from: Address, to: Address, amount: i128) returns (ok: bool)
    requires e.Valid() && c.Genuine()
    modifies e`balances, e`holders
    ensures ok <==> TokenSpec.TransferWithMemo(c, old(e.Core()), from, to, amount).Some?
    ensures ok ==> e.Valid() && e.Core() == TokenSpec.TransferWithMemo(c, old(e.Core()), from, to, amount).value
  {
    hide Invariants.Sound, Indexed;
    ghost var s := e.Core();
    if !c.Signed(from) || c.paused || from in c.frozen || amount <= 0 {
      return false;
    }
    ok := Balance.MoveFunds(e, from, to, amount);
    TokenLaws.TransferSound(c, s, from, to, amount);
  }

  method Transfer(e: Env, c: Ctx, from: Address, to: Address, amount: i128) returns (ok: bool)
    requires e.Valid() && c.Genuine()
    modifies e`balances, e`holders
    ensures ok <==> TokenSpec.Transfer(c, old(e.Core()), from, to, amount).Some?
    ensures ok ==> e.Valid() && e.Core() == TokenSpec.Transfer(c, old(e.Core()), from, to, amount).value
  {
    hide Invariants.Sound, Indexed;
    if to == Contract {
      return false;
    }
    ok := TransferWithMemo(e, c, from, to, amount);
  }

  method TransferFrom(e: Env, c: Ctx, spender: Address, from: Address, to: Address, amount: i128) returns (ok: bool)
    requires e.Valid()
    modifies e`balances, e`holders, e`allowance, e`spenderAllowances, e`ownerAllowances
    ensures ok <==> TokenSpec.TransferFrom(c, old(e.Core()), spender, from, to, amount).Some?
    ensures ok ==> e.Valid() && e.Core() == TokenSpec.TransferFrom(c, old(e.Core()), spender, from, to, amount).value
  {
    hide Invariants.Sound, Indexed;
    hide AllowanceSpec.Spend, AllowanceSpec.Validates;
    ghost var s := e.Core();
    if to == Contract || !c.Signed(spender) || c.paused || from in c.frozen || amount <= 0 {
      return false;
    }
    ok := Allowances.ValidateAllowance(e, c.ledger, from, spender, amount);
    if !ok {
      return false;
    }
    ok := Allowances.SpendApproval(e, c.ledger, from, spender, amount);
    if !ok {
      return false;
    }
    ok := Balance.MoveFunds(e, from, to, amount);
    TokenLaws.TransferFromSound(c, s, spender, from, to, amount);
  }

  method SetMaxSupply(e: Env, c: Ctx, admin: Address, newMax: i128) returns (ok: bool)
    requires e.Valid()
    modifies e`maxSupply
    ensures ok <==> TokenSpec.SetCap(c, old(e.Core()), admin, newMax).Some?
    ensures ok ==> e.Valid() && e.Core() == TokenSpec.SetCap(c, old(e.Core()), admin, newMax).value
  {
    hide Invariants.Sound, HoldersExact, AllowancesIndexed, DepositorsIndexed, DisputesIndexed, SplitsIndexed;
    hide PayersIndexed;
    ghost var s := e.Core();
    if !c.IsAdmin(admin) || newMax < e.totalSupply || (e.maxSupply > 0 && newMax > e.maxSupply) {
      return false;
    }
    e.maxSupply := newMax;
    TokenLaws.SetCapSound(c, s, admin, newMax);
    return true;
  }
}
