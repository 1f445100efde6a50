/** balance.rs on the storage cells: balances with their holder list, and the supply. */
module Balance {
  import opened Types
  import opened Sums
  import opened BalanceSpec
  import opened Storage

  method ReadBalance(e: Env, a: Address) returns (b: i128)
    ensures b == Bal(e.balances, a)
  {
    b := if a in e.balances then e.balances[a] else 0;
  }

  /** Run after a balance has become positive or zero: the list gains or loses the address. */
  method UpdateHolderSet(e: Env, a: Address)
    modifies e`holders
    ensures e.holders == if Bal(e.balances, a) > 0 then With(old(e.holders), a) else Without(old(e.holders), a)
  {
    var balance := ReadBalance(e, a);
    if balance > 0 {
      var listed := Contains(e.holders, a);
      if !listed {
        e.holders := e.holders + [a];
      }
    } else {
      e.holders := Filter(e.holders, a);
    }
  }

  /** The list stays exact although it is only touched when the balance was zero. */
  method ReceiveBalance(e: Env, a: Address, amount: i128) returns (ok: bool)
    requires HoldersExact(e.holders, e.balances)
    modifies e`balances, e`holders
    ensures ok <==> Credit(old(e.balances), a, amount).Some?
    ensures ok ==> e.balances == Credit(old(e.balances), a, amount).value
    ensures ok && 0 <= amount ==> HoldersExact(e.holders, e.balances)
  {
    var current := ReadBalance(e, a);
    if !FitsI128(current + amount) {
      return false;
    }
    WithoutFacts(e.holders, a);
    e.balances := e.balances[a := current + amount];
    if current == 0 {
      UpdateHolderSet(e, a);
    }
    return true;
  }

  /** The list stays exact although it is only touched when the balance becomes zero. */
  method SpendBalance(e: Env, a: Address, amount: i128) returns (ok: bool)
    requires HoldersExact(e.holders, e.balances)
    modifies e`balances, e`holders
    ensures ok <==> Debit(old(e.balances), a, amount).Some?
    ensures ok ==> e.balances == Debit(old(e.balances), a, amount).value
    ensures ok && 0 <= amount ==> HoldersExact(e.holders, e.balances)
    ensures ok && amount < 0 ==> e.holders == old(e.holders)
  {
    var current := ReadBalance(e, a);
    if current < amount || !FitsI128(current - amount) {
      return false;
    }
    WithoutFacts(e.holders, a);
    e.balances := e.balances[a := current - amount];
    if current - amount == 0 {
      UpdateHolderSet(e, a);
    }
    return true;
  }

  /** Spend, then receive: the pair by which every operation moves funds. */
  method MoveBalance(e: Env, from: Address, to: Address, amount: i128) returns (ok: bool)
    requires HoldersExact(e.holders, e.balances) && 0 <= amount
    modifies e`balances, e`holders
    ensures ok <==> Move(old(e.balances), from, to, amount).Some?
    ensures ok ==> e.balances == Move(old(e.balances), from, to, amount).value
    ensures ok ==> HoldersExact(e.holders, e.balances)
  {
    ok := SpendBalance(e, from, amount);
    if ok {
      ok := ReceiveBalance(e, to, amount);
    }
  }

  method IncreaseSupply(e: Env, amount: i128) returns (ok: bool)
    modifies e`totalSupply
    ensures var l := Ledger(e.balances, old(e.totalSupply), e.maxSupply);
            (ok <==> BalanceSpec.IncreaseSupply(l, amount).Some?)
            && (ok ==> e.totalSupply == BalanceSpec.IncreaseSupply(l, amount).value.supply)
  {
    if !FitsI128(e.totalSupply + amount) {
      return false;
    }
    var next := e.totalSupply + amount;
    if e.maxSupply > 0 && next > e.maxSupply {
      return false;
    }
    e.totalSupply := next;
    return true;
  }

  method DecreaseSupply(e: Env, amount: i128) returns (ok: bool)
    modifies e`totalSupply
    ensures var l := Ledger(e.balances, old(e.totalSupply), e.maxSupply);
            (ok <==> BalanceSpec.DecreaseSupply(l, amount).Some?)
            && (ok ==> e.totalSupply == BalanceSpec.DecreaseSupply(l, amount).value.supply)
  {
    if e.totalSupply < amount || !FitsI128(e.totalSupply - amount) {
      return false;
    }
    e.totalSupply := e.totalSupply - amount;
    return true;
  }

  /** Credit first, supply and cap second, as every mint does. */
  method MintBalance(e: Env, to: Address, amount: i128) returns (ok: bool)
    requires HoldersExact(e.holders, e.balances) && 0 <= amount
    modifies e`balances, e`holders, e`totalSupply
    ensures ok <==> MintTo(old(e.Core().ledger), to, amount).Some?
    ensures ok ==> e.Core().ledger == MintTo(old(e.Core().ledger), to, amount).value
    ensures ok ==> HoldersExact(e.holders, e.balances)
  {
    ok := ReceiveBalance(e, to, amount);
    if ok {
      ok := IncreaseSupply(e, amount);
    }
  }

  method BurnBalance(e: Env, from: Address, amount: i128) returns (ok: bool)
    requires HoldersExact(e.holders, e.balances) && 0 <= amount
    modifies e`balances, e`holders, e`totalSupply
    ensures ok <==> BurnOf(old(e.Core().ledger), from, amount).Some?
    ensures ok ==> e.Core().ledger == BurnOf(old(e.Core().ledger), from, amount).value
    ensures ok ==> HoldersExact(e.holders, e.balances)
  {
    ok := SpendBalance(e, from, amount);
    if ok {
      ok := DecreaseSupply(e, amount);
    }
  }

  // ---------- seen from the whole storage: the indexes stay exact ----------

  method MoveFunds(e: Env, from: Address, to: Address, amount: i128) returns (ok: bool)
    requires Indexed(e.Core(), e.Lookup()) && 0 <= amount
    modifies e`balances, e`holders
    ensures ok <==> BalanceSpec.MoveFunds(old(e.Core()).ledger, from, to, amount).Some?
    ensures ok ==> Indexed(e.Core(), e.Lookup())
    ensures ok ==> e.Core() == old(e.Core()).(ledger := BalanceSpec.MoveFunds(old(e.Core()).ledger, from, to, amount).value)
  {
    hide HoldersExact, AllowancesIndexed, DepositorsIndexed, DisputesIndexed, SplitsIndexed, PayersIndexed;
    ok := MoveBalance(e, from, to, amount);
  }

  method MintFunds(e: Env, to: Address, amount: i128) returns (ok: bool)
    requires Indexed(e.Core(), e.Lookup()) && 0 <= amount
    modifies e`balances, e`holders, e`totalSupply
    ensures ok <==> MintTo(old(e.Core()).ledger, to, amount).Some?
    ensures ok ==> Indexed(e.Core(), e.Lookup())
    ensures ok ==> e.Core() == old(e.Core()).(ledger := MintTo(old(e.Core()).ledger, to, amount).value)
  {
    hide HoldersExact, AllowancesIndexed, DepositorsIndexed, DisputesIndexed, SplitsIndexed, PayersIndexed, MintTo;
    ok := MintBalance(e, to, amount);
  }

  method BurnFunds(e: Env, from: Address, amount: i128) returns (ok: bool)
    requires Indexed(e.Core(), e.Lookup()) && 0 <= amount
    modifies e`balances, e`holders, e`totalSupply
    ensures ok <==> BurnOf(old(e.Core()).ledger, from, amount).Some?
    ensures ok ==> Indexed(e.Core(), e.Lookup())
    ensures ok ==> e.Core() == old(e.Core()).(ledger := BurnOf(old(e.Core()).ledger, from, amount).value)
  {
    hide HoldersExact, AllowancesIndexed, DepositorsIndexed, DisputesIndexed, SplitsIndexed, PayersIndexed, BurnOf;
    ok := BurnBalance(e, from, amount);
  }
}
