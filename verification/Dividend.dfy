/** dividend.rs on the storage cells: a loop over the holder list that credits as it goes. */
module Dividend {
  import opened Types
  import opened Sums
  import opened BalanceSpec
  import opened Storage
  import opened DividendSpec
  import Invariants
  import DividendLaws
  import TokenLaws
  import Balance

  // ---------- what the loop has done after some of the holders ----------

  function ShareFor(sh: map<Address, int>, a: Address): int {
    if a in sh then sh[a] else 0
  }

  /** The shares of the first n listed addresses. */
  function SharesOf(sh: map<Address, int>, hs: seq<Address>, n: nat): int
    requires n <= |hs|
  {
    if n == 0 then 0 else SharesOf(sh, hs, n - 1) + ShareFor(sh, hs[n - 1])
  }

  function ListedShares(sh: map<Address, int>, hs: seq<Address>): map<Address, int> {
    map a | a in sh && a in hs :: sh[a]
  }

  /** The list has no repetitions, so listed shares are counted once. */
  lemma {:induction false} SharesOfIsSum(sh: map<Address, int>, hs: seq<Address>, n: nat)
    requires NoDup(hs) && n <= |hs|
    ensures SharesOf(sh, hs, n) == Sum(ListedShares(sh, hs[..n]))
  {
    if n == 0 {
      assert ListedShares(sh, hs[..0]) == map[];
    } else {
      SharesOfIsSum(sh, hs, n - 1);
      var h := hs[n - 1];
      assert hs[..n] == hs[..n - 1] + [h];
      assert h !in hs[..n - 1];
      OneMoreShare(sh, hs[..n - 1], h);
    }
  }

  lemma OneMoreShare(sh: map<Address, int>, hs: seq<Address>, h: Address)
    requires h !in hs
    ensures Sum(ListedShares(sh, hs + [h])) == Sum(ListedShares(sh, hs)) + ShareFor(sh, h)
  {
    var before, now := ListedShares(sh, hs), ListedShares(sh, hs + [h]);
    if h in sh {
      assert now == before[h := sh[h]];
      SumUpdate(before, h, sh[h]);
    } else {
      assert now == before;
    }
  }

  lemma {:induction false} SharesOfGrow(sh: map<Address, int>, hs: seq<Address>, n: nat, m: nat)
    requires n <= m <= |hs| && forall a | a in sh :: 0 <= sh[a]
    ensures 0 <= SharesOf(sh, hs, n) <= SharesOf(sh, hs, m)
  {
    if m > 0 {
      SharesOfGrow(sh, hs, if n == m then n - 1 else n, m - 1);
    }
  }

  /** A list that has every entitled address adds up to all shares. */
  lemma AllShares(sh: map<Address, int>, hs: seq<Address>)
    requires NoDup(hs) && forall a | a in sh :: a in hs
    ensures SharesOf(sh, hs, |hs|) == Sum(sh)
  {
    SharesOfIsSum(sh, hs, |hs|);
    assert hs[..|hs|] == hs;
    assert ListedShares(sh, hs) == sh;
  }

  /** The balances once the first n listed addresses have been credited. */
  ghost predicate PaidUpTo(b: Balances, sh: map<Address, int>, hs: seq<Address>, n: nat, now: Balances)
    requires n <= |hs|
  {
    now.Keys == b.Keys && forall a | a in b :: now[a] == b[a] + if a in hs[..n] then ShareFor(sh, a) else 0
  }

  lemma PaidStep(b: Balances, sh: map<Address, int>, hs: seq<Address>, n: nat, now: Balances, next: Balances)
    requires n < |hs| && NoDup(hs) && PaidUpTo(b, sh, hs, n, now) && sh.Keys <= b.Keys
    requires var h := hs[n];
             if ShareFor(sh, h) == 0 then next == now
             else FitsI128(Bal(now, h) + ShareFor(sh, h)) && next == now[h := Bal(now, h) + ShareFor(sh, h)]
    ensures PaidUpTo(b, sh, hs, n + 1, next)
  {
  }

  lemma PaidAll(b: Balances, sh: map<Address, int>, hs: seq<Address>, now: Balances)
    requires PaidUpTo(b, sh, hs, |hs|, now) && sh.Keys <= b.Keys && forall a | a in sh :: a in hs
    ensures Credited(b, sh) == Some(now)
  {
    assert hs[..|hs|] == hs;
    assert forall a | a in sh :: now[a] == b[a] + sh[a];
    var paid: map<Address, int> := map a | a in b :: if a in sh then b[a] + sh[a] else b[a];
    assert paid == now;
  }

  // ---------- the loop ----------

  /** The list has exactly the addresses whose balance was positive before the debit. */
  ghost predicate Covers(hs: seq<Address>, b: Balances, frozen: set<Address>, el: map<Address, int>) {
    && NoDup(hs)
    && forall a :: a in el <==> a in hs && Bal(b, a) > 0 && a !in frozen
  }

  /** Every listed, unfrozen holder is credited its share of what it had when the loop began:
      no repetition in the list means that no credit is seen by a later share. */
  method PayShares(e: Env, frozen: set<Address>, hs: seq<Address>, amount: i128, supply: i128,
                   ghost el: map<Address, int>)
    returns (ok: bool, distributed: i128)
    requires 0 < supply && Covers(hs, e.balances, frozen, el)
    requires forall a | a in el :: a in e.balances && el[a] == e.balances[a]
    requires 0 <= amount ==> HoldersExact(e.holders, e.balances)
    requires var sh := Shares(el, amount, supply);
             && (forall a | a in sh :: 0 <= sh[a])
             && Sum(sh) <= I128_MAX
             && (amount < 0 ==> forall a | a in sh :: sh[a] == 0)
             && (forall a | a in sh :: FitsI128(e.balances[a] + sh[a]))
    modifies e`balances, e`holders
    ensures ok <==> ProductsFit(el, amount)
    ensures ok ==> Credited(old(e.balances), Shares(el, amount, supply)) == Some(e.balances)
    ensures ok ==> distributed == Sum(Shares(el, amount, supply))
    ensures ok && 0 <= amount ==> HoldersExact(e.holders, e.balances)
  {
    hide HoldersExact, Quot, Shares, PaidUpTo, Credited, NoDup;
    ghost var b, sh := e.balances, Shares(el, amount, supply);
    SharesKeys(el, amount, supply);
    AllShares(sh, hs);
    NothingPaid(b, sh, hs);
    distributed := 0;
    for i := 0 to |hs|
      invariant PaidUpTo(b, sh, hs, i, e.balances)
      invariant distributed == SharesOf(sh, hs, i)
      invariant forall k | 0 <= k < i && hs[k] in el :: FitsI128(el[hs[k]] * amount)
      invariant 0 <= amount ==> HoldersExact(e.holders, e.balances)
    {
      ghost var now := e.balances;
      SharesOfGrow(sh, hs, i + 1, |hs|);
      Untouched(b, sh, hs, i, now);
      SharesAt(el, amount, supply, hs[i]);
      var holder := hs[i];
      var balance := Balance.ReadBalance(e, holder);
      if balance > 0 && holder !in frozen {
        if !FitsI128(balance * amount) {
          return false, 0;
        }
        var share := Quot(balance * amount, supply);
        if share > 0 {
          var received := Balance.ReceiveBalance(e, holder, share);
          distributed := distributed + share;
        }
      }
      PaidStep(b, sh, hs, i, now, e.balances);
    }
    PaidAll(b, sh, hs, e.balances);
    ok := true;
    forall a | a in el ensures FitsI128(el[a] * amount) {
      assert a in hs;
    }
  }

  lemma NothingPaid(b: Balances, sh: map<Address, int>, hs: seq<Address>)
    ensures PaidUpTo(b, sh, hs, 0, b)
  {
  }

  lemma SharesKeys(el: map<Address, int>, amount: int, supply: int)
    requires supply > 0
    ensures Shares(el, amount, supply).Keys == el.Keys
  {
  }

  lemma SharesAt(el: map<Address, int>, amount: int, supply: int, a: Address)
    requires supply > 0
    ensures ShareFor(Shares(el, amount, supply), a) == if a in el then ShareOf(el[a], amount, supply) else 0
  {
  }

  /** The next listed holder still has what it had at the start. */
  lemma Untouched(b: Balances, sh: map<Address, int>, hs: seq<Address>, n: nat, now: Balances)
    requires n < |hs| && NoDup(hs) && PaidUpTo(b, sh, hs, n, now)
    ensures Bal(now, hs[n]) == Bal(b, hs[n])
  {
  }

  /** The holder list after the debit covers exactly the eligible holders. */
  lemma ListCovers(c: Ctx, s: State, before: seq<Address>, admin: Address, amount: i128, after: seq<Address>)
    requires HoldersExact(before, s.ledger.balances) && Debit(s.ledger.balances, admin, amount).Some?
    requires var b := Debit(s.ledger.balances, admin, amount).value;
             if 0 <= amount then HoldersExact(after, b) else after == before
    ensures var b := Debit(s.ledger.balances, admin, amount).value;
            var el := Eligible(b, Excluded(c, s.ledger, admin));
            && Covers(after, b, c.frozen, el)
            && forall a | a in el :: a in b && el[a] == b[a]
  {
  }

  /** Admin debit, payout loop, remainder. With a negative amount the debit credits the admin,
      nobody is paid, and the holder list may miss the admin. */
  method PayDividend(e: Env, c: Ctx, admin: Address, amount: i128) returns (ok: bool)
    requires e.Valid() && c.IsAdmin(admin)
    modifies e`balances, e`holders
    ensures ok <==> Distribute(c, old(e.Core()), admin, amount).Some?
    ensures ok ==> e.balances == Distribute(c, old(e.Core()), admin, amount).value.ledger.balances
    ensures ok && 0 <= amount ==> HoldersExact(e.holders, e.balances)
  {
    hide Invariants.Sound, HoldersExact, AllowancesIndexed, DepositorsIndexed, DisputesIndexed, SplitsIndexed;
    hide PayersIndexed;
    hide ProductsFit, Credited, Eligible, Shares, Excluded, Covers;
    ghost var s := e.Core();
    TokenLaws.SupplyNonNegative(s);
    if e.totalSupply == 0 {
      return false;
    }
    var pool := Balance.ReadBalance(e, admin);
    if pool < amount {
      return false;
    }
    ok := Balance.SpendBalance(e, admin, amount);
    if !ok {
      return false;
    }
    ghost var el := Eligible(e.balances, Excluded(c, s.ledger, admin));
    var holders := e.holders;
    ListCovers(c, s, old(e.holders), admin, amount, holders);
    DividendLaws.LoopReady(c, s, admin, amount);
    var paid, distributed := PayShares(e, c.frozen, holders, amount, e.totalSupply, el);
    if !paid || !FitsI128(amount - distributed) {
      return false;
    }
    var remainder := amount - distributed;
    if remainder > 0 {
      DividendLaws.RemainderPositive(c, s, admin, amount);
      ok := Balance.ReceiveBalance(e, admin, remainder);
    }
  }

  lemma OnlyBalances(c: Ctx, s: State, admin: Address, amount: i128)
    requires Distribute(c, s, admin, amount).Some?
    ensures var t := Distribute(c, s, admin, amount).value;
            t == s.(ledger := s.ledger.(balances := t.ledger.balances))
  {
  }

  method DistributeDividend(e: Env, c: Ctx, admin: Address, amount: i128) returns (ok: bool)
    requires e.Valid() && c.Genuine()
    modifies e`balances, e`holders
    ensures ok <==> Distribute(c, old(e.Core()), admin, amount).Some?
    ensures ok ==> e.Core() == Distribute(c, old(e.Core()), admin, amount).value
    ensures ok && 0 <= amount ==> e.Valid()
  {
    hide Invariants.Sound, HoldersExact, AllowancesIndexed, DepositorsIndexed, DisputesIndexed, SplitsIndexed;
    hide PayersIndexed;
    hide Distribute;
    ghost var s := e.Core();
    if !c.IsAdmin(admin) {
      OnlyAdmins(c, s, admin, amount);
      return false;
    }
    ok := PayDividend(e, c, admin, amount);
    if ok {
      OnlyBalances(c, s, admin, amount);
      if 0 <= amount {
        DividendLaws.DividendSound(c, s, admin, amount);
      }
    }
  }

  lemma OnlyAdmins(c: Ctx, s: State, admin: Address, amount: i128)
    ensures Distribute(c, s, admin, amount).Some? ==> c.IsAdmin(admin)
  {
  }
}
