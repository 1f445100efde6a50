/** balance.rs: balances, supply, the supply cap. */
module BalanceSpec {
  import opened Types
  import opened Sums

  // ---------- the ledger operations ----------

  function Bal(b: Balances, a: Address): i128 {
    if a in b then b[a] else 0
  }

  function Credit(b: Balances, a: Address, amount: i128): Option<Balances> {
    if FitsI128(Bal(b, a) + amount) then Some(b[a := Bal(b, a) + amount]) else None
  }

  function Debit(b: Balances, a: Address, amount: i128): Option<Balances> {
    if Bal(b, a) < amount || !FitsI128(Bal(b, a) - amount) then None
    else Some(b[a := Bal(b, a) - amount])
  }

  function Move(b: Balances, from: Address, to: Address, amount: i128): Option<Balances> {
    var spent :- Debit(b, from, amount);
    Credit(spent, to, amount)
  }

  function IncreaseSupply(l: Ledger, amount: i128): Option<Ledger> {
    if !FitsI128(l.supply + amount) || (l.cap > 0 && l.supply + amount > l.cap) then None
    else Some(l.(supply := l.supply + amount))
  }

  function DecreaseSupply(l: Ledger, amount: i128): Option<Ledger> {
    if l.supply < amount || !FitsI128(l.supply - amount) then None
    else Some(l.(supply := l.supply - amount))
  }

  function MintTo(l: Ledger, to: Address, amount: i128): Option<Ledger> {
    var b :- Credit(l.balances, to, amount);
    IncreaseSupply(l.(balances := b), amount)
  }

  function BurnOf(l: Ledger, from: Address, amount: i128): Option<Ledger> {
    var b :- Debit(l.balances, from, amount);
    DecreaseSupply(l.(balances := b), amount)
  }

  function MoveFunds(l: Ledger, from: Address, to: Address, amount: i128): Option<Ledger> {
    var b :- Move(l.balances, from, to, amount);
    Some(l.(balances := b))
  }

  function SetMaxSupply(l: Ledger, newMax: i128): Option<Ledger> {
    if newMax < l.supply || (l.cap > 0 && newMax > l.cap) then None
    else Some(l.(cap := newMax))
  }

  // ---------- what the ledger keeps ----------

  ghost predicate NonNegative(b: Balances) {
    forall a | a in b :: 0 <= b[a]
  }

  /** Balances are non-negative and sum to the supply, which respects a positive cap. */
  ghost predicate Conserved(l: Ledger) {
    && NonNegative(l.balances)
    && Sum(l.balances) == l.supply
    && (l.cap > 0 ==> l.supply <= l.cap)
  }

  /** `m` is `l` after exactly this payment: nobody else is affected and the supply stays. */
  ghost predicate Moved(l: Ledger, from: Address, to: Address, amount: int, m: Ledger) {
    && m.supply == l.supply && m.cap == l.cap
    && forall a :: Bal(m.balances, a) == Bal(l.balances, a) - (if a == from then amount else 0)
                                                           + (if a == to then amount else 0)
  }

  ghost predicate Minted(l: Ledger, to: Address, amount: int, m: Ledger) {
    && m.supply == l.supply + amount && m.cap == l.cap
    && forall a :: Bal(m.balances, a) == Bal(l.balances, a) + (if a == to then amount else 0)
  }

  ghost predicate Burnt(l: Ledger, from: Address, amount: int, m: Ledger) {
    && m.supply == l.supply - amount && m.cap == l.cap
    && forall a :: Bal(m.balances, a) == Bal(l.balances, a) - (if a == from then amount else 0)
  }

  /** No balance, and no two balances together, exceed the supply. */
  lemma BalanceBounds(l: Ledger, a: Address, c: Address)
    requires Conserved(l)
    ensures 0 <= Bal(l.balances, a) <= l.supply
    ensures a != c ==> Bal(l.balances, a) + Bal(l.balances, c) <= l.supply
    ensures l.cap > 0 ==> Bal(l.balances, a) <= l.cap
  {
    SumCovers(l.balances);
  }

  lemma DebitFacts(b: Balances, a: Address, amount: i128)
    requires NonNegative(b) && 0 <= amount
    ensures Debit(b, a, amount).Some? <==> amount <= Bal(b, a)
    ensures Debit(b, a, amount).Some? ==>
              var b' := Debit(b, a, amount).value;
              && NonNegative(b') && Sum(b') == Sum(b) - amount
              && forall x :: Bal(b', x) == Bal(b, x) - (if x == a then amount else 0)
  {
    if amount <= Bal(b, a) {
      SumUpdate(b, a, Bal(b, a) - amount);
    }
  }

  lemma BalanceInSum(b: Balances, a: Address)
    requires NonNegative(b)
    ensures 0 <= Bal(b, a) <= Sum(b)
  {
    SumCovers(b);
  }

  lemma CreditFacts(b: Balances, a: Address, amount: i128)
    requires NonNegative(b) && 0 <= amount
    ensures Sum(b) + amount <= I128_MAX ==> Credit(b, a, amount).Some?
    ensures Credit(b, a, amount).Some? ==>
              var b' := Credit(b, a, amount).value;
              && NonNegative(b') && Sum(b') == Sum(b) + amount
              && forall x :: Bal(b', x) == Bal(b, x) + (if x == a then amount else 0)
  {
    BalanceInSum(b, a);
    if FitsI128(Bal(b, a) + amount) {
      SumUpdate(b, a, Bal(b, a) + amount);
    }
  }

  lemma MoveFacts(b: Balances, from: Address, to: Address, amount: i128)
    requires NonNegative(b) && Sum(b) <= I128_MAX && 0 <= amount
    ensures Move(b, from, to, amount).Some? <==> amount <= Bal(b, from)
    ensures Move(b, from, to, amount).Some? ==>
              var b' := Move(b, from, to, amount).value;
              && NonNegative(b') && Sum(b') == Sum(b)
              && forall x :: Bal(b', x) == Bal(b, x) - (if x == from then amount else 0) + (if x == to then amount else 0)
  {
    DebitFacts(b, from, amount);
    if amount <= Bal(b, from) {
      CreditFacts(Debit(b, from, amount).value, to, amount);
    }
  }

  /** A transfer commits exactly when the payer can pay; the credit never overflows,
      nothing is created or lost, and nobody else is affected. */
  lemma MoveExact(l: Ledger, from: Address, to: Address, amount: i128)
    requires Conserved(l) && 0 <= amount
    ensures MoveFunds(l, from, to, amount).Some? <==> amount <= Bal(l.balances, from)
    ensures MoveFunds(l, from, to, amount).Some? ==>
              var l' := MoveFunds(l, from, to, amount).value;
              Conserved(l') && Moved(l, from, to, amount, l')
  {
    MoveFacts(l.balances, from, to, amount);
  }

  /** A burn commits exactly when the holder can pay: the supply guard never fires on its own. */
  lemma BurnExact(l: Ledger, from: Address, amount: i128)
    requires Conserved(l) && 0 <= amount
    ensures BurnOf(l, from, amount).Some? <==> amount <= Bal(l.balances, from)
    ensures BurnOf(l, from, amount).Some? ==>
              var l' := BurnOf(l, from, amount).value;
              Conserved(l') && Burnt(l, from, amount, l')
  {
    BalanceBounds(l, from, from);
    DebitFacts(l.balances, from, amount);
  }

  /** A mint commits exactly when the new supply is representable and within a positive cap. */
  lemma MintExact(l: Ledger, to: Address, amount: i128)
    requires Conserved(l) && 0 <= amount
    ensures MintTo(l, to, amount).Some? <==>
            l.supply + amount <= I128_MAX && (l.cap > 0 ==> l.supply + amount <= l.cap)
    ensures MintTo(l, to, amount).Some? ==>
              var l' := MintTo(l, to, amount).value;
              Conserved(l') && Minted(l, to, amount, l')
  {
    CreditFacts(l.balances, to, amount);
  }

  /** A committed change of a positive cap never loosens it, except that 0, which means
      "no cap", is accepted while the supply is 0. */
  lemma CapOnlyTightens(l: Ledger, newMax: i128)
    requires Conserved(l) && l.cap > 0 && SetMaxSupply(l, newMax).Some?
    ensures var l' := SetMaxSupply(l, newMax).value;
            && Conserved(l')
            && ((0 < l'.cap <= l.cap) <==> newMax != 0)
            && (newMax == 0 ==> l.supply == 0)
  {
    SumCovers(l.balances);
  }

  /** While the supply is 0, a cap of 5 can be replaced by 0, that is, lifted. */
  lemma CapLiftExample()
    ensures var l := Ledger(map[], 0, 5);
            Conserved(l) && SetMaxSupply(l, 0) == Some(l.(cap := 0))
  {
    var none: Balances := map[];
    assert Sum(none) == 0;
  }
}
