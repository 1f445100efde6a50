/** Dividends: exact shares, the remainder bounded on both sides, conservation. */
module DividendLaws {
  import opened Types
  import opened Sums
  import opened BalanceSpec
  import opened DividendSpec
  import opened Invariants
  import TokenLaws

  // ---------- sums of balances ----------

  /** The balances held by frozen accounts. */
  function FrozenPart(b: Balances, frozen: set<Address>): map<Address, int> {
    map a | a in b && a in frozen :: b[a] as int
  }

  /** Every unit belongs to an eligible holder or to a frozen account. */
  lemma {:induction false} Partition(b: Balances, frozen: set<Address>)
    requires NonNegative(b)
    ensures Sum(Eligible(b, frozen)) + Sum(FrozenPart(b, frozen)) == Sum(b)
    decreases |b|
  {
    var el, fr := Eligible(b, frozen), FrozenPart(b, frozen);
    if b == map[] {
      assert el == map[] && fr == map[];
    } else {
      var a :| a in b;
      Partition(b - {a}, frozen);
      SumRemove(b, a);
      assert Eligible(b - {a}, frozen) == el - {a};
      assert FrozenPart(b - {a}, frozen) == fr - {a};
      if a in frozen {
        SumRemove(fr, a);
        assert el - {a} == el;
      } else {
        assert fr - {a} == fr;
        if b[a] > 0 {
          SumRemove(el, a);
        } else {
          assert el - {a} == el;
        }
      }
    }
  }

  /** Crediting a share to some of the holders adds the shares to the sum. */
  lemma {:induction false} SumAdd(b: map<Address, int>, sh: map<Address, int>)
    requires sh.Keys <= b.Keys
    ensures Sum(map a | a in b :: if a in sh then b[a] + sh[a] else b[a]) == Sum(b) + Sum(sh)
    decreases |b|
  {
    var out := map a | a in b :: if a in sh then b[a] + sh[a] else b[a];
    if b == map[] {
      assert out == map[] && sh == map[];
    } else {
      var a :| a in b;
      var b', sh' := b - {a}, sh - {a};
      SumAdd(b', sh');
      assert out - {a} == map x | x in b' :: if x in sh' then b'[x] + sh'[x] else b'[x];
      SumRemove(b, a);
      SumRemove(out, a);
      if a in sh {
        SumRemove(sh, a);
      } else {
        assert sh' == sh;
      }
    }
  }

  // ---------- the shares ----------

  lemma Distributes(k: int, x: int, y: int)
    ensures k * (x + y) == k * x + k * y
  {
  }

  /** For a non-negative amount a share is the floor of the exact one. */
  lemma ShareBounds(holding: int, amount: int, supply: int)
    requires 0 <= holding && 0 <= amount && 0 < supply
    ensures var q := ShareOf(holding, amount, supply);
            0 <= q && q == holding * amount / supply
            && supply * q <= amount * holding <= supply * q + supply - 1
  {
    assert 0 <= holding * amount;
  }

  lemma SharesFloor(el: map<Address, int>, amount: int, supply: int)
    requires 0 <= amount && 0 < supply && forall a | a in el :: 0 < el[a]
    ensures var sh := Shares(el, amount, supply);
            forall a | a in sh :: 0 <= sh[a] && sh[a] == el[a] * amount / supply
  {
    forall a | a in el ensures var q := ShareOf(el[a], amount, supply); 0 <= q && q == el[a] * amount / supply {
      ShareBounds(el[a], amount, supply);
    }
  }

  lemma SharesNonNegative(el: map<Address, int>, amount: int, supply: int)
    requires 0 < supply
    ensures var sh := Shares(el, amount, supply); forall a | a in sh :: 0 <= sh[a]
  {
  }

  /** Shares that sum to `paid` for holdings that sum to `held` lose less than one unit for
      each of the n holders. */
  ghost predicate Rounds(S: int, A: int, paid: int, held: int, n: int) {
    S * paid <= A * held <= S * paid + n * (S - 1)
  }

  lemma RoundsStep(S: int, A: int, q: int, h: int, paid: int, held: int, n: int)
    requires Rounds(S, A, q, h, 1) && Rounds(S, A, paid - q, held - h, n - 1)
    ensures Rounds(S, A, paid, held, n)
  {
    Distributes(S, q, paid - q);
    Distributes(A, h, held - h);
    Distributes(S - 1, n - 1, 1);
  }

  lemma ShareRounds(holding: int, amount: int, supply: int)
    requires 0 <= holding && 0 <= amount && 0 < supply
    ensures Rounds(supply, amount, ShareOf(holding, amount, supply), holding, 1)
  {
    ShareBounds(holding, amount, supply);
  }

  lemma SharesRemove(el: map<Address, int>, amount: int, supply: int, a: Address)
    requires 0 < supply && a in el
    ensures Sum(el) == el[a] + Sum(el - {a})
    ensures Sum(Shares(el, amount, supply)) == ShareOf(el[a], amount, supply) + Sum(Shares(el - {a}, amount, supply))
  {
    SumRemove(el, a);
    SumRemove(Shares(el, amount, supply), a);
    assert Shares(el - {a}, amount, supply) == Shares(el, amount, supply) - {a};
  }

  lemma {:induction false} SharesRound(el: map<Address, int>, amount: int, supply: int)
    requires 0 <= amount && 0 < supply && forall a | a in el :: 0 < el[a]
    ensures Rounds(supply, amount, Sum(Shares(el, amount, supply)), Sum(el), |el|)
    decreases |el|
  {
    if el == map[] {
      assert Shares(el, amount, supply) == map[];
    } else {
      var a :| a in el;
      SharesRound(el - {a}, amount, supply);
      SharesRemove(el, amount, supply, a);
      ShareRounds(el[a], amount, supply);
      RoundsStep(supply, amount, ShareOf(el[a], amount, supply), el[a],
                 Sum(Shares(el, amount, supply)), Sum(el), |el|);
    }
  }

  lemma NonPositiveProduct(x: int, y: int)
    requires 0 <= x && y <= 0
    ensures x * y <= 0
  {
  }

  /** A negative amount gives every holder a share that is not paid. */
  lemma {:induction false} NoNegativeShares(el: map<Address, int>, amount: int, supply: int)
    requires amount <= 0 && 0 < supply && forall a | a in el :: 0 < el[a]
    ensures var sh := Shares(el, amount, supply);
            Sum(sh) == 0 && forall a | a in sh :: sh[a] == 0
    decreases |el|
  {
    var sh := Shares(el, amount, supply);
    forall a | a in sh ensures sh[a] == 0 {
      NonPositiveProduct(el[a], amount);
    }
    if el == map[] {
      assert sh == map[];
    } else {
      var a :| a in el;
      NoNegativeShares(el - {a}, amount, supply);
      assert Shares(el - {a}, amount, supply) == sh - {a};
      SumRemove(sh, a);
    }
  }

  // ---------- the dividend ----------

  lemma Positive(x: int, k: int)
    requires k > 0
    ensures 0 <= x * k ==> 0 <= x
  {
  }

  /** The bounds on the remainder r of a dividend of A over supply S with F units frozen and n
      eligible holders. */
  ghost predicate RemainderWithin(r: int, A: int, S: int, F: int, n: int) {
    A * (A + F) <= r * S <= A * (A + F) + n * (S - 1)
  }

  lemma RemainderAlgebra(A: int, S: int, F: int, held: int, paid: int, n: nat)
    requires 0 <= A && 0 < S && 0 <= F && held == S - A - F && Rounds(S, A, paid, held, n)
    ensures RemainderWithin(A - paid, A, S, F, n)
    ensures 0 <= A - paid
  {
    Distributes(A, held, A + F);
    Distributes(S, A - paid, paid);
    assert 0 <= A * (A + F);
    Positive(A - paid, S);
  }

  /** The remainder r of a dividend of a over supply S, with F units frozen and n eligible
      holders, satisfies a(a+F) <= rS <= a(a+F) + n(S-1); so it is never negative. Here `b`
      holds the balances after the debit. */
  lemma RemainderBounds(b: Balances, frozen: set<Address>, amount: i128, supply: i128)
    requires NonNegative(b) && 0 <= amount && 0 < supply && Sum(b) == supply - amount
    ensures var el := Eligible(b, frozen);
            var r := amount - Sum(Shares(el, amount, supply));
            && RemainderWithin(r, amount, supply, Sum(FrozenPart(b, frozen)), |el|)
            && 0 <= Sum(FrozenPart(b, frozen)) && 0 <= r <= amount
  {
    hide Rounds, RemainderWithin, Shares;
    var el, fr := Eligible(b, frozen), FrozenPart(b, frozen);
    Partition(b, frozen);
    SumNonNegative(fr);
    SharesRound(el, amount, supply);
    SharesNonNegative(el, amount, supply);
    SumNonNegative(Shares(el, amount, supply));
    RemainderAlgebra(amount, supply, Sum(fr), Sum(el), Sum(Shares(el, amount, supply)), |el|);
  }

  /** Crediting the shares never overflows and adds exactly the shares. */
  lemma CreditedLaw(b: Balances, sh: map<Address, int>)
    requires NonNegative(b) && sh.Keys <= b.Keys && forall a | a in sh :: 0 <= sh[a]
    requires Sum(b) + Sum(sh) <= I128_MAX
    ensures Credited(b, sh).Some?
    ensures var paid := Credited(b, sh).value;
            && NonNegative(paid) && Sum(paid) == Sum(b) + Sum(sh)
            && forall a :: Bal(paid, a) == Bal(b, a) + if a in sh then sh[a] else 0
  {
    SumCovers(b);
    SumCovers(sh);
    SumAdd(b, sh);
    var paid: map<Address, int> := map a | a in b :: if a in sh then b[a] + sh[a] else b[a];
    assert Credited(b, sh).Some? && Credited(b, sh).value == paid;
  }

  /** What each address has after a dividend: its balance after the debit, its share if it is
      eligible, and for the admin the remainder. */
  ghost function Expected(b: Balances, sh: map<Address, int>, admin: Address, remainder: int, a: Address): int {
    Bal(b, a) + (if a in sh then sh[a] else 0) + (if a == admin then remainder else 0)
  }

  ghost function PoolShares(c: Ctx, l: Ledger, admin: Address, amount: i128): map<Address, int>
    requires l.supply > 0 && Debit(l.balances, admin, amount).Some?
  {
    Shares(Eligible(Debit(l.balances, admin, amount).value, Excluded(c, l, admin)), amount, l.supply)
  }

  /** The shares are floors, they and the remainder add up to the amount, and crediting them
      fails nowhere. */
  lemma PaidOut(b: Balances, frozen: set<Address>, admin: Address, amount: i128, supply: i128) returns (t: Balances)
    requires NonNegative(b) && 0 <= amount && 0 < supply && Sum(b) == supply - amount
    ensures var sh := Shares(Eligible(b, frozen), amount, supply);
            var r := amount - Sum(sh);
            && 0 <= r <= amount
            && Credited(b, sh).Some?
            && (if r == 0 then t == Credited(b, sh).value else Credit(Credited(b, sh).value, admin, r) == Some(t))
            && NonNegative(t) && Sum(t) == supply
            && (forall a | a in sh :: 0 <= sh[a])
            && forall a :: Bal(t, a) == Expected(b, sh, admin, r, a)
  {
    var sh := Shares(Eligible(b, frozen), amount, supply);
    PoolFits(b, frozen, amount, supply);
    t := CreditTwice(b, sh, admin, amount - Sum(sh));
  }

  lemma PoolFits(b: Balances, frozen: set<Address>, amount: i128, supply: i128)
    requires NonNegative(b) && 0 <= amount && 0 < supply && Sum(b) == supply - amount
    ensures var sh := Shares(Eligible(b, frozen), amount, supply);
            0 <= amount - Sum(sh) <= amount && forall a | a in sh :: 0 <= sh[a]
  {
    RemainderBounds(b, frozen, amount, supply);
    SharesFloor(Eligible(b, frozen), amount, supply);
  }

  lemma CreditTwice(b: Balances, sh: map<Address, int>, admin: Address, r: i128) returns (t: Balances)
    requires NonNegative(b) && sh.Keys <= b.Keys && (forall a | a in sh :: 0 <= sh[a]) && 0 <= r
    requires Sum(b) + Sum(sh) + r <= I128_MAX
    ensures Credited(b, sh).Some?
    ensures if r == 0 then t == Credited(b, sh).value else Credit(Credited(b, sh).value, admin, r) == Some(t)
    ensures NonNegative(t) && Sum(t) == Sum(b) + Sum(sh) + r
    ensures forall a :: Bal(t, a) == Expected(b, sh, admin, r, a)
  {
    CreditedLaw(b, sh);
    var paid := Credited(b, sh).value;
    CreditFacts(paid, admin, r);
    t := if r == 0 then paid else Credit(paid, admin, r).value;
  }

  /** The state a funded dividend leads to when its products fit. */
  lemma Outcome(c: Ctx, s: State, admin: Address, amount: i128) returns (t: Balances)
    requires Conserved(s.ledger) && c.IsAdmin(admin)
    requires s.ledger.supply > 0 && 0 <= amount <= Bal(s.ledger.balances, admin)
    ensures Debit(s.ledger.balances, admin, amount).Some?
    ensures Distribute(c, s, admin, amount) ==
            if ProductsFit(Eligible(Debit(s.ledger.balances, admin, amount).value, Excluded(c, s.ledger, admin)), amount)
            then Some(s.(ledger := s.ledger.(balances := t))) else None
    ensures NonNegative(t) && Sum(t) == s.ledger.supply
    ensures var b, sh := Debit(s.ledger.balances, admin, amount).value, PoolShares(c, s.ledger, admin, amount);
            && (forall a | a in sh :: 0 <= sh[a])
            && forall a :: Bal(t, a) == Expected(b, sh, admin, amount - Sum(sh), a)
  {
    hide Excluded, Shares, Eligible, ProductsFit, Debit, Credited;
    DebitFacts(s.ledger.balances, admin, amount);
    var b := Debit(s.ledger.balances, admin, amount).value;
    t := PaidOut(b, Excluded(c, s.ledger, admin), admin, amount, s.ledger.supply);
  }

  ghost predicate Fundable(c: Ctx, s: State, admin: Address, amount: i128) {
    c.IsAdmin(admin) && s.ledger.supply > 0 && amount <= Bal(s.ledger.balances, admin)
  }

  /** What an address still has once the admin has been debited. */
  function After(l: Ledger, admin: Address, amount: int, a: Address): int {
    Bal(l.balances, a) - if a == admin then amount else 0
  }

  /** The fair shares: every holder that is not frozen and has something left after the debit gets
      the floor of amount * holding / supply. */
  ghost function FairShares(frozen: set<Address>, l: Ledger, admin: Address, amount: int): map<Address, int>
    requires l.supply > 0
  {
    map a | a in l.balances && a !in frozen && 0 < l.balances[a] && 0 < After(l, admin, amount, a) ::
      After(l, admin, amount, a) * amount / l.supply
  }

  /** What frozen accounts hold after the debit. */
  ghost function Withheld(frozen: set<Address>, l: Ledger, admin: Address, amount: int): map<Address, int> {
    map a | a in l.balances && a in frozen :: After(l, admin, amount, a)
  }

  /** Who is eligible, and with what holding, in terms of the ledger before the debit. */
  lemma EligibleExact(c: Ctx, l: Ledger, admin: Address, amount: i128)
    requires Debit(l.balances, admin, amount).Some?
    ensures var el := Eligible(Debit(l.balances, admin, amount).value, Excluded(c, l, admin));
            forall a :: && (a in el <==> a !in c.frozen && 0 < Bal(l.balances, a) && 0 < After(l, admin, amount, a))
                        && (a in el ==> el[a] == After(l, admin, amount, a))
  {
  }

  lemma FairSharesExact(c: Ctx, l: Ledger, admin: Address, amount: i128)
    requires Debit(l.balances, admin, amount).Some? && l.supply > 0 && 0 <= amount
    ensures PoolShares(c, l, admin, amount) == FairShares(c.frozen, l, admin, amount)
    ensures |FairShares(c.frozen, l, admin, amount)|
            == |Eligible(Debit(l.balances, admin, amount).value, Excluded(c, l, admin))|
  {
    var el := Eligible(Debit(l.balances, admin, amount).value, Excluded(c, l, admin));
    EligibleExact(c, l, admin, amount);
    SharesFloor(el, amount, l.supply);
    var sh, fs := PoolShares(c, l, admin, amount), FairShares(c.frozen, l, admin, amount);
    assert sh.Keys == el.Keys == fs.Keys;
    assert |sh| == |sh.Keys| == |el.Keys| == |el|;
  }

  lemma DebitCommits(c: Ctx, s: State, admin: Address, amount: i128)
    requires Conserved(s.ledger) && Fundable(c, s, admin, amount) && FitsI128(Bal(s.ledger.balances, admin) - amount)
    ensures Debit(s.ledger.balances, admin, amount).Some?
    ensures Distribute(c, s, admin, amount).Some? <==>
            ProductsFit(Eligible(Debit(s.ledger.balances, admin, amount).value, Excluded(c, s.ledger, admin)), amount)
  {
    if 0 <= amount {
      hide Eligible, Excluded, ProductsFit, Shares, Credited;
      var t := Outcome(c, s, admin, amount);
    } else {
      NegativeCredits(Debit(s.ledger.balances, admin, amount).value, Excluded(c, s.ledger, admin), amount, s.ledger.supply);
    }
  }

  /** A dividend of any amount commits exactly when the admin acts, has the amount, and neither the
      debit nor the product for any holder overflows: no later credit, sum or difference fails. */
  lemma DividendCommits(c: Ctx, s: State, admin: Address, amount: i128)
    requires Conserved(s.ledger)
    ensures Distribute(c, s, admin, amount).Some? <==>
            && admin in c.signers && admin == c.admin
            && (c.adminActiveAfter.Some? ==> c.adminActiveAfter.value <= c.ledger)
            && s.ledger.supply > 0 && amount <= Bal(s.ledger.balances, admin)
            && I128_MIN <= Bal(s.ledger.balances, admin) - amount <= I128_MAX
            && forall a | && a !in c.frozen && 0 < Bal(s.ledger.balances, a)
                          && 0 < Bal(s.ledger.balances, a) - (if a == admin then amount else 0) ::
                 I128_MIN <= (Bal(s.ledger.balances, a) - (if a == admin then amount else 0)) * amount <= I128_MAX
  {
    hide Distribute, Excluded, Conserved;
    if Fundable(c, s, admin, amount) && FitsI128(Bal(s.ledger.balances, admin) - amount) {
      DebitCommits(c, s, admin, amount);
      EligibleExact(c, s.ledger, admin, amount);
    } else {
      NotFunded(c, s, admin, amount);
    }
  }

  lemma NotFunded(c: Ctx, s: State, admin: Address, amount: i128)
    requires !Fundable(c, s, admin, amount) || !FitsI128(Bal(s.ledger.balances, admin) - amount)
    ensures Distribute(c, s, admin, amount).None?
  {
  }

  lemma CommittedFundable(c: Ctx, s: State, admin: Address, amount: i128)
    requires Distribute(c, s, admin, amount).Some?
    ensures Fundable(c, s, admin, amount) && Debit(s.ledger.balances, admin, amount).Some?
    ensures ProductsFit(Eligible(Debit(s.ledger.balances, admin, amount).value, Excluded(c, s.ledger, admin)), amount)
  {
  }

  /** Every holder that is not frozen gets exactly its fair share of what it holds after the debit,
      the admin gets the remainder back, and the remainder is bounded on both sides. */
  lemma DividendLaw(c: Ctx, s: State, admin: Address, amount: i128)
    requires Sound(s) && c.Genuine() && 0 <= amount && Distribute(c, s, admin, amount).Some?
    ensures var t := Distribute(c, s, admin, amount).value;
            && Sound(t) && t == s.(ledger := s.ledger.(balances := t.ledger.balances))
            && s.ledger.supply > 0
            && var fs := FairShares(c.frozen, s.ledger, admin, amount);
               var r := amount - Sum(fs);
               && 0 <= r <= amount
               && RemainderWithin(r, amount, s.ledger.supply, Sum(Withheld(c.frozen, s.ledger, admin, amount)), |fs|)
               && forall a :: Bal(t.ledger.balances, a) ==
                              Bal(s.ledger.balances, a) - (if a == admin then amount else 0)
                              + (if a in fs then fs[a] else 0) + (if a == admin then r else 0)
  {
    hide Sound, Distribute, RemainderWithin, FairShares, Withheld, Conserved, Sum, Fundable;
    Parts(s);
    SupplyPositive(c, s, admin, amount);
    FairlyPaid(c, s, admin, amount);
    FairRemainder(c, s.ledger, admin, amount);
  }

  lemma SupplyPositive(c: Ctx, s: State, admin: Address, amount: i128)
    requires Distribute(c, s, admin, amount).Some?
    ensures s.ledger.supply > 0 && Debit(s.ledger.balances, admin, amount).Some?
  {
  }

  lemma FairlyPaid(c: Ctx, s: State, admin: Address, amount: i128)
    requires Sound(s) && c.Genuine() && 0 <= amount && Distribute(c, s, admin, amount).Some?
    ensures s.ledger.supply > 0
    ensures var t := Distribute(c, s, admin, amount).value;
            var fs := FairShares(c.frozen, s.ledger, admin, amount);
            && Sound(t) && t == s.(ledger := s.ledger.(balances := t.ledger.balances))
            && forall a :: Bal(t.ledger.balances, a) ==
                           Bal(s.ledger.balances, a) - (if a == admin then amount else 0)
                           + (if a in fs then fs[a] else 0) + (if a == admin then amount - Sum(fs) else 0)
  {
    hide Sound, Distribute, Excluded, Shares, Eligible, ProductsFit, Debit, FairShares, Sum;
    Parts(s);
    CommittedFundable(c, s, admin, amount);
    var t := Outcome(c, s, admin, amount);
    CustodyUntouched(c, s, admin, amount, t);
    TokenLaws.LedgerStep(s, s.ledger.(balances := t));
    FairSharesExact(c, s.ledger, admin, amount);
    DebitFacts(s.ledger.balances, admin, amount);
  }

  /** The bounds on the remainder, in terms of the ledger before the debit. */
  lemma FairRemainder(c: Ctx, l: Ledger, admin: Address, amount: i128)
    requires Conserved(l) && l.supply > 0 && 0 <= amount && Debit(l.balances, admin, amount).Some?
    ensures var fs := FairShares(c.frozen, l, admin, amount);
            var r := amount - Sum(fs);
            && 0 <= r <= amount
            && RemainderWithin(r, amount, l.supply, Sum(Withheld(c.frozen, l, admin, amount)), |fs|)
  {
    hide FairShares, RemainderWithin, Debit, Conserved, PoolShares, Excluded, Sum, FrozenPart, Withheld, Eligible;
    PoolRemainder(c, l, admin, amount);
    FairSharesExact(c, l, admin, amount);
    if Bal(l.balances, admin) > 0 {
      WithheldIs(c, l, admin, amount);
    } else {
      NothingToPay(l, admin, amount);
      NoAmount(amount - Sum(FairShares(c.frozen, l, admin, amount)), l.supply,
               Sum(FrozenPart(Debit(l.balances, admin, amount).value, Excluded(c, l, admin))),
               Sum(Withheld(c.frozen, l, admin, amount)), |FairShares(c.frozen, l, admin, amount)|);
    }
  }

  lemma PoolRemainder(c: Ctx, l: Ledger, admin: Address, amount: i128)
    requires Conserved(l) && l.supply > 0 && 0 <= amount && Debit(l.balances, admin, amount).Some?
    ensures var b := Debit(l.balances, admin, amount).value;
            var r := amount - Sum(PoolShares(c, l, admin, amount));
            && 0 <= r <= amount
            && RemainderWithin(r, amount, l.supply, Sum(FrozenPart(b, Excluded(c, l, admin))),
                               |Eligible(b, Excluded(c, l, admin))|)
  {
    hide Shares, Eligible, RemainderWithin, Debit, FrozenPart, Excluded;
    DebitFacts(l.balances, admin, amount);
    RemainderBounds(Debit(l.balances, admin, amount).value, Excluded(c, l, admin), amount, l.supply);
  }

  lemma NothingToPay(l: Ledger, admin: Address, amount: i128)
    requires Debit(l.balances, admin, amount).Some? && 0 <= amount && Bal(l.balances, admin) <= 0
    ensures amount == 0
  {
  }

  lemma WithheldIs(c: Ctx, l: Ledger, admin: Address, amount: i128)
    requires Debit(l.balances, admin, amount).Some? && Bal(l.balances, admin) > 0
    ensures FrozenPart(Debit(l.balances, admin, amount).value, Excluded(c, l, admin))
            == Withheld(c.frozen, l, admin, amount)
  {
  }

  /** With no amount the frozen holdings do not matter. */
  lemma NoAmount(r: int, S: int, F: int, G: int, n: int)
    requires RemainderWithin(r, 0, S, F, n)
    ensures RemainderWithin(r, 0, S, G, n)
  {
  }

  /** With a negative amount nobody is paid and the admin is credited. */
  lemma NegativeDividendLaw(c: Ctx, s: State, admin: Address, amount: i128)
    requires amount < 0 && Distribute(c, s, admin, amount).Some?
    ensures var t := Distribute(c, s, admin, amount).value;
            && t == s.(ledger := s.ledger.(balances := t.ledger.balances))
            && forall a :: Bal(t.ledger.balances, a) == Bal(s.ledger.balances, a) - if a == admin then amount else 0
  {
    CommittedFundable(c, s, admin, amount);
    NegativeCredits(Debit(s.ledger.balances, admin, amount).value, Excluded(c, s.ledger, admin), amount, s.ledger.supply);
  }

  lemma CustodyUntouched(c: Ctx, s: State, admin: Address, amount: i128, t: Balances)
    requires Conserved(s.ledger) && c.Genuine() && 0 <= amount && Fundable(c, s, admin, amount)
    requires Debit(s.ledger.balances, admin, amount).Some?
    requires var b, sh := Debit(s.ledger.balances, admin, amount).value, PoolShares(c, s.ledger, admin, amount);
             && (forall a | a in sh :: 0 <= sh[a])
             && forall a :: Bal(t, a) == Expected(b, sh, admin, amount - Sum(sh), a)
    ensures Bal(s.ledger.balances, Contract) <= Bal(t, Contract)
  {
    DebitFacts(s.ledger.balances, admin, amount);
  }

  /** A dividend that commits conserves the ledger exactly when its amount is not negative: a
      negative one credits the admin without any holder paying for it. */
  lemma ConservedIff(c: Ctx, s: State, admin: Address, amount: i128)
    requires Sound(s) && c.Genuine() && Distribute(c, s, admin, amount).Some?
    ensures Conserved(Distribute(c, s, admin, amount).value.ledger) <==> 0 <= amount
  {
    if 0 <= amount {
      DividendLaw(c, s, admin, amount);
    } else {
      var b := Debit(s.ledger.balances, admin, amount).value;
      SumUpdate(s.ledger.balances, admin, Bal(b, admin));
      NegativeCredits(b, Excluded(c, s.ledger, admin), amount, s.ledger.supply);
      assert Distribute(c, s, admin, amount).value.ledger.balances == b;
    }
  }

  lemma NegativeCredits(b: Balances, frozen: set<Address>, amount: i128, supply: i128)
    requires amount <= 0 && 0 < supply
    ensures var sh := Shares(Eligible(b, frozen), amount, supply);
            Sum(sh) == 0 && Credited(b, sh) == Some(b)
  {
    NoNegativeShares(Eligible(b, frozen), amount, supply);
    var sh := Shares(Eligible(b, frozen), amount, supply);
    assert Credited(b, sh).Some? && Credited(b, sh).value == b;
  }

  /** One holder, the admin, with one unit. */
  function OneUnit(): State {
    State(Ledger(map[Account(0) := 1], 1, 0), map[], Book(0, map[]), Book(0, map[]), Book(0, map[]), Book(0, map[]))
  }

  lemma OneUnitSound()
    ensures Sound(OneUnit())
  {
    SumRemove(OneUnit().ledger.balances, Account(0));
    assert OneUnit().ledger.balances - {Account(0)} == map[];
  }

  /** A negative dividend that commits: the admin of a one-unit ledger distributes -1 and ends
      with two units, while the supply stays at one. */
  lemma NegativeDividendExample()
    ensures var c := Ctx(0, {Account(0)}, Account(0), None, None, false, {});
            var t := Distribute(c, OneUnit(), Account(0), -1);
            Sound(OneUnit()) && t.Some? && Bal(t.value.ledger.balances, Account(0)) == 2 && t.value.ledger.supply == 1
  {
    OneUnitSound();
    hide Sound, Eligible, Shares, Credited;
    var b := Debit(OneUnit().ledger.balances, Account(0), -1).value;
    NegativeCredits(b, {}, -1, 1);
    OneProductFits(b);
  }

  lemma OneProductFits(b: Balances)
    requires b == map[Account(0) := 2]
    ensures ProductsFit(Eligible(b, {}), -1)
  {
  }

  // ---------- what the storage code relies on ----------

  /** Before the payout loop: shares are non-negative, zero for a negative amount, and neither
      a credit nor the running total can overflow. */
  lemma LoopReady(c: Ctx, s: State, admin: Address, amount: i128)
    requires Sound(s) && s.ledger.supply > 0 && Debit(s.ledger.balances, admin, amount).Some?
    ensures var b, sh := Debit(s.ledger.balances, admin, amount).value, PoolShares(c, s.ledger, admin, amount);
            && (forall a | a in sh :: 0 <= sh[a])
            && Sum(sh) <= I128_MAX
            && (amount < 0 ==> forall a | a in sh :: sh[a] == 0)
            && (forall a | a in sh :: a in b && FitsI128(b[a] + sh[a]))
  {
    var b := Debit(s.ledger.balances, admin, amount).value;
    var ex := Excluded(c, s.ledger, admin);
    if 0 <= amount {
      LoopReadyFor(s.ledger, admin, amount, ex);
    } else {
      NoNegativeShares(Eligible(b, ex), amount, s.ledger.supply);
    }
  }

  lemma LoopReadyFor(l: Ledger, admin: Address, amount: i128, ex: set<Address>)
    requires Conserved(l) && l.supply > 0 && 0 <= amount && Debit(l.balances, admin, amount).Some?
    ensures var b := Debit(l.balances, admin, amount).value;
            var sh := Shares(Eligible(b, ex), amount, l.supply);
            && (forall a | a in sh :: 0 <= sh[a]) && Sum(sh) <= I128_MAX
            && (forall a | a in sh :: a in b && FitsI128(b[a] + sh[a]))
  {
    hide Debit, ShareOf;
    DebitFacts(l.balances, admin, amount);
    var b := Debit(l.balances, admin, amount).value;
    var sh := Shares(Eligible(b, ex), amount, l.supply);
    PoolFits(b, ex, amount, l.supply);
    SumCovers(b);
    SumCovers(sh);
  }

  /** A positive remainder means that the amount was positive. */
  lemma RemainderPositive(c: Ctx, s: State, admin: Address, amount: i128)
    requires Sound(s) && s.ledger.supply > 0 && Debit(s.ledger.balances, admin, amount).Some?
    requires amount - Sum(PoolShares(c, s.ledger, admin, amount)) > 0
    ensures 0 < amount
  {
    if amount <= 0 {
      var b := Debit(s.ledger.balances, admin, amount).value;
      NoNegativeShares(Eligible(b, Excluded(c, s.ledger, admin)), amount, s.ledger.supply);
    }
  }

  lemma DividendSound(c: Ctx, s: State, admin: Address, amount: i128)
    requires Sound(s) && c.Genuine() && 0 <= amount
    ensures Distribute(c, s, admin, amount).Some? ==> Sound(Distribute(c, s, admin, amount).value)
  {
    hide Sound;
    if Distribute(c, s, admin, amount).Some? {
      DividendLaw(c, s, admin, amount);
    }
  }
}
