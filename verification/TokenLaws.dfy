/** Token entry points, approvals and batches: what they keep. */
module TokenLaws {
  import opened Types
  import opened Sums
  import opened BalanceSpec
  import opened TokenSpec
  import opened BatchSpec
  import opened Invariants
  import AllowanceSpec

  /** Any conserved ledger in which custody has not shrunk keeps the whole state sound. */
  lemma LedgerStep(s: State, l: Ledger)
    requires Sound(s) && Conserved(l) && Bal(s.ledger.balances, Contract) <= Bal(l.balances, Contract)
    ensures Sound(s.(ledger := l))
  {
  }

  /** Any sane set of approvals keeps the whole state sound. */
  lemma AllowancesStep(s: State, al: Allowances)
    requires Sound(s) && AllowanceSpec.Sane(al)
    ensures Sound(s.(allowances := al))
  {
  }

  lemma ApprovalsSane(s: State)
    requires Sound(s)
    ensures AllowanceSpec.Sane(s.allowances)
  {
  }

  lemma MintLaw(c: Ctx, s: State, admin: Address, to: Address, amount: i128)
    requires Sound(s)
    ensures Mint(c, s, admin, to, amount).Some? <==>
            && to != Contract && !c.paused && amount > 0
            && admin in c.signers && admin == c.admin
            && (c.adminActiveAfter.Some? ==> c.adminActiveAfter.value <= c.ledger)
            && s.ledger.supply + amount <= I128_MAX
            && (s.ledger.cap > 0 ==> s.ledger.supply + amount <= s.ledger.cap)
    ensures Mint(c, s, admin, to, amount).Some? ==>
              var t := Mint(c, s, admin, to, amount).value;
              Sound(t) && Minted(s.ledger, to, amount, t.ledger) && t == s.(ledger := t.ledger)
  {
    if amount > 0 {
      MintExact(s.ledger, to, amount);
    }
  }

  lemma BurnLaw(c: Ctx, s: State, from: Address, amount: i128)
    requires Sound(s) && c.Genuine()
    ensures Burn(c, s, from, amount).Some? <==>
            from in c.signers && !c.paused && 0 < amount <= Bal(s.ledger.balances, from)
    ensures Burn(c, s, from, amount).Some? ==>
              var t := Burn(c, s, from, amount).value;
              Sound(t) && Burnt(s.ledger, from, amount, t.ledger) && t == s.(ledger := t.ledger)
  {
    if amount > 0 {
      BurnExact(s.ledger, from, amount);
    }
  }

  /** An approved burn commits exactly when approval and balance both cover it, and takes the same
      amount from both. */
  lemma BurnApprovedLaw(c: Ctx, s: State, spender: Address, from: Address, amount: i128)
    requires Sound(s) && amount > 0
    ensures BurnApproved(c, s, spender, from, amount).Some? <==>
            && AllowanceSpec.Covered(s.allowances, c.ledger, from, spender, amount)
            && amount <= Bal(s.ledger.balances, from)
    ensures BurnApproved(c, s, spender, from, amount).Some? ==>
              var t := BurnApproved(c, s, spender, from, amount).value;
              && Sound(t) && Burnt(s.ledger, from, amount, t.ledger)
              && t == s.(ledger := t.ledger, allowances := t.allowances)
              && AllowanceSpec.UsedUp(s.allowances, from, spender, amount, t.allowances)
  {
    hide AllowanceSpec.Covered, AllowanceSpec.UsedUp, AllowanceSpec.Spend;
    AllowanceSpec.SpendExact(s.allowances, c.ledger, from, spender, amount);
    BurnExact(s.ledger, from, amount);
  }

  lemma BurnFromLaw(c: Ctx, s: State, spender: Address, from: Address, amount: i128)
    requires Sound(s)
    ensures BurnFrom(c, s, spender, from, amount).Some? <==>
            && spender in c.signers && from !in c.frozen && !c.paused
            && AllowanceSpec.Covered(s.allowances, c.ledger, from, spender, amount)
            && 0 < amount <= Bal(s.ledger.balances, from)
    ensures BurnFrom(c, s, spender, from, amount).Some? ==>
              var t := BurnFrom(c, s, spender, from, amount).value;
              && Sound(t) && Burnt(s.ledger, from, amount, t.ledger)
              && t == s.(ledger := t.ledger, allowances := t.allowances)
              && AllowanceSpec.UsedUp(s.allowances, from, spender, amount, t.allowances)
  {
    hide Sound, AllowanceSpec.Covered, AllowanceSpec.UsedUp, BurnApproved;
    if amount > 0 {
      BurnApprovedLaw(c, s, spender, from, amount);
    }
  }

  lemma ClawbackLaw(c: Ctx, s: State, admin: Address, from: Address, amount: i128)
    requires Sound(s)
    ensures Clawback(c, s, admin, from, amount).Some? <==>
            && admin in c.signers && admin == c.admin
            && (c.adminActiveAfter.Some? ==> c.adminActiveAfter.value <= c.ledger)
            && (c.cosigner.Some? ==> c.cosigner.value in c.signers) && from != Contract
            && 0 < amount <= Bal(s.ledger.balances, from)
    ensures Clawback(c, s, admin, from, amount).Some? ==>
              var t := Clawback(c, s, admin, from, amount).value;
              Sound(t) && Burnt(s.ledger, from, amount, t.ledger) && t == s.(ledger := t.ledger)
  {
    if amount > 0 {
      BurnExact(s.ledger, from, amount);
    }
  }

  lemma MemoTransferLaw(c: Ctx, s: State, from: Address, to: Address, amount: i128)
    requires Sound(s) && c.Genuine()
    ensures TransferWithMemo(c, s, from, to, amount).Some? <==>
            from in c.signers && !c.paused && from !in c.frozen && 0 < amount <= Bal(s.ledger.balances, from)
    ensures TransferWithMemo(c, s, from, to, amount).Some? ==>
              var t := TransferWithMemo(c, s, from, to, amount).value;
              Sound(t) && Moved(s.ledger, from, to, amount, t.ledger) && t == s.(ledger := t.ledger)
  {
    if amount > 0 {
      MoveExact(s.ledger, from, to, amount);
    }
  }

  lemma TransferLaw(c: Ctx, s: State, from: Address, to: Address, amount: i128)
    requires Sound(s) && c.Genuine()
    ensures Transfer(c, s, from, to, amount).Some? <==>
            && to != Contract && from in c.signers && !c.paused && from !in c.frozen
            && 0 < amount <= Bal(s.ledger.balances, from)
    ensures Transfer(c, s, from, to, amount).Some? ==>
              var t := Transfer(c, s, from, to, amount).value;
              Sound(t) && Moved(s.ledger, from, to, amount, t.ledger) && t == s.(ledger := t.ledger)
  {
    hide Sound, Moved, TransferWithMemo;
    MemoTransferLaw(c, s, from, to, amount);
  }

  lemma TransferFromLaw(c: Ctx, s: State, spender: Address, from: Address, to: Address, amount: i128)
    requires Sound(s)
    ensures TransferFrom(c, s, spender, from, to, amount).Some? <==>
            && to != Contract && spender in c.signers && !c.paused && from !in c.frozen
            && AllowanceSpec.Covered(s.allowances, c.ledger, from, spender, amount)
            && 0 < amount <= Bal(s.ledger.balances, from)
    ensures TransferFrom(c, s, spender, from, to, amount).Some? ==>
              var t := TransferFrom(c, s, spender, from, to, amount).value;
              && Sound(t) && Moved(s.ledger, from, to, amount, t.ledger)
              && t == s.(ledger := t.ledger, allowances := t.allowances)
              && AllowanceSpec.UsedUp(s.allowances, from, spender, amount, t.allowances)
  {
    if amount > 0 {
      hide AllowanceSpec.Covered, AllowanceSpec.UsedUp, AllowanceSpec.Spend, AllowanceSpec.Validates;
      AllowanceSpec.SpendExact(s.allowances, c.ledger, from, spender, amount);
      MoveExact(s.ledger, from, to, amount);
    }
  }

  /** The cap may be set to anything from the supply up to a positive cap in force. */
  lemma SetCapLaw(c: Ctx, s: State, admin: Address, newMax: i128)
    requires Sound(s)
    ensures SetCap(c, s, admin, newMax).Some? <==>
            && admin in c.signers && admin == c.admin
            && (c.adminActiveAfter.Some? ==> c.adminActiveAfter.value <= c.ledger)
            && s.ledger.supply <= newMax && (s.ledger.cap > 0 ==> newMax <= s.ledger.cap)
    ensures SetCap(c, s, admin, newMax).Some? ==>
              var t := SetCap(c, s, admin, newMax).value;
              Sound(t) && t == s.(ledger := s.ledger.(cap := newMax))
  {
  }

  // ---------- batches ----------

  /** What is still to come of a batch. */
  function SumRest(entries: seq<BatchEntry>, i: nat): int
    requires i <= |entries|
    decreases |entries| - i
  {
    if i == |entries| then 0 else entries[i].amount + SumRest(entries, i + 1)
  }

  lemma {:induction false} SumRestPositive(entries: seq<BatchEntry>, i: nat)
    requires i <= |entries| && forall j | i <= j < |entries| :: entries[j].amount > 0
    ensures 0 <= SumRest(entries, i)
    decreases |entries| - i
  {
    if i < |entries| {
      SumRestPositive(entries, i + 1);
    }
  }

  lemma {:induction false} SumFirstRest(entries: seq<BatchEntry>, i: nat)
    requires i <= |entries|
    ensures SumFirst(entries, i) + SumRest(entries, i) == SumFirst(entries, |entries|)
    decreases |entries| - i
  {
    if i < |entries| {
      SumFirstRest(entries, i + 1);
    }
  }

  /** What entries i.. name for `a`. */
  function AmountFor(entries: seq<BatchEntry>, a: Address, i: nat): int
    requires i <= |entries|
    decreases |entries| - i
  {
    if i == |entries| then 0
    else (if entries[i].address == a then entries[i].amount else 0) + AmountFor(entries, a, i + 1)
  }

  lemma {:induction false} AmountForNonNegative(entries: seq<BatchEntry>, a: Address, i: nat)
    requires i <= |entries| && forall j | i <= j < |entries| :: entries[j].amount > 0
    ensures 0 <= AmountFor(entries, a, i)
    decreases |entries| - i
  {
    if i < |entries| {
      AmountForNonNegative(entries, a, i + 1);
    }
  }

  /** A batch clawback commits exactly when no target is the contract, every amount is positive
      and every address holds the total of its own entries; each loses exactly that. */
  lemma {:induction false} ClawbackRestLaw(l: Ledger, targets: seq<BatchEntry>, i: nat)
    requires Conserved(l) && i <= |targets|
    ensures ClawbackRest(l, targets, i).Some? <==>
            && (forall j | i <= j < |targets| :: targets[j].amount > 0 && targets[j].address != Contract)
            && (forall a :: AmountFor(targets, a, i) <= Bal(l.balances, a))
    ensures ClawbackRest(l, targets, i).Some? ==>
              var l' := ClawbackRest(l, targets, i).value;
              && Conserved(l') && l'.supply == l.supply - SumRest(targets, i) && l'.cap == l.cap
              && forall a :: Bal(l'.balances, a) == Bal(l.balances, a) - AmountFor(targets, a, i)
    decreases |targets| - i
  {
    hide MintTo, NonNegative, Sum;
    NonNegativeBalances(l);
    if i < |targets| {
      var t := targets[i];
      if t.amount > 0 && t.address != Contract {
        BurnExact(l, t.address, t.amount);
        var m := BurnOf(l, t.address, t.amount);
        if m.Some? {
          ClawbackRestLaw(m.value, targets, i + 1);
          ClawbackStep(l, m.value, targets, i);
        } else if forall j | i + 1 <= j < |targets| :: targets[j].amount > 0 {
          AmountForNonNegative(targets, t.address, i + 1);
        }
      }
    }
  }

  lemma NonNegativeBalances(l: Ledger)
    requires Conserved(l)
    ensures forall a :: 0 <= Bal(l.balances, a)
  {
  }

  /** What remains to be held after the first entry is what was to be held, less that entry. */
  lemma ClawbackStep(l: Ledger, m: Ledger, targets: seq<BatchEntry>, i: nat)
    requires i < |targets| && Burnt(l, targets[i].address, targets[i].amount, m)
    ensures (forall a :: AmountFor(targets, a, i + 1) <= Bal(m.balances, a)) <==>
            (forall a :: AmountFor(targets, a, i) <= Bal(l.balances, a))
  {
  }

  /** A batch mint commits exactly when every amount is positive and the whole sum fits under
      the cap, although the cap is checked entry by entry after each credit. */
  lemma {:induction false} MintRestLaw(l: Ledger, entries: seq<BatchEntry>, i: nat)
    requires Conserved(l) && i <= |entries|
    ensures MintRest(l, entries, i).Some? <==>
            && (forall j | i <= j < |entries| :: entries[j].amount > 0)
            && l.supply + SumRest(entries, i) <= I128_MAX
            && (l.cap > 0 ==> l.supply + SumRest(entries, i) <= l.cap)
    ensures MintRest(l, entries, i).Some? ==>
              var l' := MintRest(l, entries, i).value;
              && Conserved(l') && l'.supply == l.supply + SumRest(entries, i) && l'.cap == l.cap
              && forall a :: Bal(l'.balances, a) == Bal(l.balances, a) + AmountFor(entries, a, i)
    decreases |entries| - i
  {
    hide NonNegative, MintTo, Sum, Bal;
    if i < |entries| {
      var t := entries[i];
      if t.amount > 0 {
        MintExact(l, t.address, t.amount);
        var m := MintTo(l, t.address, t.amount);
        if m.Some? {
          MintRestLaw(m.value, entries, i + 1);
          assert MintRest(l, entries, i) == MintRest(m.value, entries, i + 1);
        } else if forall j | i + 1 <= j < |entries| :: entries[j].amount > 0 {
          SumRestPositive(entries, i + 1);
        }
      }
    }
  }

  /** Every owner's approval of the spender covers all that entries i.. take from it. */
  ghost predicate AllCovered(al: Allowances, ledger: u32, spender: Address, targets: seq<BatchEntry>, i: nat)
    requires i <= |targets|
  {
    forall a | 0 < AmountFor(targets, a, i) :: AllowanceSpec.Covered(al, ledger, a, spender, AmountFor(targets, a, i))
  }

  /** Every owner's approval of the spender has been used by what entries i.. take from it. */
  ghost predicate AllUsedUp(al: Allowances, spender: Address, targets: seq<BatchEntry>, i: nat, al': Allowances)
    requires i <= |targets|
  {
    && (forall a | 0 < AmountFor(targets, a, i) ::
          var k := Pair(a, spender);
          && k in al
          && (if AmountFor(targets, a, i) == al[k].amount then k !in al'
              else && k in al' && al'[k].amount == al[k].amount - AmountFor(targets, a, i)
                   && al'[k].expiration == al[k].expiration))
    && forall k: Pair | k.spender != spender || AmountFor(targets, k.from, i) == 0 ::
         (k in al' <==> k in al) && (k in al ==> al'[k] == al[k])
  }

  ghost predicate NoneNegative(entries: seq<BatchEntry>, i: nat)
    requires i <= |entries|
  {
    forall a :: 0 <= AmountFor(entries, a, i)
  }

  lemma CoveredStep(al: Allowances, ledger: u32, spender: Address, targets: seq<BatchEntry>, i: nat, m: Allowances)
    requires i < |targets| && 0 < targets[i].amount && NoneNegative(targets, i + 1)
    requires AllowanceSpec.Covered(al, ledger, targets[i].address, spender, targets[i].amount)
    requires AllowanceSpec.UsedUp(al, targets[i].address, spender, targets[i].amount, m)
    ensures AllCovered(m, ledger, spender, targets, i + 1) <==> AllCovered(al, ledger, spender, targets, i)
  {
    var t := targets[i];
    if AllCovered(m, ledger, spender, targets, i + 1) {
      forall a | 0 < AmountFor(targets, a, i) ensures AllowanceSpec.Covered(al, ledger, a, spender, AmountFor(targets, a, i)) {
        assert Pair(a, spender) == Pair(t.address, spender) <==> a == t.address;
        if 0 < AmountFor(targets, a, i + 1) {
          assert AllowanceSpec.Covered(m, ledger, a, spender, AmountFor(targets, a, i + 1));
        }
      }
    }
    if AllCovered(al, ledger, spender, targets, i) {
      var n := i + 1;
      forall a | 0 < AmountFor(targets, a, n) ensures AllowanceSpec.Covered(m, ledger, a, spender, AmountFor(targets, a, n)) {
        assert Pair(a, spender) == Pair(t.address, spender) <==> a == t.address;
        assert AllowanceSpec.Covered(al, ledger, a, spender, AmountFor(targets, a, i));
      }
    }
  }

  lemma UsedUpStep(al: Allowances, spender: Address, targets: seq<BatchEntry>, i: nat, m: Allowances, al': Allowances)
    requires i < |targets| && 0 < targets[i].amount && NoneNegative(targets, i + 1)
    requires AllowanceSpec.UsedUp(al, targets[i].address, spender, targets[i].amount, m)
    requires AllUsedUp(m, spender, targets, i + 1, al')
    ensures AllUsedUp(al, spender, targets, i, al')
  {
    var t := targets[i];
    forall a ensures AmountFor(targets, a, i) == AmountFor(targets, a, i + 1) + if a == t.address then t.amount else 0 {
    }
    assert forall a | a != t.address :: Pair(a, spender) != Pair(t.address, spender);
  }

  lemma AllAmountsNonNegative(entries: seq<BatchEntry>, i: nat)
    requires i <= |entries| && forall j | i <= j < |entries| :: entries[j].amount > 0
    ensures NoneNegative(entries, i)
  {
    forall a ensures 0 <= AmountFor(entries, a, i) {
      AmountForNonNegative(entries, a, i);
    }
  }

  /** A batch of approved burns commits exactly when all amounts are positive and, for every owner,
      balance and approval both cover the total of its entries; it takes exactly that from both. */
  lemma {:induction false} BurnFromRestLaw(c: Ctx, s: State, spender: Address, targets: seq<BatchEntry>, i: nat)
    requires Sound(s) && i <= |targets|
    ensures BurnFromRest(c, s, spender, targets, i).Some? <==>
            && (forall j | i <= j < |targets| :: targets[j].amount > 0)
            && (forall a :: AmountFor(targets, a, i) <= Bal(s.ledger.balances, a))
            && AllCovered(s.allowances, c.ledger, spender, targets, i)
    ensures BurnFromRest(c, s, spender, targets, i).Some? ==>
              var t := BurnFromRest(c, s, spender, targets, i).value;
              && Sound(t) && t == s.(ledger := t.ledger, allowances := t.allowances)
              && t.ledger.supply == s.ledger.supply - SumRest(targets, i) && t.ledger.cap == s.ledger.cap
              && (forall a :: Bal(t.ledger.balances, a) == Bal(s.ledger.balances, a) - AmountFor(targets, a, i))
              && AllUsedUp(s.allowances, spender, targets, i, t.allowances)
    decreases |targets| - i
  {
    hide Sound, BurnApproved, AllowanceSpec.Covered, AllCovered, AllowanceSpec.UsedUp, AllUsedUp, NoneNegative;
    hide NonNegative, Sum;
    SoundBalances(s);
    if i == |targets| {
      NothingTaken(c, s, spender, targets);
    } else if forall j | i <= j < |targets| :: targets[j].amount > 0 {
      AllAmountsNonNegative(targets, i + 1);
      var t := targets[i];
      BurnApprovedLaw(c, s, spender, t.address, t.amount);
      var b := BurnApproved(c, s, spender, t.address, t.amount);
      if b.Some? {
        BurnFromRestLaw(c, b.value, spender, targets, i + 1);
        CoveredStep(s.allowances, c.ledger, spender, targets, i, b.value.allowances);
        ClawbackStep(s.ledger, b.value.ledger, targets, i);
        if BurnFromRest(c, s, spender, targets, i).Some? {
          UsedUpStep(s.allowances, spender, targets, i, b.value.allowances,
                     BurnFromRest(c, s, spender, targets, i).value.allowances);
        }
      } else {
        FirstNotCovered(s, c.ledger, spender, targets, i);
      }
    } else {
      NotAllPositive(c, s, spender, targets, i);
    }
  }

  lemma SoundBalances(s: State)
    requires Sound(s)
    ensures forall a :: 0 <= Bal(s.ledger.balances, a)
  {
  }

  lemma NothingTaken(c: Ctx, s: State, spender: Address, targets: seq<BatchEntry>)
    ensures AllCovered(s.allowances, c.ledger, spender, targets, |targets|)
    ensures AllUsedUp(s.allowances, spender, targets, |targets|, s.allowances)
  {
  }

  /** An owner who cannot cover its first entry cannot cover the total. */
  lemma FirstNotCovered(s: State, ledger: u32, spender: Address, targets: seq<BatchEntry>, i: nat)
    requires i < |targets| && 0 < targets[i].amount && NoneNegative(targets, i + 1)
    requires || !AllowanceSpec.Covered(s.allowances, ledger, targets[i].address, spender, targets[i].amount)
             || Bal(s.ledger.balances, targets[i].address) < targets[i].amount
    ensures || !AllCovered(s.allowances, ledger, spender, targets, i)
            || Bal(s.ledger.balances, targets[i].address) < AmountFor(targets, targets[i].address, i)
  {
    assert targets[i].amount <= AmountFor(targets, targets[i].address, i);
  }

  lemma {:induction false} NotAllPositive(c: Ctx, s: State, spender: Address, targets: seq<BatchEntry>, i: nat)
    requires i <= |targets| && exists j | i <= j < |targets| :: targets[j].amount <= 0
    ensures BurnFromRest(c, s, spender, targets, i).None?
    decreases |targets| - i
  {
    if targets[i].amount > 0 {
      var b := BurnApproved(c, s, spender, targets[i].address, targets[i].amount);
      if b.Some? {
        NotAllPositive(c, b.value, spender, targets, i + 1);
      }
    }
  }

  lemma {:induction false} CreditRestLaw(b: Balances, entries: seq<BatchEntry>, i: nat)
    requires NonNegative(b) && i <= |entries| && Sum(b) + SumRest(entries, i) <= I128_MAX && AllPositive(entries)
    ensures CreditRest(b, entries, i).Some?
    ensures var b' := CreditRest(b, entries, i).value;
            && NonNegative(b') && Sum(b') == Sum(b) + SumRest(entries, i)
            && forall a :: Bal(b', a) == Bal(b, a) + AmountFor(entries, a, i)
    decreases |entries| - i
  {
    if i < |entries| {
      SumRestPositive(entries, i + 1);
      CreditFacts(b, entries[i].address, entries[i].amount);
      CreditRestLaw(Credit(b, entries[i].address, entries[i].amount).value, entries, i + 1);
    }
  }

  /** A batch transfer commits exactly when the sender holds the whole total beforehand, and
      every address ends with what the entries credit to it. */
  lemma PayBatchExact(l: Ledger, from: Address, entries: seq<BatchEntry>)
    requires Conserved(l) && AllPositive(entries)
    ensures PayBatch(l.balances, from, entries).Some? <==> SumRest(entries, 0) <= Bal(l.balances, from)
    ensures PayBatch(l.balances, from, entries).Some? ==>
              var b := PayBatch(l.balances, from, entries).value;
              && Conserved(l.(balances := b))
              && forall a :: Bal(b, a) == Bal(l.balances, a) - (if a == from then SumRest(entries, 0) else 0)
                                                             + AmountFor(entries, a, 0)
  {
    SumFirstRest(entries, 0);
    SumRestPositive(entries, 0);
    var total := SumFirst(entries, |entries|);
    BalanceBounds(l, from, from);
    if FitsI128(total) {
      DebitFacts(l.balances, from, total);
      if total <= Bal(l.balances, from) {
        CreditRestLaw(Debit(l.balances, from, total).value, entries, 0);
      }
    }
  }

  /** The same list paid by single transfers, one after the other. */
  function PaySingly(b: Balances, from: Address, entries: seq<BatchEntry>, i: nat): Option<Balances>
    requires i <= |entries|
    decreases |entries| - i
  {
    if i == |entries| then Some(b) else
      var b' :- Move(b, from, entries[i].address, entries[i].amount);
      PaySingly(b', from, entries, i + 1)
  }

  lemma {:induction false} PaySinglyLaw(b: Balances, from: Address, entries: seq<BatchEntry>, i: nat)
    requires NonNegative(b) && Sum(b) <= I128_MAX && AllPositive(entries) && i <= |entries|
    requires SumRest(entries, i) <= Bal(b, from)
    ensures PaySingly(b, from, entries, i).Some?
    ensures forall a :: Bal(PaySingly(b, from, entries, i).value, a) ==
                        Bal(b, a) - (if a == from then SumRest(entries, i) else 0) + AmountFor(entries, a, i)
    decreases |entries| - i
  {
    if i < |entries| {
      var t := entries[i];
      SumRestPositive(entries, i + 1);
      MoveFacts(b, from, t.address, t.amount);
      PaySinglyLaw(Move(b, from, t.address, t.amount).value, from, entries, i + 1);
    }
  }

  /** A batch transfer commits exactly when the sender holds the whole total beforehand; every
      address ends with exactly what the entries credit to it. */
  lemma TransferBatchLaw(c: Ctx, s: State, from: Address, entries: seq<BatchEntry>)
    requires Sound(s) && c.Genuine()
    ensures TransferBatch(c, s, from, entries).Some? <==>
            && from in c.signers && |entries| <= 50 && (forall j | 0 <= j < |entries| :: entries[j].amount > 0)
            && SumRest(entries, 0) <= Bal(s.ledger.balances, from)
    ensures TransferBatch(c, s, from, entries).Some? ==>
              BatchPaid(s, from, entries, TransferBatch(c, s, from, entries).value)
  {
    if AllPositive(entries) {
      PayBatchExact(s.ledger, from, entries);
      AmountForNonNegative(entries, Contract, 0);
    }
  }

  ghost predicate BatchPaid(s: State, from: Address, entries: seq<BatchEntry>, t: State) {
    && Sound(t) && t == s.(ledger := t.ledger)
    && t.ledger.supply == s.ledger.supply && t.ledger.cap == s.ledger.cap
    && forall a :: Bal(t.ledger.balances, a) == Bal(s.ledger.balances, a)
                     - (if a == from then SumRest(entries, 0) else 0) + AmountFor(entries, a, 0)
  }

  /** With memos the only difference is that each must be within 64 bytes. */
  lemma MemoBatchLaw(c: Ctx, s: State, from: Address, entries: seq<(BatchEntry, nat)>)
    requires Sound(s) && c.Genuine()
    ensures TransferBatchWithMemo(c, s, from, entries).Some? <==>
            && from in c.signers && |entries| <= 50
            && (forall j | 0 <= j < |entries| :: entries[j].0.amount > 0 && entries[j].1 <= 64)
            && SumRest(Plain(entries), 0) <= Bal(s.ledger.balances, from)
    ensures TransferBatchWithMemo(c, s, from, entries).Some? ==>
              BatchPaid(s, from, Plain(entries), TransferBatchWithMemo(c, s, from, entries).value)
  {
    hide TransferBatch, BatchPaid, SumRest;
    TransferBatchLaw(c, s, from, Plain(entries));
    if exists t | t in entries :: t.1 > MAX_MEMO {
      var j :| 0 <= j < |entries| && entries[j].1 > MAX_MEMO;
    } else {
      forall j | 0 <= j < |entries| ensures entries[j].1 <= 64 {
        assert entries[j] in entries;
      }
      assert forall j | 0 <= j < |entries| :: Plain(entries)[j] == entries[j].0;
    }
  }

  /** A batch transfer that commits has the effect of the single transfers in order, whoever
      is listed, repeatedly or not, the sender included. */
  lemma BatchRefinesSingles(c: Ctx, s: State, from: Address, entries: seq<BatchEntry>)
    requires Sound(s) && c.Genuine() && TransferBatch(c, s, from, entries).Some?
    ensures PaySingly(s.ledger.balances, from, entries, 0).Some?
    ensures forall a :: Bal(TransferBatch(c, s, from, entries).value.ledger.balances, a)
                        == Bal(PaySingly(s.ledger.balances, from, entries, 0).value, a)
  {
    hide TransferBatch;
    TransferBatchLaw(c, s, from, entries);
    PaySinglyLaw(s.ledger.balances, from, entries, 0);
  }

  lemma MintBatchLaw(c: Ctx, s: State, admin: Address, entries: seq<BatchEntry>)
    requires Sound(s)
    ensures MintBatch(c, s, admin, entries).Some? <==>
            && admin in c.signers && admin == c.admin
            && (c.adminActiveAfter.Some? ==> c.adminActiveAfter.value <= c.ledger)
            && |entries| <= 50 && (forall j | 0 <= j < |entries| :: entries[j].amount > 0)
            && s.ledger.supply + SumRest(entries, 0) <= I128_MAX
            && (s.ledger.cap > 0 ==> s.ledger.supply + SumRest(entries, 0) <= s.ledger.cap)
    ensures MintBatch(c, s, admin, entries).Some? ==>
              var t := MintBatch(c, s, admin, entries).value;
              && Sound(t) && t == s.(ledger := t.ledger)
              && t.ledger.supply == s.ledger.supply + SumRest(entries, 0) && t.ledger.cap == s.ledger.cap
              && forall a :: Bal(t.ledger.balances, a) == Bal(s.ledger.balances, a) + AmountFor(entries, a, 0)
  {
    hide Sum;
    MintRestLaw(s.ledger, entries, 0);
    if MintRest(s.ledger, entries, 0).Some? {
      AmountForNonNegative(entries, Contract, 0);
    }
  }

  lemma ClawbackBatchLaw(c: Ctx, s: State, admin: Address, targets: seq<BatchEntry>)
    requires Sound(s)
    ensures ClawbackBatch(c, s, admin, targets).Some? <==>
            && admin in c.signers && admin == c.admin
            && (c.adminActiveAfter.Some? ==> c.adminActiveAfter.value <= c.ledger)
            && (c.cosigner.Some? ==> c.cosigner.value in c.signers) && |targets| <= 50
            && (forall j | 0 <= j < |targets| :: targets[j].amount > 0 && targets[j].address != Contract)
            && (forall a :: AmountFor(targets, a, 0) <= Bal(s.ledger.balances, a))
    ensures ClawbackBatch(c, s, admin, targets).Some? ==>
              var t := ClawbackBatch(c, s, admin, targets).value;
              && Sound(t) && t == s.(ledger := t.ledger)
              && t.ledger.supply == s.ledger.supply - SumRest(targets, 0) && t.ledger.cap == s.ledger.cap
              && forall a :: Bal(t.ledger.balances, a) == Bal(s.ledger.balances, a) - AmountFor(targets, a, 0)
  {
    hide Sum;
    ClawbackRestLaw(s.ledger, targets, 0);
    if ClawbackRest(s.ledger, targets, 0).Some? {
      NoneForContract(targets, 0);
    }
  }

  lemma BurnFromBatchLaw(c: Ctx, s: State, spender: Address, targets: seq<BatchEntry>)
    requires Sound(s)
    ensures BurnFromBatch(c, s, spender, targets).Some? <==>
            && spender in c.signers && |targets| <= 50
            && (forall j | 0 <= j < |targets| :: targets[j].amount > 0)
            && (forall a :: AmountFor(targets, a, 0) <= Bal(s.ledger.balances, a))
            && AllCovered(s.allowances, c.ledger, spender, targets, 0)
    ensures BurnFromBatch(c, s, spender, targets).Some? ==>
              var t := BurnFromBatch(c, s, spender, targets).value;
              && Sound(t) && t == s.(ledger := t.ledger, allowances := t.allowances)
              && t.ledger.supply == s.ledger.supply - SumRest(targets, 0) && t.ledger.cap == s.ledger.cap
              && (forall a :: Bal(t.ledger.balances, a) == Bal(s.ledger.balances, a) - AmountFor(targets, a, 0))
              && AllUsedUp(s.allowances, spender, targets, 0, t.allowances)
  {
    hide Sound, AllCovered, AllUsedUp, BurnFromRest;
    BurnFromRestLaw(c, s, spender, targets, 0);
  }

  // ---------- what the storage code relies on ----------

  lemma MintSound(c: Ctx, s: State, admin: Address, to: Address, amount: i128)
    requires Sound(s)
    ensures Mint(c, s, admin, to, amount).Some? ==> Sound(Mint(c, s, admin, to, amount).value)
  {
    hide Sound;
    MintLaw(c, s, admin, to, amount);
  }

  lemma BurnSound(c: Ctx, s: State, from: Address, amount: i128)
    requires Sound(s) && c.Genuine()
    ensures Burn(c, s, from, amount).Some? ==> Sound(Burn(c, s, from, amount).value)
  {
    hide Sound;
    BurnLaw(c, s, from, amount);
  }

  lemma BurnApprovedSound(c: Ctx, s: State, spender: Address, from: Address, amount: i128)
    requires Sound(s) && amount > 0
    ensures BurnApproved(c, s, spender, from, amount).Some? ==> Sound(BurnApproved(c, s, spender, from, amount).value)
  {
    hide Sound;
    BurnApprovedLaw(c, s, spender, from, amount);
  }

  lemma ClawbackSound(c: Ctx, s: State, admin: Address, from: Address, amount: i128)
    requires Sound(s)
    ensures Clawback(c, s, admin, from, amount).Some? ==> Sound(Clawback(c, s, admin, from, amount).value)
  {
    hide Sound;
    ClawbackLaw(c, s, admin, from, amount);
  }

  lemma TransferSound(c: Ctx, s: State, from: Address, to: Address, amount: i128)
    requires Sound(s) && c.Genuine()
    ensures TransferWithMemo(c, s, from, to, amount).Some? ==> Sound(TransferWithMemo(c, s, from, to, amount).value)
  {
    hide Sound;
    MemoTransferLaw(c, s, from, to, amount);
  }

  lemma TransferFromSound(c: Ctx, s: State, spender: Address, from: Address, to: Address, amount: i128)
    requires Sound(s)
    ensures TransferFrom(c, s, spender, from, to, amount).Some? ==> Sound(TransferFrom(c, s, spender, from, to, amount).value)
  {
    hide Sound;
    TransferFromLaw(c, s, spender, from, to, amount);
  }

  lemma SetCapSound(c: Ctx, s: State, admin: Address, newMax: i128)
    requires Sound(s)
    ensures SetCap(c, s, admin, newMax).Some? ==> Sound(SetCap(c, s, admin, newMax).value)
  {
  }

  lemma ClawbackBatchSound(c: Ctx, s: State, admin: Address, targets: seq<BatchEntry>)
    requires Sound(s)
    ensures ClawbackBatch(c, s, admin, targets).Some? ==> Sound(ClawbackBatch(c, s, admin, targets).value)
  {
    hide Sound;
    ClawbackBatchLaw(c, s, admin, targets);
  }

  lemma {:induction false} NoneForContract(targets: seq<BatchEntry>, i: nat)
    requires i <= |targets| && forall j | i <= j < |targets| :: targets[j].address != Contract
    ensures AmountFor(targets, Contract, i) == 0
    decreases |targets| - i
  {
    if i < |targets| {
      NoneForContract(targets, i + 1);
    }
  }

  lemma MintBatchSound(c: Ctx, s: State, admin: Address, entries: seq<BatchEntry>)
    requires Sound(s)
    ensures MintBatch(c, s, admin, entries).Some? ==> Sound(MintBatch(c, s, admin, entries).value)
  {
    hide Sound;
    MintBatchLaw(c, s, admin, entries);
  }

  lemma TransferBatchSound(c: Ctx, s: State, from: Address, entries: seq<BatchEntry>)
    requires Sound(s) && c.Genuine()
    ensures TransferBatch(c, s, from, entries).Some? ==> Sound(TransferBatch(c, s, from, entries).value)
  {
    hide Sound;
    TransferBatchLaw(c, s, from, entries);
  }

  lemma SupplyNonNegative(s: State)
    requires Sound(s)
    ensures 0 <= s.ledger.supply
  {
    BalanceBounds(s.ledger, Contract, Contract);
  }

  lemma MintAdds(l: Ledger, to: Address, amount: i128)
    ensures MintTo(l, to, amount).Some? ==> MintTo(l, to, amount).value.supply == l.supply + amount
  {
  }

  lemma SumNonNegative(entries: seq<BatchEntry>)
    requires AllPositive(entries)
    ensures 0 <= SumFirst(entries, |entries|)
  {
    SumFirstRest(entries, 0);
    SumRestPositive(entries, 0);
  }

  lemma SumFirstMonotone(entries: seq<BatchEntry>, i: nat)
    requires i <= |entries|
    ensures AllPositive(entries) ==> SumFirst(entries, i) <= SumFirst(entries, |entries|)
  {
    if AllPositive(entries) {
      SumFirstRest(entries, i);
      SumRestPositive(entries, i);
    }
  }
}
