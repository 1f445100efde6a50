/** allowance.rs on the storage cells, with the owner and spender indexes. */
module Allowances {
  import opened Types
  import opened Sums
  import Invariants
  import opened Storage
  import opened AllowanceSpec
  import TokenLaws

  // ---------- how the two indexes change ----------

  type Lists = map<Address, seq<Address>>

  lemma IndexAdded(al: Allowances, sp: Lists, ow: Lists, from: Address, spender: Address, v: Types.Allowance)
    requires AllowancesIndexed(al, sp, ow)
    ensures AllowancesIndexed(al[Pair(from, spender) := v],
                              sp[spender := With(At(sp, spender), from)], ow[from := With(At(ow, from), spender)])
  {
    hide With;
    WithFacts(At(sp, spender), from);
    WithFacts(At(ow, from), spender);
    var sp', ow' := sp[spender := With(At(sp, spender), from)], ow[from := With(At(ow, from), spender)];
    forall a ensures NoDup(At(sp', a)) && NoDup(At(ow', a)) {
      assert NoDup(At(sp, a)) && NoDup(At(ow, a));
    }
    forall k | k in al[Pair(from, spender) := v] ensures k.spender in At(ow', k.from) {
      assert k in al ==> k.spender in At(ow, k.from);
    }
    forall f, s ensures f in At(sp', s) <==> s in At(ow', f) {
      assert f in At(sp, s) <==> s in At(ow, f);
    }
  }

  lemma IndexRemoved(al: Allowances, sp: Lists, ow: Lists, from: Address, spender: Address)
    requires AllowancesIndexed(al, sp, ow)
    ensures AllowancesIndexed(al - {Pair(from, spender)},
                              sp[spender := Without(At(sp, spender), from)], ow[from := Without(At(ow, from), spender)])
  {
    var sp', ow' := sp[spender := Without(At(sp, spender), from)], ow[from := Without(At(ow, from), spender)];
    WithoutFacts(At(sp, spender), from);
    WithoutFacts(At(ow, from), spender);
    forall a ensures NoDup(At(sp', a)) && NoDup(At(ow', a)) {
      assert NoDup(At(sp, a)) && NoDup(At(ow, a));
    }
    forall f, s ensures f in At(sp', s) <==> s in At(ow', f) {
      assert f in At(sp, s) <==> s in At(ow, f);
    }
    forall k | k in al - {Pair(from, spender)} ensures k.spender in At(ow', k.from) {
      assert k.spender in At(ow, k.from);
    }
  }

  // ---------- the operations on the cells ----------

  method WriteOwnerIndex(e: Env, from: Address, spender: Address, add: bool)
    modifies e`ownerAllowances
    ensures e.ownerAllowances == old(e.ownerAllowances)[from :=
              if add then With(At(old(e.ownerAllowances), from), spender)
              else Without(At(old(e.ownerAllowances), from), spender)]
  {
    var spenders := At(e.ownerAllowances, from);
    if add {
      var listed := Contains(spenders, spender);
      if !listed {
        spenders := spenders + [spender];
      }
    } else {
      spenders := Filter(spenders, spender);
    }
    e.ownerAllowances := e.ownerAllowances[from := spenders];
  }

  method WriteAllowance(e: Env, ledger: u32, from: Address, spender: Address, amount: i128, expiration: u32)
    returns (ok: bool)
    requires AllowancesIndexed(e.allowance, e.spenderAllowances, e.ownerAllowances)
    modifies e`allowance, e`spenderAllowances, e`ownerAllowances
    ensures ok <==> Write(old(e.allowance), ledger, from, spender, amount, expiration).Some?
    ensures ok ==> e.allowance == Write(old(e.allowance), ledger, from, spender, amount, expiration).value
    ensures ok ==> AllowancesIndexed(e.allowance, e.spenderAllowances, e.ownerAllowances)
    ensures ok && amount == 0 ==>
              e.ownerAllowances == old(e.ownerAllowances)[from := Without(At(old(e.ownerAllowances), from), spender)]
  {
    if amount < 0 || expiration < ledger {
      return false;
    }
    ghost var al, sp, ow := e.allowance, e.spenderAllowances, e.ownerAllowances;
    var owners := At(e.spenderAllowances, spender);
    if amount == 0 {
      e.allowance := e.allowance - {Pair(from, spender)};
      var updated := Filter(owners, from);
      e.spenderAllowances := e.spenderAllowances[spender := updated];
      WriteOwnerIndex(e, from, spender, false);
      IndexRemoved(al, sp, ow, from, spender);
    } else {
      var v := Allowance(amount, expiration);
      IndexAdded(al, sp, ow, from, spender, v);
      var listed := Contains(owners, from);
      if !listed {
        e.spenderAllowances := e.spenderAllowances[spender := owners + [from]];
      } else {
        SameIndex(al[Pair(from, spender) := v], sp, ow[from := With(At(ow, from), spender)], spender, owners);
      }
      WriteOwnerIndex(e, from, spender, true);
      e.allowance := e.allowance[Pair(from, spender) := v];
    }
    return true;
  }

  /** Writing back the list that is filed already changes nothing an index says. */
  lemma SameIndex(al: Allowances, sp: Lists, ow: Lists, spender: Address, owners: seq<Address>)
    requires owners == At(sp, spender)
    ensures AllowancesIndexed(al, sp[spender := owners], ow) <==> AllowancesIndexed(al, sp, ow)
  {
    var sp' := sp[spender := owners];
    assert forall a :: At(sp', a) == At(sp, a);
  }

  /** An expired entry is deleted by the read; the indexes still cover what is stored. */
  method ReadAllowance(e: Env, ledger: u32, from: Address, spender: Address) returns (v: Types.Allowance)
    requires AllowancesIndexed(e.allowance, e.spenderAllowances, e.ownerAllowances)
    modifies e`allowance
    ensures v == Usable(old(e.allowance), ledger, from, spender)
    ensures e.allowance == Prune(old(e.allowance), ledger, from, spender)
    ensures AllowancesIndexed(e.allowance, e.spenderAllowances, e.ownerAllowances)
  {
    var key := Pair(from, spender);
    if key in e.allowance {
      v := e.allowance[key];
      if v.expiration < ledger {
        e.allowance := e.allowance - {key};
        v := Allowance(0, v.expiration);
      }
    } else {
      assert e.allowance - {key} == e.allowance;
      v := Allowance(0, 0);
    }
  }

  method ValidateAllowance(e: Env, ledger: u32, from: Address, spender: Address, amount: i128) returns (ok: bool)
    ensures ok <==> Validates(e.allowance, ledger, from, spender, amount)
  {
    var key := Pair(from, spender);
    var v := if key in e.allowance then e.allowance[key] else Allowance(0, 0);
    if v.expiration < ledger {
      return false;
    }
    return v.amount >= amount;
  }

  method SpendAllowance(e: Env, ledger: u32, from: Address, spender: Address, amount: i128) returns (ok: bool)
    requires AllowancesIndexed(e.allowance, e.spenderAllowances, e.ownerAllowances)
    modifies e`allowance, e`spenderAllowances, e`ownerAllowances
    ensures ok <==> Spend(old(e.allowance), ledger, from, spender, amount).Some?
    ensures ok ==> e.allowance == Spend(old(e.allowance), ledger, from, spender, amount).value
    ensures ok ==> AllowancesIndexed(e.allowance, e.spenderAllowances, e.ownerAllowances)
  {
    hide AllowancesIndexed;
    var v := ReadAllowance(e, ledger, from, spender);
    if v.expiration < ledger || v.amount < amount || !FitsI128(v.amount - amount) {
      return false;
    }
    ok := WriteAllowance(e, ledger, from, spender, v.amount - amount, v.expiration);
  }

  // ---------- seen from the whole storage: the indexes stay exact ----------

  method WriteApproval(e: Env, ledger: u32, from: Address, spender: Address, amount: i128, expiration: u32)
    returns (ok: bool)
    requires Indexed(e.Core(), e.Lookup())
    modifies e`allowance, e`spenderAllowances, e`ownerAllowances
    ensures ok <==> Write(old(e.Core()).allowances, ledger, from, spender, amount, expiration).Some?
    ensures ok ==> Indexed(e.Core(), e.Lookup())
    ensures ok ==> e.Core() == old(e.Core()).(allowances :=
                     Write(old(e.Core()).allowances, ledger, from, spender, amount, expiration).value)
  {
    hide HoldersExact, AllowancesIndexed, DepositorsIndexed, DisputesIndexed, SplitsIndexed, PayersIndexed, Write;
    ok := WriteAllowance(e, ledger, from, spender, amount, expiration);
  }

  method SpendApproval(e: Env, ledger: u32, from: Address, spender: Address, amount: i128) returns (ok: bool)
    requires Indexed(e.Core(), e.Lookup())
    modifies e`allowance, e`spenderAllowances, e`ownerAllowances
    ensures ok <==> Spend(old(e.Core()).allowances, ledger, from, spender, amount).Some?
    ensures ok ==> Indexed(e.Core(), e.Lookup())
    ensures ok ==> e.Core() == old(e.Core()).(allowances := Spend(old(e.Core()).allowances, ledger, from, spender, amount).value)
  {
    hide HoldersExact, AllowancesIndexed, DepositorsIndexed, DisputesIndexed, SplitsIndexed, PayersIndexed, Spend;
    ok := SpendAllowance(e, ledger, from, spender, amount);
  }

  // ---------- the entry points ----------

  method Approve(e: Env, c: Ctx, from: Address, spender: Address, amount: i128, expiration: u32) returns (ok: bool)
    requires e.Valid() && c.Genuine()
    modifies e`allowance, e`spenderAllowances, e`ownerAllowances
    ensures ok <==> AllowanceSpec.Approve(c, old(e.Core()).allowances, from, spender, amount, expiration).Some?
    ensures ok ==> e.Valid()
    ensures ok ==> e.Core() == old(e.Core()).(allowances :=
                     AllowanceSpec.Approve(c, old(e.Core()).allowances, from, spender, amount, expiration).value)
  {
    hide Invariants.Sound, Sane, Indexed;
    ghost var s := e.Core();
    if !c.Signed(from) {
      return false;
    }
    ok := WriteApproval(e, c.ledger, from, spender, amount, expiration);
    if ok {
      TokenLaws.ApprovalsSane(s);
      WriteSane(s.allowances, c.ledger, from, spender, amount, expiration);
      TokenLaws.AllowancesStep(s, e.Core().allowances);
    }
  }

  method ApproveBatch(e: Env, c: Ctx, from: Address, approvals: seq<Approval>) returns (ok: bool)
    requires e.Valid() && c.Genuine()
    modifies e`allowance, e`spenderAllowances, e`ownerAllowances
    ensures ok <==> AllowanceSpec.ApproveBatch(c, old(e.Core()).allowances, from, approvals).Some?
    ensures ok ==> e.Valid()
    ensures ok ==> e.Core() == old(e.Core()).(allowances := AllowanceSpec.ApproveBatch(c, old(e.Core()).allowances, from, approvals).value)
  {
    hide Invariants.Sound, Sane, Indexed;
    ghost var s := e.Core();
    if !c.Signed(from) || |approvals| > MAX_APPROVE_BATCH {
      return false;
    }
    for i := 0 to |approvals|
      invariant Indexed(e.Core(), e.Lookup()) && e.Core() == s.(allowances := e.Core().allowances)
      invariant ApproveRest(e.Core().allowances, c.ledger, from, approvals, i) == ApproveRest(s.allowances, c.ledger, from, approvals, 0)
    {
      var a := approvals[i];
      ok := WriteApproval(e, c.ledger, from, a.spender, a.amount, a.expiration);
      if !ok {
        return false;
      }
    }
    TokenLaws.ApprovalsSane(s);
    ApproveRestSane(s.allowances, c.ledger, from, approvals, 0);
    TokenLaws.AllowancesStep(s, e.Core().allowances);
    return true;
  }

  /** The entries of `from` for the listed spenders taken out. */
  ghost function Minus(al: Allowances, from: Address, spenders: seq<Address>): Allowances {
    map k | k in al && !(k.from == from && k.spender in spenders) :: al[k]
  }

  lemma MinusStep(al: Allowances, from: Address, spenders: seq<Address>, i: nat)
    requires i < |spenders|
    ensures Minus(al, from, spenders[..i + 1]) == Minus(al, from, spenders[..i]) - {Pair(from, spenders[i])}
  {
  }

  /** What the owner's list has left once the first i spenders are gone. */
  lemma LeftStep(spenders: seq<Address>, i: nat, was: seq<Address>)
    requires i < |spenders| && NoDup(spenders)
    requires forall s :: s in was <==> s in spenders[i..]
    ensures forall s :: s in Without(was, spenders[i]) <==> s in spenders[i + 1..]
  {
    WithoutFacts(was, spenders[i]);
    assert spenders[i..] == [spenders[i]] + spenders[i + 1..];
  }

  /** After all spenders are gone, nothing of the owner's is stored or listed anywhere. */
  lemma AllRevoked(al: Allowances, sp: Lists, ow: Lists, from: Address, now: Allowances, sp': Lists, ow': Lists)
    requires AllowancesIndexed(al, sp, ow) && now == Minus(al, from, At(ow, from))
    requires AllowancesIndexed(now, sp', ow') && (forall s :: s !in At(ow', from))
    ensures now == map k | k in al && k.from != from :: al[k]
    ensures AllowancesIndexed(now, sp', ow' - {from})
    ensures forall s :: from !in At(sp', s)
  {
    hide AllowancesIndexed;
    OwnListCovers(al, sp, ow, from);
    Unmentioned(now, sp', ow', from);
    Emptied(now, sp', ow', from);
  }

  lemma OwnListCovers(al: Allowances, sp: Lists, ow: Lists, from: Address)
    requires AllowancesIndexed(al, sp, ow)
    ensures forall k | k in al && k.from == from :: k.spender in At(ow, from)
  {
  }

  lemma Unmentioned(al: Allowances, sp: Lists, ow: Lists, from: Address)
    requires AllowancesIndexed(al, sp, ow) && (forall s :: s !in At(ow, from))
    ensures forall s :: from !in At(sp, s)
  {
    forall s ensures from !in At(sp, s) {
      assert from in At(sp, s) <==> s in At(ow, from);
    }
  }

  lemma ListsSome(s: seq<Address>)
    requires s != []
    ensures exists a :: a in s
  {
    assert s[0] in s;
  }

  lemma Emptied(al: Allowances, sp: Lists, ow: Lists, from: Address)
    requires AllowancesIndexed(al, sp, ow) && (forall s :: s !in At(ow, from))
    ensures AllowancesIndexed(al, sp, ow - {from})
  {
    var rest := ow - {from};
    if At(ow, from) != [] {
      ListsSome(At(ow, from));
    }
    assert forall a :: At(rest, a) == At(ow, a);
  }

  /** The loop runs over a snapshot of the owner's list, which every call shrinks. */
  method RevokeListed(e: Env, ledger: u32, from: Address)
    requires AllowancesIndexed(e.allowance, e.spenderAllowances, e.ownerAllowances)
    modifies e`allowance, e`spenderAllowances, e`ownerAllowances
    ensures AllowancesIndexed(e.allowance, e.spenderAllowances, e.ownerAllowances)
    ensures e.allowance == map k | k in old(e.allowance) && k.from != from :: old(e.allowance)[k]
    ensures from !in e.ownerAllowances && forall s :: from !in At(e.spenderAllowances, s)
  {
    hide AllowancesIndexed;
    ghost var al, sp, ow := e.allowance, e.spenderAllowances, e.ownerAllowances;
    var spenders := At(e.ownerAllowances, from);
    OwnListNoDup(al, sp, ow, from);
    assert Minus(al, from, spenders[..0]) == al;
    for i := 0 to |spenders|
      invariant AllowancesIndexed(e.allowance, e.spenderAllowances, e.ownerAllowances)
      invariant e.allowance == Minus(al, from, spenders[..i])
      invariant forall s :: s in At(e.ownerAllowances, from) <==> s in spenders[i..]
    {
      MinusStep(al, from, spenders, i);
      LeftStep(spenders, i, At(e.ownerAllowances, from));
      var written := WriteAllowance(e, ledger, from, spenders[i], 0, ledger);
    }
    assert spenders[..|spenders|] == spenders;
    AllRevoked(al, sp, ow, from, e.allowance, e.spenderAllowances, e.ownerAllowances);
    e.ownerAllowances := e.ownerAllowances - {from};
  }

  /** The owner's approvals are all withdrawn, no spender's list mentions the owner any more,
      and nobody else is affected. */
  method RevokeAllAllowances(e: Env, c: Ctx, from: Address) returns (ok: bool)
    requires e.Valid()
    modifies e`allowance, e`spenderAllowances, e`ownerAllowances
    ensures ok <==> RevokeAll(c, old(e.allowance), from).Some?
    ensures ok ==> e.Valid()
    ensures ok ==> e.Core() == old(e.Core()).(allowances := RevokeAll(c, old(e.allowance), from).value)
    ensures ok ==> from !in e.ownerAllowances && forall s :: from !in At(e.spenderAllowances, s)
  {
    hide Invariants.Sound, Sane, HoldersExact, AllowancesIndexed, DepositorsIndexed, DisputesIndexed, SplitsIndexed;
    hide PayersIndexed;
    ghost var s := e.Core();
    if !c.Signed(from) {
      return false;
    }
    RevokeListed(e, c.ledger, from);
    TokenLaws.ApprovalsSane(s);
    RevokeSane(c, s.allowances, from);
    TokenLaws.AllowancesStep(s, e.allowance);
    return true;
  }

  lemma OwnListNoDup(al: Allowances, sp: Lists, ow: Lists, from: Address)
    requires AllowancesIndexed(al, sp, ow)
    ensures NoDup(At(ow, from))
  {
  }

  /** The view entry point: it reports the usable amount and prunes. */
  method AllowanceView(e: Env, c: Ctx, from: Address, spender: Address) returns (amount: i128)
    requires e.Valid()
    modifies e`allowance
    ensures e.Valid() && amount == Usable(old(e.allowance), c.ledger, from, spender).amount
    ensures e.Core() == old(e.Core()).(allowances := Prune(old(e.allowance), c.ledger, from, spender))
  {
    hide Invariants.Sound, Sane, HoldersExact, AllowancesIndexed, DepositorsIndexed, DisputesIndexed, SplitsIndexed;
    hide PayersIndexed;
    ghost var s := e.Core();
    TokenLaws.ApprovalsSane(s);
    var v := ReadAllowance(e, c.ledger, from, spender);
    amount := v.amount;
    PruneSane(s.allowances, c.ledger, from, spender);
    TokenLaws.AllowancesStep(s, e.allowance);
  }
}
