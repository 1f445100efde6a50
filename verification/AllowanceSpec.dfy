/** allowance.rs without its indexes: what an approval is worth. */
module AllowanceSpec {
  import opened Types

  function Stored(al: Allowances, from: Address, spender: Address): Allowance {
    if Pair(from, spender) in al then al[Pair(from, spender)] else Allowance(0, 0)
  }

  function Write(al: Allowances, ledger: u32, from: Address, spender: Address, amount: i128, expiration: u32)
    : Option<Allowances>
  {
    if amount < 0 || expiration < ledger then None
    else if amount == 0 then Some(al - {Pair(from, spender)})
    else Some(al[Pair(from, spender) := Allowance(amount, expiration)])
  }

  /** Reading an expired entry deletes it. */
  function Prune(al: Allowances, ledger: u32, from: Address, spender: Address): Allowances {
    if Stored(al, from, spender).expiration < ledger then al - {Pair(from, spender)} else al
  }

  /** What the read returns. */
  function Usable(al: Allowances, ledger: u32, from: Address, spender: Address): Allowance {
    var v := Stored(al, from, spender);
    if v.expiration < ledger then v.(amount := 0) else v
  }

  predicate Validates(al: Allowances, ledger: u32, from: Address, spender: Address, amount: i128) {
    var v := Stored(al, from, spender);
    ledger <= v.expiration && amount <= v.amount
  }

  function Spend(al: Allowances, ledger: u32, from: Address, spender: Address, amount: i128)
    : Option<Allowances>
  {
    var v := Stored(al, from, spender);
    if v.expiration < ledger || v.amount < amount || !FitsI128(v.amount - amount) then None
    else Write(al, ledger, from, spender, v.amount - amount, v.expiration)
  }

  function RevokeAll(c: Ctx, al: Allowances, from: Address): Option<Allowances> {
    if !c.Signed(from) then None
    else Some(map k | k in al && k.from != from :: al[k])
  }

  function Approve(c: Ctx, al: Allowances, from: Address, spender: Address, amount: i128, expiration: u32)
    : Option<Allowances>
  {
    if !c.Signed(from) then None else Write(al, c.ledger, from, spender, amount, expiration)
  }

  datatype Approval = Approval(spender: Address, amount: i128, expiration: u32)

  const MAX_APPROVE_BATCH := 20

  function ApproveRest(al: Allowances, ledger: u32, from: Address, approvals: seq<Approval>, i: nat)
    : Option<Allowances>
    requires i <= |approvals|
    decreases |approvals| - i
  {
    if i == |approvals| then Some(al) else
      var a := approvals[i];
      var al' :- Write(al, ledger, from, a.spender, a.amount, a.expiration);
      ApproveRest(al', ledger, from, approvals, i + 1)
  }

  function ApproveBatch(c: Ctx, al: Allowances, from: Address, approvals: seq<Approval>): Option<Allowances> {
    if !c.Signed(from) || |approvals| > MAX_APPROVE_BATCH then None
    else ApproveRest(al, c.ledger, from, approvals, 0)
  }

  // ---------- properties ----------

  /** The contract has approved nobody, and an entry that is stored is worth something. */
  ghost predicate Sane(al: Allowances) {
    forall k | k in al :: k.from != Contract && al[k].amount > 0
  }

  /** The spender has an approval that covers `amount` and has not expired. */
  ghost predicate Covered(al: Allowances, ledger: u32, from: Address, spender: Address, amount: int) {
    var k := Pair(from, spender);
    k in al && ledger <= al[k].expiration && amount <= al[k].amount
  }

  /** `amount` of one approval has been used: the rest keeps its expiry, nothing is kept of an
      approval without a rest, and no other approval is affected. */
  ghost predicate UsedUp(al: Allowances, from: Address, spender: Address, amount: int, al': Allowances) {
    var k := Pair(from, spender);
    && k in al
    && (if amount == al[k].amount then k !in al'
        else k in al' && al'[k].amount == al[k].amount - amount && al'[k].expiration == al[k].expiration)
    && forall other: Pair | other != k :: (other in al' <==> other in al) && (other in al ==> al'[other] == al[other])
  }

  /** The read-only check passes exactly when spending that amount would commit, that is, when an
      unexpired approval covers it; the spend uses up exactly that amount. */
  lemma SpendExact(al: Allowances, ledger: u32, from: Address, spender: Address, amount: i128)
    requires 0 <= amount
    ensures Validates(al, ledger, from, spender, amount) <==> Spend(al, ledger, from, spender, amount).Some?
    ensures 0 < amount ==> (Spend(al, ledger, from, spender, amount).Some? <==> Covered(al, ledger, from, spender, amount))
    ensures Spend(al, ledger, from, spender, amount).Some? ==>
              var al' := Spend(al, ledger, from, spender, amount).value;
              && ledger <= Stored(al, from, spender).expiration
              && Stored(al', from, spender).amount == Stored(al, from, spender).amount - amount
              && (forall k | k != Pair(from, spender) :: Stored(al', k.from, k.spender) == Stored(al, k.from, k.spender))
              && (0 < amount ==> UsedUp(al, from, spender, amount, al'))
              && (Sane(al) && 0 < amount ==> Sane(al') && from != Contract)
  {
  }

  /** After a spend exactly the rest can be spent later, and not beyond the original expiry. */
  lemma RestExact(al: Allowances, ledger: u32, from: Address, spender: Address, amount: i128)
    requires 0 < amount && Spend(al, ledger, from, spender, amount).Some?
    ensures var al', k := Spend(al, ledger, from, spender, amount).value, Pair(from, spender);
            k in al && forall later: u32, x: i128 | ledger <= later && 0 < x ::
                         Spend(al', later, from, spender, x).Some? <==> later <= al[k].expiration && x <= al[k].amount - amount
  {
    var al' := Spend(al, ledger, from, spender, amount).value;
    forall later: u32, x: i128 | ledger <= later && 0 < x
      ensures Spend(al', later, from, spender, x).Some? <==>
              later <= al[Pair(from, spender)].expiration && x <= al[Pair(from, spender)].amount - amount
    {
      SpendExact(al, ledger, from, spender, amount);
      SpendExact(al', later, from, spender, x);
    }
  }

  /** An approval needs its owner, an amount that is not negative and an expiry that has not
      passed. Afterwards the spender can spend, in any later ledger up to the expiry, exactly the
      amounts up to the approved one; no other approval is affected. */
  lemma ApproveExact(c: Ctx, al: Allowances, from: Address, spender: Address, amount: i128, expiration: u32)
    ensures Approve(c, al, from, spender, amount, expiration).Some? <==>
            from in c.signers && 0 <= amount && c.ledger <= expiration
    ensures Approve(c, al, from, spender, amount, expiration).Some? ==>
              var al' := Approve(c, al, from, spender, amount, expiration).value;
              && (forall ledger: u32, x: i128 | c.ledger <= ledger && 0 < x ::
                    Spend(al', ledger, from, spender, x).Some? <==> ledger <= expiration && x <= amount)
              && (forall k | k != Pair(from, spender) ::
                    (k in al' <==> k in al) && Stored(al', k.from, k.spender) == Stored(al, k.from, k.spender))
  {
  }

  /** The approval stored for `k` is what entry `a` of a batch asks for. */
  ghost predicate AsAsked(al: Allowances, k: Pair, a: Approval) {
    if a.amount == 0 then k !in al else k in al && al[k] == Allowance(a.amount, a.expiration)
  }

  /** Of several approvals for one spender the last one stands; approvals that are not listed stay. */
  ghost predicate BatchWritten(al: Allowances, from: Address, approvals: seq<Approval>, i: nat, al': Allowances)
    requires i <= |approvals|
  {
    && (forall j | i <= j < |approvals| ::
          (forall l | j < l < |approvals| :: approvals[l].spender != approvals[j].spender) ==>
            AsAsked(al', Pair(from, approvals[j].spender), approvals[j]))
    && (forall k: Pair :: (k.from == from ==> forall j | i <= j < |approvals| :: approvals[j].spender != k.spender) ==>
          (k in al' <==> k in al) && (k in al ==> al'[k] == al[k]))
  }

  lemma {:induction false} ApproveRestExact(al: Allowances, ledger: u32, from: Address, approvals: seq<Approval>, i: nat)
    requires i <= |approvals|
    ensures ApproveRest(al, ledger, from, approvals, i).Some? <==>
            forall j | i <= j < |approvals| :: 0 <= approvals[j].amount && ledger <= approvals[j].expiration
    ensures ApproveRest(al, ledger, from, approvals, i).Some? ==>
              BatchWritten(al, from, approvals, i, ApproveRest(al, ledger, from, approvals, i).value)
    decreases |approvals| - i
  {
    if i < |approvals| {
      var a := approvals[i];
      var w := Write(al, ledger, from, a.spender, a.amount, a.expiration);
      if w.Some? {
        ApproveRestExact(w.value, ledger, from, approvals, i + 1);
        if ApproveRest(al, ledger, from, approvals, i).Some? {
          BatchStep(al, w.value, from, approvals, i, ApproveRest(al, ledger, from, approvals, i).value);
        }
      }
    }
  }

  lemma BatchStep(al: Allowances, w: Allowances, from: Address, approvals: seq<Approval>, i: nat, al': Allowances)
    requires i < |approvals| && BatchWritten(w, from, approvals, i + 1, al')
    requires AsAsked(w, Pair(from, approvals[i].spender), approvals[i])
    requires forall k: Pair | k != Pair(from, approvals[i].spender) :: (k in w <==> k in al) && (k in al ==> w[k] == al[k])
    ensures BatchWritten(al, from, approvals, i, al')
  {
  }

  /** A batch of approvals commits all or nothing: the owner has signed, there are at most 20, and
      every one of them could be made. */
  lemma ApproveBatchExact(c: Ctx, al: Allowances, from: Address, approvals: seq<Approval>)
    ensures ApproveBatch(c, al, from, approvals).Some? <==>
            && from in c.signers && |approvals| <= 20
            && forall j | 0 <= j < |approvals| :: 0 <= approvals[j].amount && c.ledger <= approvals[j].expiration
    ensures ApproveBatch(c, al, from, approvals).Some? ==>
              BatchWritten(al, from, approvals, 0, ApproveBatch(c, al, from, approvals).value)
  {
    ApproveRestExact(al, c.ledger, from, approvals, 0);
  }

  /** Only the owner can revoke; then nothing of its is stored and everything else is unchanged. */
  lemma RevokeExact(c: Ctx, al: Allowances, from: Address)
    ensures RevokeAll(c, al, from).Some? <==> from in c.signers
    ensures RevokeAll(c, al, from).Some? ==>
              var al' := RevokeAll(c, al, from).value;
              && (forall k | k in al' :: k.from != from)
              && (forall k | k in al && k.from != from :: k in al' && al'[k] == al[k])
              && (forall k | k in al' :: k in al)
  {
  }

  /** Reading reports what can be spent now, and the pruning it does is never noticed: any later
      spend, of this approval or another, succeeds exactly as it would have without the read. */
  lemma ReadExact(al: Allowances, ledger: u32, from: Address, spender: Address)
    requires Sane(al)
    ensures forall x: i128 | 0 < x :: Spend(al, ledger, from, spender, x).Some? <==> x <= Usable(al, ledger, from, spender).amount
    ensures forall later: u32, f, sp, x: i128 | ledger <= later && 0 < x ::
              Spend(Prune(al, ledger, from, spender), later, f, sp, x).Some? <==> Spend(al, later, f, sp, x).Some?
    ensures forall k | k in Prune(al, ledger, from, spender) :: k in al && Prune(al, ledger, from, spender)[k] == al[k]
    ensures forall k | k in al && k !in Prune(al, ledger, from, spender) ::
              k == Pair(from, spender) && al[k].expiration < ledger
  {
  }

  lemma WriteSane(al: Allowances, ledger: u32, from: Address, spender: Address, amount: i128, expiration: u32)
    requires Sane(al) && from != Contract
    ensures Write(al, ledger, from, spender, amount, expiration).Some? ==>
              Sane(Write(al, ledger, from, spender, amount, expiration).value)
  {
  }

  lemma {:induction false} ApproveRestSane(al: Allowances, ledger: u32, from: Address, approvals: seq<Approval>, i: nat)
    requires i <= |approvals| && Sane(al) && from != Contract
    ensures ApproveRest(al, ledger, from, approvals, i).Some? ==>
              Sane(ApproveRest(al, ledger, from, approvals, i).value)
    decreases |approvals| - i
  {
    if i < |approvals| {
      var a := approvals[i];
      var w := Write(al, ledger, from, a.spender, a.amount, a.expiration);
      if w.Some? {
        WriteSane(al, ledger, from, a.spender, a.amount, a.expiration);
        ApproveRestSane(w.value, ledger, from, approvals, i + 1);
      }
    }
  }

  lemma PruneSane(al: Allowances, ledger: u32, from: Address, spender: Address)
    requires Sane(al)
    ensures Sane(Prune(al, ledger, from, spender))
  {
  }

  lemma RevokeSane(c: Ctx, al: Allowances, from: Address)
    requires Sane(al) && RevokeAll(c, al, from).Some?
    ensures Sane(RevokeAll(c, al, from).value)
  {
  }
}
