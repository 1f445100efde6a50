/** Recurring payments: exact commit conditions and what repeated cranking achieves. */
module RecurringLaws {
  import opened Types
  import opened BalanceSpec
  import opened RecurringSpec
  import opened Invariants
  import opened SplitterLaws

  /** A schedule needs a positive amount and interval and the signatures of two different parties;
      it is anchored at the current ledger. */
  lemma SetupLaw(c: Ctx, s: State, payer: Address, payee: Address, amount: i128, interval: u32)
    requires Sound(s) && c.Genuine()
    ensures Setup(c, s, payer, payee, amount, interval).Some? <==>
            && 0 < amount && 0 < interval && payer != payee && payer in c.signers && payee in c.signers
            && s.recurrings.count < U32_MAX
    ensures Setup(c, s, payer, payee, amount, interval).Some? ==>
              var t := Setup(c, s, payer, payee, amount, interval).value;
              && Sound(t) && t.recurrings.count in t.recurrings.recs
              && var r := t.recurrings.recs[t.recurrings.count];
                 && t == s.(recurrings := s.recurrings.Add(r))
                 && r.payer == payer && r.payee == payee && r.amount == amount && r.interval == interval
                 && r.last == c.ledger && r.active && !r.paused
  {
  }

  /** A charge commits exactly when the schedule is active, not paused and due and the payer has the
      amount; then the payer pays the payee and the schedule advances by one interval, whatever the
      current ledger is. */
  lemma ExecuteLaw(c: Ctx, s: State, id: u32)
    requires Sound(s)
    ensures Execute(c, s, id).Some? <==>
            && id in s.recurrings.recs
            && var r := s.recurrings.recs[id];
               r.active && !r.paused && r.last + r.interval <= c.ledger && r.amount <= Bal(s.ledger.balances, r.payer)
    ensures Execute(c, s, id).Some? ==>
              var t := Execute(c, s, id).value;
              var r := s.recurrings.recs[id];
              && Sound(t) && Moved(s.ledger, r.payer, r.payee, r.amount, t.ledger)
              && t == s.(ledger := t.ledger, recurrings := s.recurrings.Put(id, r.(last := r.last + r.interval)))
  {
    hide EscrowsOk, DisputesOk, SplitsOk, Held, Pending;
    if id in s.recurrings.recs {
      var r := s.recurrings.recs[id];
      MoveExact(s.ledger, r.payer, r.payee, r.amount);
      if Execute(c, s, id).Some? {
        SameObligations(s, Execute(c, s, id).value);
      }
    }
  }

  /** The query answers true exactly when a charge would commit; it panics only for a missing record
      and when the next due ledger of a running schedule is not representable. */
  lemma IsExecutableLaw(c: Ctx, s: State, id: u32)
    requires Sound(s)
    ensures IsExecutable(c, s, id) == Some(true) <==> Execute(c, s, id).Some?
    ensures IsExecutable(c, s, id) == None <==>
            || id !in s.recurrings.recs
            || (var r := s.recurrings.recs[id]; r.active && !r.paused && r.last + r.interval > U32_MAX)
  {
    hide Sound;
    ExecuteLaw(c, s, id);
  }

  /** Only the payer can cancel, and can always. */
  lemma CancelLaw(c: Ctx, s: State, caller: Address, id: u32)
    requires Sound(s)
    ensures Cancel(c, s, caller, id).Some? <==>
            id in s.recurrings.recs && s.recurrings.recs[id].payer == caller && caller in c.signers
    ensures Cancel(c, s, caller, id).Some? ==>
              var t := Cancel(c, s, caller, id).value;
              Sound(t) && t == s.(recurrings := s.recurrings.Put(id, s.recurrings.recs[id].(active := false)))
  {
    hide Sound;
    if Cancel(c, s, caller, id).Some? {
      RecordSane(s, id);
      ChangeLaw(s, id, s.recurrings.recs[id].(active := false));
    }
  }

  /** Only the payer can pause or resume, and can always. */
  lemma SetPausedLaw(c: Ctx, s: State, caller: Address, id: u32, paused: bool)
    requires Sound(s)
    ensures SetPaused(c, s, caller, id, paused).Some? <==>
            id in s.recurrings.recs && s.recurrings.recs[id].payer == caller && caller in c.signers
    ensures SetPaused(c, s, caller, id, paused).Some? ==>
              var t := SetPaused(c, s, caller, id, paused).value;
              Sound(t) && t == s.(recurrings := s.recurrings.Put(id, s.recurrings.recs[id].(paused := paused)))
  {
    hide Sound;
    if SetPaused(c, s, caller, id, paused).Some? {
      RecordSane(s, id);
      ChangeLaw(s, id, s.recurrings.recs[id].(paused := paused));
    }
  }

  /** Only the payer of an active schedule can amend it; what is not given stays. */
  lemma AmendLaw(c: Ctx, s: State, caller: Address, id: u32, amount: Option<i128>, interval: Option<u32>)
    requires Sound(s)
    ensures Amend(c, s, caller, id, amount, interval).Some? <==>
            && id in s.recurrings.recs && s.recurrings.recs[id].payer == caller && caller in c.signers
            && s.recurrings.recs[id].active
            && (amount.Some? ==> amount.value > 0) && (interval.Some? ==> interval.value > 0)
    ensures Amend(c, s, caller, id, amount, interval).Some? ==>
              var t := Amend(c, s, caller, id, amount, interval).value;
              && Sound(t) && id in t.recurrings.recs
              && var r, q := s.recurrings.recs[id], t.recurrings.recs[id];
                 && t == s.(recurrings := s.recurrings.Put(id, q)) && q == r.(amount := q.amount, interval := q.interval)
                 && q.amount == (if amount.Some? then amount.value else r.amount)
                 && q.interval == (if interval.Some? then interval.value else r.interval)
  {
    hide Sound;
    if Amend(c, s, caller, id, amount, interval).Some? {
      RecordSane(s, id);
      ChangeLaw(s, id, Amend(c, s, caller, id, amount, interval).value.recurrings.recs[id]);
    }
  }

  /** An active schedule changes hands with the signatures of both payers. */
  lemma TransferPayerLaw(c: Ctx, s: State, was: Address, now: Address, id: u32)
    requires Sound(s) && c.Genuine()
    ensures TransferPayer(c, s, was, now, id).Some? <==>
            && was in c.signers && now in c.signers && was != now
            && id in s.recurrings.recs && s.recurrings.recs[id].active && s.recurrings.recs[id].payer == was
    ensures TransferPayer(c, s, was, now, id).Some? ==>
              var t := TransferPayer(c, s, was, now, id).value;
              Sound(t) && t == s.(recurrings := s.recurrings.Put(id, s.recurrings.recs[id].(payer := now)))
  {
    hide Sound;
    if TransferPayer(c, s, was, now, id).Some? {
      RecordSane(s, id);
      ChangeLaw(s, id, s.recurrings.recs[id].(payer := now));
    }
  }

  lemma SameObligations(s: State, t: State)
    requires t.escrows == s.escrows && t.disputes == s.disputes && t.splits == s.splits
    ensures Held(t) == Held(s) && Pending(t) == Pending(s)
  {
  }

  lemma ExecuteSound(c: Ctx, s: State, id: u32)
    requires Sound(s)
    ensures Execute(c, s, id).Some? ==> Sound(Execute(c, s, id).value)
  {
    hide Sound;
    ExecuteLaw(c, s, id);
  }

  lemma ChangeLaw(s: State, id: u32, r: RecurringRecord)
    requires Sound(s) && id in s.recurrings.recs
    requires r.id == id && r.payer != Contract && r.amount > 0 && r.interval > 0
    ensures Sound(s.(recurrings := s.recurrings.Put(id, r)))
  {
  }

  lemma RecordSane(s: State, id: u32)
    requires Sound(s) && id in s.recurrings.recs
    ensures var r := s.recurrings.recs[id]; r.id == id && r.payer != Contract && r.amount > 0 && r.interval > 0
  {
  }

  lemma RecurringsDense(s: State)
    requires Sound(s)
    ensures s.recurrings.Dense()
  {
  }

  lemma {:induction false} CancelRestLaw(recs: map<u32, RecurringRecord>, ids: seq<u32>, i: nat)
    requires i <= |ids| && forall id | id in ids :: id in recs
    ensures var out := CancelRest(recs, ids, i);
            && out.Keys == recs.Keys
            && forall k | k in recs :: out[k] == if k in ids[i..] then recs[k].(active := false) else recs[k]
    decreases |ids| - i
  {
    if i < |ids| {
      CancelRestLaw(recs[ids[i] := recs[ids[i]].(active := false)], ids, i + 1);
      assert ids[i..] == [ids[i]] + ids[i + 1..];
    }
  }

  /** A batch cancels all of at most 20 listed schedules or none; every one must be the payer's. */
  lemma CancelBatchLaw(c: Ctx, s: State, payer: Address, ids: seq<u32>)
    requires Sound(s)
    ensures CancelBatch(c, s, payer, ids).Some? <==>
            && payer in c.signers && |ids| <= 20
            && forall id | id in ids :: id in s.recurrings.recs && s.recurrings.recs[id].payer == payer
    ensures CancelBatch(c, s, payer, ids).Some? ==>
              var t := CancelBatch(c, s, payer, ids).value;
              && Sound(t) && t == s.(recurrings := t.recurrings) && t.recurrings.count == s.recurrings.count
              && t.recurrings.recs.Keys == s.recurrings.recs.Keys
              && forall k | k in s.recurrings.recs ::
                   t.recurrings.recs[k] == if k in ids then s.recurrings.recs[k].(active := false) else s.recurrings.recs[k]
  {
    hide EscrowsOk, DisputesOk, SplitsOk, CancelRest;
    if CancelBatch(c, s, payer, ids).Some? {
      CancelRestLaw(s.recurrings.recs, ids, 0);
      assert ids[0..] == ids;
      SameObligations(s, CancelBatch(c, s, payer, ids).value);
    }
  }

  // ---------- cranking until it refuses ----------

  /** n charges in a row within one ledger. */
  function Charges(c: Ctx, s: State, id: u32, n: nat): Option<State>
    decreases n
  {
    if n == 0 then Some(s) else
      var t :- Execute(c, s, id);
      Charges(c, t, id, n - 1)
  }

  /** The charges that have fallen due. */
  function Due(c: Ctx, r: RecurringRecord): nat
    requires r.interval > 0
  {
    if c.ledger < r.last then 0 else (c.ledger - r.last) / r.interval
  }

  /** The due charges that funds allow. A payer who is also the payee never runs out. */
  function Count(due: nat, funds: int, amount: int, toSelf: bool): int
    requires amount > 0
  {
    if funds < amount then 0 else if toSelf || due <= funds / amount then due else funds / amount
  }

  function Affordable(c: Ctx, s: State, r: RecurringRecord): int
    requires r.interval > 0 && r.amount > 0
  {
    Count(Due(c, r), Bal(s.ledger.balances, r.payer), r.amount, r.payer == r.payee)
  }

  lemma DivUnique(x: int, k: int, q: int)
    requires k > 0 && k * q <= x < k * q + k
    ensures x / k == q
  {
    var p := x / k;
    if p < q {
      MulMonotone(k, p + 1, q);
    } else if q < p {
      MulMonotone(k, q + 1, p);
    }
  }

  lemma DivStep(x: int, k: int)
    requires k > 0
    ensures (x - k) / k == x / k - 1
  {
    MulStep(k, x / k);
    DivUnique(x - k, k, x / k - 1);
  }

  lemma MulStep(k: int, n: int)
    ensures k * n == k * (n - 1) + k
  {
  }

  lemma DueStep(c: Ctx, r: RecurringRecord)
    requires r.interval > 0
    ensures Due(c, r) > 0 <==> r.last + r.interval <= c.ledger
    ensures Due(c, r) > 0 ==> Due(c, r.(last := r.last + r.interval)) == Due(c, r) - 1
  {
    if r.last + r.interval <= c.ledger {
      DivStep(c.ledger - r.last, r.interval);
    }
  }

  lemma CountStep(due: nat, funds: int, amount: int, toSelf: bool)
    requires amount > 0
    ensures 0 <= Count(due, funds, amount, toSelf)
    ensures Count(due, funds, amount, toSelf) > 0 <==> due > 0 && amount <= funds
    ensures due > 0 && amount <= funds ==>
              Count(due - 1, if toSelf then funds else funds - amount, amount, toSelf)
              == Count(due, funds, amount, toSelf) - 1
  {
    if amount <= funds {
      DivStep(funds, amount);
      DivStep(funds - amount, amount);
      assert 0 <= (funds - amount) / amount;
      if funds - amount < amount {
        DivUnique(funds - amount, amount, 0);
      }
    }
  }

  ghost predicate Chargeable(s: State, id: u32) {
    && Sound(s) && id in s.recurrings.recs
    && s.recurrings.recs[id].active && !s.recurrings.recs[id].paused
  }

  /** One charge uses up exactly one of the affordable ones. */
  lemma AffordableStep(c: Ctx, s: State, id: u32)
    requires Chargeable(s, id)
    ensures 0 <= Affordable(c, s, s.recurrings.recs[id])
    ensures Execute(c, s, id).Some? <==> Affordable(c, s, s.recurrings.recs[id]) > 0
    ensures Execute(c, s, id).Some? ==>
              var t := Execute(c, s, id).value;
              Affordable(c, t, t.recurrings.recs[id]) == Affordable(c, s, s.recurrings.recs[id]) - 1
  {
    hide Sound, Count, Due, Execute;
    var r := s.recurrings.recs[id];
    RecordSane(s, id);
    ExecuteLaw(c, s, id);
    DueStep(c, r);
    var funds, toSelf := Bal(s.ledger.balances, r.payer), r.payer == r.payee;
    CountStep(Due(c, r), funds, r.amount, toSelf);
    if Execute(c, s, id).Some? {
      var t := Execute(c, s, id).value;
      assert t.recurrings.recs[id] == r.(last := r.last + r.interval);
      assert Bal(t.ledger.balances, r.payer) == if toSelf then funds else funds - r.amount;
    } else {
      assert Due(c, r) == 0 || funds < r.amount;
    }
  }

  /** `t` is `s` after n charges of record `id`: payer and payee have changed by n amounts and
      the schedule has advanced by n intervals. */
  ghost predicate Charged(s: State, id: u32, n: int, t: State) {
    && id in s.recurrings.recs && id in t.recurrings.recs
    && var r := s.recurrings.recs[id];
       && t.recurrings.recs[id].last == r.last + r.interval * n
       && t.recurrings == s.recurrings.Put(id, r.(last := t.recurrings.recs[id].last))
       && forall a :: Bal(t.ledger.balances, a) == Bal(s.ledger.balances, a)
                        - (if a == r.payer then r.amount * n else 0) + (if a == r.payee then r.amount * n else 0)
  }

  lemma ChargedThen(s: State, t: State, u: State, id: u32, n: int)
    requires Charged(s, id, 1, t) && Charged(t, id, n - 1, u)
    ensures Charged(s, id, n, u)
  {
    var r := s.recurrings.recs[id];
    MulStep(r.interval, n);
    MulStep(r.amount, n);
    assert u.recurrings.recs == s.recurrings.recs[id := r.(last := u.recurrings.recs[id].last)];
  }

  /** Cranking an active, unpaused record at one ledger performs exactly the affordable number
      of charges and is then refused. */
  lemma {:induction false} CrankExact(c: Ctx, s: State, id: u32)
    requires Chargeable(s, id)
    ensures var n := Affordable(c, s, s.recurrings.recs[id]);
            && 0 <= n && Charges(c, s, id, n).Some?
            && var t := Charges(c, s, id, n).value;
               Sound(t) && Charged(s, id, n, t) && Execute(c, t, id).None?
    decreases Affordable(c, s, s.recurrings.recs[id])
  {
    hide Sound, Affordable, Execute;
    RecordSane(s, id);
    var n := Affordable(c, s, s.recurrings.recs[id]);
    AffordableStep(c, s, id);
    if n == 0 {
      assert s.recurrings == s.recurrings.Put(id, s.recurrings.recs[id]);
    } else {
      ExecuteLaw(c, s, id);
      var t := Execute(c, s, id).value;
      assert Charged(s, id, 1, t);
      CrankExact(c, t, id);
      ChargedThen(s, t, Charges(c, t, id, n - 1).value, id, n);
    }
  }
}
