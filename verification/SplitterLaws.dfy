/** Splits: exact payouts, when each operation commits, and what it keeps. */
module SplitterLaws {
  import opened Types
  import opened Sums
  import opened BalanceSpec
  import opened SplitterSpec
  import opened Invariants

  // ---------- the arithmetic of shares ----------

  /** The rounded shares of the first n recipients. */
  function Rounded(rs: seq<Recipient>, total: int, n: nat): int
    requires n <= |rs|
  {
    if n == 0 then 0 else Rounded(rs, total, n - 1) + total * rs[n - 1].shareBps / BPS
  }

  /** What recipient i is promised: its rounded share, or for the last one all the rest. */
  function Payout(rs: seq<Recipient>, total: int, i: nat): int
    requires i < |rs|
  {
    if i == |rs| - 1 then total - Rounded(rs, total, |rs| - 1) else total * rs[i].shareBps / BPS
  }

  /** Rounding down loses less than one unit per recipient. */
  lemma {:induction false} RoundedBounds(rs: seq<Recipient>, total: int, n: nat)
    requires n <= |rs| && 0 <= total
    ensures 0 <= Rounded(rs, total, n)
    ensures BPS * Rounded(rs, total, n) <= total * SumBps(rs, n) <= BPS * Rounded(rs, total, n) + (BPS - 1) * n
  {
    if n > 0 {
      RoundedBounds(rs, total, n - 1);
      var x := total * rs[n - 1].shareBps;
      assert total * SumBps(rs, n) == total * SumBps(rs, n - 1) + x;
      assert 0 <= x && BPS * (x / BPS) <= x <= BPS * (x / BPS) + BPS - 1;
    }
  }

  lemma {:induction false} SumBpsMonotone(rs: seq<Recipient>, n: nat, m: nat)
    requires n <= m <= |rs|
    ensures SumBps(rs, n) <= SumBps(rs, m)
    ensures forall i | n <= i < m :: rs[i].shareBps <= SumBps(rs, m) - SumBps(rs, n)
  {
    if n < m {
      SumBpsMonotone(rs, n, m - 1);
    }
  }

  lemma MulMonotone(k: int, x: int, y: int)
    requires 0 <= k && x <= y
    ensures k * x <= k * y
  {
  }

  /** The rounded shares of a valid list never exceed the total. */
  lemma RoundedFits(rs: seq<Recipient>, total: int, n: nat)
    requires ValidShares(rs) && n <= |rs| && 0 <= total
    ensures 0 <= Rounded(rs, total, n) <= total
  {
    RoundedBounds(rs, total, n);
    SumBpsMonotone(rs, n, |rs|);
    MulMonotone(total, SumBps(rs, n), BPS);
  }

  /** The last recipient gets its own rounded share plus at most one unit for each of the others. */
  lemma LastPayout(rs: seq<Recipient>, total: int)
    requires ValidShares(rs) && 0 <= total
    ensures var own := total * rs[|rs| - 1].shareBps / BPS;
            own <= Payout(rs, total, |rs| - 1) <= own + |rs| - 1
  {
    var n := |rs| - 1;
    RoundedBounds(rs, total, n);
    assert total * BPS == total * SumBps(rs, n) + total * rs[n].shareBps;
  }

  // ---------- who receives what ----------

  /** What address `a` receives from the recipients from the i-th on. */
  function Received(rs: seq<Recipient>, total: int, a: Address, i: nat): int
    requires i <= |rs|
    decreases |rs| - i
  {
    if i == |rs| then 0
    else (if rs[i].address == a then Payout(rs, total, i) else 0) + Received(rs, total, a, i + 1)
  }

  /** Recipients are distinct, so each one receives its own payout and nobody else anything. */
  lemma {:induction false} ReceivedExact(rs: seq<Recipient>, total: int, a: Address, i: nat)
    requires i <= |rs| && Distinct(rs)
    ensures forall j | i <= j < |rs| && rs[j].address == a :: Received(rs, total, a, i) == Payout(rs, total, j)
    ensures (forall j | i <= j < |rs| :: rs[j].address != a) ==> Received(rs, total, a, i) == 0
    decreases |rs| - i
  {
    if i < |rs| {
      ReceivedExact(rs, total, a, i + 1);
    }
  }

  predicate ProductsFit(rs: seq<Recipient>, total: int, i: nat) {
    forall j | i <= j < |rs| - 1 :: FitsI128(total * rs[j].shareBps)
  }

  ghost predicate CanPay(b: Balances, rs: seq<Recipient>, total: i128, i: nat, remaining: int) {
    && NonNegative(b) && Sum(b) <= I128_MAX
    && ValidShares(rs) && 0 < total && i <= |rs|
    && remaining == (if i < |rs| then total - Rounded(rs, total, i) else 0)
    && remaining <= Bal(b, Contract)
  }

  /** One recipient is paid its payout, which is never more than what remains. */
  lemma PayStep(b: Balances, rs: seq<Recipient>, total: i128, i: nat, remaining: i128)
    requires CanPay(b, rs, total, i, remaining) && i < |rs|
    requires i < |rs| - 1 ==> FitsI128(total * rs[i].shareBps)
    ensures var amount := Payout(rs, total, i);
            && 0 <= amount <= remaining
            && Move(b, Contract, rs[i].address, amount).Some?
            && var b' := Move(b, Contract, rs[i].address, amount).value;
               && CanPay(b', rs, total, i + 1, remaining - amount) && Sum(b') == Sum(b)
               && PayRest(b, rs, total, i, remaining) == PayRest(b', rs, total, i + 1, remaining - amount)
               && forall a :: Bal(b', a) == Bal(b, a) - (if a == Contract then amount else 0)
                                                      + (if a == rs[i].address then amount else 0)
  {
    RoundedFits(rs, total, i);
    if i < |rs| - 1 {
      RoundedFits(rs, total, i + 1);
      MulMonotone(total, 0, rs[i].shareBps);
    }
    MoveFacts(b, Contract, rs[i].address, Payout(rs, total, i));
  }

  /** Paying out from custody that still holds what remains fails only on an unrepresentable
      product; what remains is never negative and ends at zero. */
  lemma {:induction false} PayRestLaw(b: Balances, rs: seq<Recipient>, total: i128, i: nat, remaining: i128)
    requires CanPay(b, rs, total, i, remaining)
    ensures PayRest(b, rs, total, i, remaining).Some? <==> ProductsFit(rs, total, i)
    ensures PayRest(b, rs, total, i, remaining).Some? ==>
              var b' := PayRest(b, rs, total, i, remaining).value;
              && NonNegative(b') && Sum(b') == Sum(b)
              && forall a :: Bal(b', a) == Bal(b, a) - (if a == Contract then remaining else 0)
                                                     + Received(rs, total, a, i)
    decreases |rs| - i
  {
    if i < |rs| {
      if i == |rs| - 1 || FitsI128(total * rs[i].shareBps) {
        PayStep(b, rs, total, i, remaining);
        var amount := Payout(rs, total, i);
        PayRestLaw(Move(b, Contract, rs[i].address, amount).value, rs, total, i + 1, remaining - amount);
        assert ProductsFit(rs, total, i) <==> ProductsFit(rs, total, i + 1);
      } else {
        assert !ProductsFit(rs, total, i);
      }
    }
  }

  // ---------- how the records change ----------

  lemma SplitFiled(sp: Book<SplitRecord>, r: SplitRecord)
    requires SplitsOk(sp) && sp.count < U32_MAX
    requires r.id == sp.count + 1 && r.total > 0 && r.sender != Contract && ValidShares(r.recipients) && r.Pending()
    ensures SplitsOk(sp.Add(r))
  {
  }

  lemma SplitFinished(sp: Book<SplitRecord>, id: u32, r: SplitRecord)
    requires SplitsOk(sp) && id in sp.recs && sp.recs[id].Pending()
    requires r == sp.recs[id].(distributed := true) || r == sp.recs[id].(cancelled := true)
    ensures SplitsOk(sp.Put(id, r))
  {
  }

  lemma SplitRelisted(sp: Book<SplitRecord>, id: u32, r: SplitRecord)
    requires SplitsOk(sp) && id in sp.recs && r == sp.recs[id].(recipients := r.recipients) && ValidShares(r.recipients)
    ensures SplitsOk(sp.Put(id, r))
  {
  }

  lemma DistributedNonNegative(sp: Book<SplitRecord>)
    requires SplitsOk(sp)
    ensures 0 <= TotalDistributed(sp)
  {
    SumBounds(sp.count, DistributedAt(sp.recs), 0);
  }

  lemma SameHeld(s: State, t: State)
    requires t.escrows == s.escrows && t.disputes == s.disputes
    ensures Held(t) == Held(s)
  {
  }

  // ---------- the operations ----------

  lemma SharesValid(rs: seq<Recipient>)
    ensures ValidShares(rs) <==>
            && 0 < |rs| <= 20 && (forall i | 0 <= i < |rs| :: rs[i].shareBps > 0)
            && (forall i, j | 0 <= i < j < |rs| :: rs[i].address != rs[j].address) && SumBps(rs, |rs|) == 10000
  {
  }

  /** A split needs a valid list and a total its sender holds, which moves into custody. */
  lemma CreateSplitLaw(c: Ctx, s: State, sender: Address, rs: seq<Recipient>, total: i128)
    requires Sound(s) && c.Genuine()
    ensures CreateSplit(c, s, sender, rs, total).Some? <==>
            && 0 < total <= Bal(s.ledger.balances, sender) && sender in c.signers && s.splits.count < U32_MAX
            && 0 < |rs| <= 20 && (forall i | 0 <= i < |rs| :: rs[i].shareBps > 0)
            && (forall i, j | 0 <= i < j < |rs| :: rs[i].address != rs[j].address) && SumBps(rs, |rs|) == 10000
    ensures CreateSplit(c, s, sender, rs, total).Some? ==>
              var t := CreateSplit(c, s, sender, rs, total).value;
              && Sound(t) && Pending(t) == Pending(s) + total
              && Moved(s.ledger, sender, Contract, total, t.ledger)
              && t.splits.count == s.splits.count + 1 && t.splits.count in t.splits.recs
              && var r := t.splits.recs[t.splits.count];
                 && t == s.(ledger := t.ledger, splits := s.splits.Add(r))
                 && r.sender == sender && r.recipients == rs && r.total == total && !r.distributed && !r.cancelled
  {
    hide Sound, EscrowsOk, DisputesOk, RecurringsOk, Held, Pending, ValidShares;
    Parts(s);
    SharesValid(rs);
    if total > 0 {
      MoveExact(s.ledger, sender, Contract, total);
      var r := CreateSplit(c, s, sender, rs, total);
      if r.Some? {
        SplitFiled(s.splits, r.value.splits.recs[s.splits.count + 1]);
        PendingAdd(s, r.value, r.value.splits.recs[s.splits.count + 1]);
        SameHeld(s, r.value);
        Assemble(s, r.value);
      }
    }
  }

  /** With a memo the only difference is that it must be within 64 bytes. */
  lemma MemoSplitLaw(c: Ctx, s: State, sender: Address, rs: seq<Recipient>, total: i128, memo: nat)
    ensures CreateSplitWithMemo(c, s, sender, rs, total, memo) ==
            if memo <= 64 then CreateSplit(c, s, sender, rs, total) else None
  {
  }

  /** Distribution of a pending split by its sender fails only when a product or the running
      statistic is not representable. It takes exactly the total out of custody and gives every
      recipient exactly its payout. */
  lemma DistributeLaw(c: Ctx, s: State, caller: Address, id: u32)
    requires Sound(s)
    ensures Distribute(c, s, caller, id).Some? <==>
            && caller in c.signers && id in s.splits.recs
            && var r := s.splits.recs[id];
               && r.sender == caller && r.Pending() && ProductsFit(r.recipients, r.total, 0)
               && TotalDistributed(s.splits) + r.total <= I128_MAX
    ensures Distribute(c, s, caller, id).Some? ==>
              var t := Distribute(c, s, caller, id).value;
              var r := s.splits.recs[id];
              && Sound(t) && Pending(t) == Pending(s) - r.total && t == s.(ledger := t.ledger, splits := t.splits)
              && t.ledger.supply == s.ledger.supply && t.ledger.cap == s.ledger.cap
              && t.splits == s.splits.Put(id, r.(distributed := true))
              && TotalDistributed(t.splits) == TotalDistributed(s.splits) + r.total
              && forall a :: Bal(t.ledger.balances, a) == Bal(s.ledger.balances, a)
                               - (if a == Contract then r.total else 0) + Received(r.recipients, r.total, a, 0)
  {
    hide Sound, EscrowsOk, DisputesOk, RecurringsOk, Held, Pending, ValidShares, PayRest, CanPay, TotalDistributed;
    hide Received, ProductsFit;
    Parts(s);
    if id in s.splits.recs && s.splits.recs[id].Pending() {
      var r := s.splits.recs[id];
      PendingCanPay(s, id);
      PayRestLaw(s.ledger.balances, r.recipients, r.total, 0, r.total);
      DistributedNonNegative(s.splits);
      var o := Distribute(c, s, caller, id);
      if o.Some? {
        SplitFinished(s.splits, id, o.value.splits.recs[id]);
        PendingChange(s, o.value, id, o.value.splits.recs[id]);
        ReceivedNonNegative(r.recipients, r.total, Contract, 0);
        SameHeld(s, o.value);
        Assemble(s, o.value);
      }
    }
  }

  lemma {:induction false} ReceivedNonNegative(rs: seq<Recipient>, total: int, a: Address, i: nat)
    requires ValidShares(rs) && 0 <= total && i <= |rs|
    ensures 0 <= Received(rs, total, a, i)
    decreases |rs| - i
  {
    if i < |rs| {
      ReceivedNonNegative(rs, total, a, i + 1);
      RoundedFits(rs, total, |rs| - 1);
      assert 0 <= total * rs[i].shareBps;
    }
  }

  /** The sender of a pending split can always cancel it and gets the whole total back. */
  lemma CancelLaw(c: Ctx, s: State, caller: Address, id: u32)
    requires Sound(s)
    ensures Cancel(c, s, caller, id).Some? <==>
            && caller in c.signers && id in s.splits.recs
            && s.splits.recs[id].sender == caller && s.splits.recs[id].Pending()
    ensures Cancel(c, s, caller, id).Some? ==>
              var t := Cancel(c, s, caller, id).value;
              && Sound(t) && Pending(t) == Pending(s) - s.splits.recs[id].total
              && Moved(s.ledger, Contract, caller, s.splits.recs[id].total, t.ledger)
              && t == s.(ledger := t.ledger, splits := t.splits)
              && t.splits == s.splits.Put(id, s.splits.recs[id].(cancelled := true))
              && TotalDistributed(t.splits) == TotalDistributed(s.splits)
  {
    hide Sound, EscrowsOk, DisputesOk, RecurringsOk, Held, Pending, ValidShares, TotalDistributed;
    Parts(s);
    if id in s.splits.recs && s.splits.recs[id].Pending() {
      CustodyCovers(s, id);
      MoveExact(s.ledger, Contract, caller, s.splits.recs[id].total);
      var o := Cancel(c, s, caller, id);
      if o.Some? {
        SplitFinished(s.splits, id, o.value.splits.recs[id]);
        PendingChange(s, o.value, id, o.value.splits.recs[id]);
        SameHeld(s, o.value);
        Assemble(s, o.value);
      }
    }
  }

  /** Swapping one address in keeps the shares and every other recipient. */
  lemma {:induction false} SwappedBps(rs: seq<Recipient>, was: Address, now: Address, n: nat)
    requires n <= |rs|
    ensures SumBps(Swapped(rs, was, now), n) == SumBps(rs, n)
  {
    if n > 0 {
      SwappedBps(rs, was, now, n - 1);
    }
  }

  lemma SwappedLists(rs: seq<Recipient>, was: Address, now: Address, a: Address)
    requires was != now && Lists(rs, was)
    ensures Lists(Swapped(rs, was, now), a) <==> a == now || (a != was && Lists(rs, a))
  {
  }

  lemma ListsAt(rs: seq<Recipient>, a: Address)
    ensures Lists(rs, a) <==> exists i | 0 <= i < |rs| :: rs[i].address == a
  {
    forall i | 0 <= i < |rs| && rs[i].address == a ensures Lists(rs, a) {
      assert rs[i] in rs;
    }
  }

  /** `q` is `r` with `now` in the place and with the share of `was`. */
  ghost predicate Relisted(r: SplitRecord, was: Address, now: Address, q: SplitRecord) {
    && q == r.(recipients := q.recipients) && |q.recipients| == |r.recipients|
    && forall i | 0 <= i < |r.recipients| ::
         && q.recipients[i].shareBps == r.recipients[i].shareBps
         && q.recipients[i].address == if r.recipients[i].address == was then now else r.recipients[i].address
  }

  /** Replacing a recipient is its sender's right while the split is pending; the new address
      takes over the place and the share, the list stays valid and no funds move. */
  lemma ReplaceLaw(c: Ctx, s: State, sender: Address, id: u32, was: Address, now: Address)
    requires Sound(s)
    ensures Replace(c, s, sender, id, was, now).Some? <==>
            && sender in c.signers && id in s.splits.recs
            && var r := s.splits.recs[id];
               && r.sender == sender && !r.distributed && !r.cancelled
               && (exists i | 0 <= i < |r.recipients| :: r.recipients[i].address == was)
               && (forall i | 0 <= i < |r.recipients| :: r.recipients[i].address != now)
    ensures Replace(c, s, sender, id, was, now).Some? ==>
              var t := Replace(c, s, sender, id, was, now).value;
              && id in t.splits.recs
              && Relisted(s.splits.recs[id], was, now, t.splits.recs[id])
              && t == s.(splits := s.splits.Put(id, t.splits.recs[id]))
              && Sound(t) && Pending(t) == Pending(s)
              && TotalDistributed(t.splits) == TotalDistributed(s.splits)
  {
    hide Sound, EscrowsOk, DisputesOk, RecurringsOk, Held, Pending, ValidShares, TotalDistributed, Swapped, Lists;
    Parts(s);
    if id in s.splits.recs {
      ListsAt(s.splits.recs[id].recipients, was);
      ListsAt(s.splits.recs[id].recipients, now);
    }
    var o := Replace(c, s, sender, id, was, now);
    if o.Some? {
      SwappedValid(s.splits.recs[id].recipients, was, now);
      PendingChange(s, o.value, id, o.value.splits.recs[id]);
      SplitRelisted(s.splits, id, o.value.splits.recs[id]);
      SameHeld(s, o.value);
      Assemble(s, o.value);
    }
  }

  lemma SwappedValid(rs: seq<Recipient>, was: Address, now: Address)
    requires ValidShares(rs) && !Lists(rs, now)
    ensures ValidShares(Swapped(rs, was, now))
  {
    SwappedBps(rs, was, now, |rs|);
    forall i | 0 <= i < |rs| ensures rs[i].address != now {
      assert rs[i] in rs;
    }
  }

  // ---------- distributing many splits ----------

  /** What splits ids[i..] are to pay out in all. */
  function TotalOf(recs: map<u32, SplitRecord>, ids: seq<u32>, i: nat): int
    requires i <= |ids|
    decreases |ids| - i
  {
    if i == |ids| then 0 else (if ids[i] in recs then recs[ids[i]].total else 0) + TotalOf(recs, ids, i + 1)
  }

  /** What address `a` receives from splits ids[i..]. */
  function ReceivedFrom(recs: map<u32, SplitRecord>, ids: seq<u32>, a: Address, i: nat): int
    requires i <= |ids|
    decreases |ids| - i
  {
    if i == |ids| then 0
    else (if ids[i] in recs then Received(recs[ids[i]].recipients, recs[ids[i]].total, a, 0) else 0)
         + ReceivedFrom(recs, ids, a, i + 1)
  }

  /** Splits ids[i..] are all different, pending, of this sender and payable. */
  ghost predicate AllPayable(recs: map<u32, SplitRecord>, caller: Address, ids: seq<u32>, i: nat) {
    && (forall j | i <= j < |ids| ::
          && ids[j] in recs && recs[ids[j]].sender == caller
          && !recs[ids[j]].distributed && !recs[ids[j]].cancelled
          && ProductsFit(recs[ids[j]].recipients, recs[ids[j]].total, 0))
    && (forall j, l | i <= j < l < |ids| :: ids[j] != ids[l])
  }

  /** Exactly splits ids[i..] have become distributed. */
  ghost predicate AllDistributed(recs: map<u32, SplitRecord>, ids: seq<u32>, i: nat, out: map<u32, SplitRecord>) {
    && out.Keys == recs.Keys
    && forall k | k in recs ::
         out[k] == if exists j :: i <= j < |ids| && ids[j] == k then recs[k].(distributed := true) else recs[k]
  }

  lemma {:induction false} SamePayouts(recs: map<u32, SplitRecord>, id: u32, ids: seq<u32>, a: Address, i: nat)
    requires i <= |ids| && id in recs
    ensures TotalOf(recs[id := recs[id].(distributed := true)], ids, i) == TotalOf(recs, ids, i)
    ensures ReceivedFrom(recs[id := recs[id].(distributed := true)], ids, a, i) == ReceivedFrom(recs, ids, a, i)
    decreases |ids| - i
  {
    if i < |ids| {
      SamePayouts(recs, id, ids, a, i + 1);
    }
  }

  lemma {:induction false} TotalOfNonNegative(sp: Book<SplitRecord>, ids: seq<u32>, i: nat)
    requires SplitsOk(sp) && i <= |ids|
    ensures 0 <= TotalOf(sp.recs, ids, i)
    decreases |ids| - i
  {
    if i < |ids| {
      TotalOfNonNegative(sp, ids, i + 1);
    }
  }

  lemma PayableStep(recs: map<u32, SplitRecord>, caller: Address, ids: seq<u32>, i: nat)
    requires i < |ids| && ids[i] in recs && recs[ids[i]].sender == caller && recs[ids[i]].Pending()
    requires ProductsFit(recs[ids[i]].recipients, recs[ids[i]].total, 0)
    ensures AllPayable(recs[ids[i] := recs[ids[i]].(distributed := true)], caller, ids, i + 1)
            <==> AllPayable(recs, caller, ids, i)
  {
    hide ProductsFit;
  }

  lemma DistributedStep(recs: map<u32, SplitRecord>, ids: seq<u32>, i: nat, out: map<u32, SplitRecord>)
    requires i < |ids| && ids[i] in recs
    requires AllDistributed(recs[ids[i] := recs[ids[i]].(distributed := true)], ids, i + 1, out)
    ensures AllDistributed(recs, ids, i, out)
  {
  }

  /** The splits are distributed in turn, all or nothing. Nothing is paid for a split that is listed
      twice: it is not pending any more when its second turn comes. */
  lemma {:induction false} DistributeRestLaw(c: Ctx, s: State, caller: Address, ids: seq<u32>, i: nat)
    requires Sound(s) && i <= |ids|
    ensures DistributeRest(c, s, caller, ids, i).Some? <==>
            i == |ids| || (&& caller in c.signers && AllPayable(s.splits.recs, caller, ids, i)
                           && TotalDistributed(s.splits) + TotalOf(s.splits.recs, ids, i) <= I128_MAX)
    ensures DistributeRest(c, s, caller, ids, i).Some? ==>
              BulkPaid(s, ids, i, DistributeRest(c, s, caller, ids, i).value)
    decreases |ids| - i
  {
    hide Sound, Distribute, ProductsFit, AllPayable, AllDistributed, TotalDistributed, Received, Pending, SplitsOk;
    if i == |ids| {
      NoneDistributed(s, ids);
    } else {
      var id, n := ids[i], i + 1;
      DistributeLaw(c, s, caller, id);
      FirstPayable(s.splits.recs, caller, ids, i);
      Parts(s);
      TotalOfNonNegative(s.splits, ids, i + 1);
      var o := Distribute(c, s, caller, id);
      if o.Some? {
        DistributeRestLaw(c, o.value, caller, ids, i + 1);
        PayableStep(s.splits.recs, caller, ids, i);
        NoneLeft(o.value.splits.recs, caller, ids);
        SamePayouts(s.splits.recs, id, ids, Contract, n);
        forall a ensures ReceivedFrom(o.value.splits.recs, ids, a, n) == ReceivedFrom(s.splits.recs, ids, a, n) {
          SamePayouts(s.splits.recs, id, ids, a, n);
        }
        if DistributeRest(c, s, caller, ids, i).Some? {
          DistributedStep(s.splits.recs, ids, i, DistributeRest(c, s, caller, ids, i).value.splits.recs);
        }
      }
    }
  }

  /** Exactly splits ids[i..] have been distributed: each address has what they pay to it, and
      custody has shrunk by their totals. */
  ghost predicate BulkPaid(s: State, ids: seq<u32>, i: nat, t: State)
    requires i <= |ids|
  {
    && Sound(t) && t == s.(ledger := t.ledger, splits := t.splits)
    && t.ledger.supply == s.ledger.supply && t.ledger.cap == s.ledger.cap
    && t.splits.count == s.splits.count && AllDistributed(s.splits.recs, ids, i, t.splits.recs)
    && forall a :: Bal(t.ledger.balances, a) == Bal(s.ledger.balances, a)
                     - (if a == Contract then TotalOf(s.splits.recs, ids, i) else 0)
                     + ReceivedFrom(s.splits.recs, ids, a, i)
  }

  lemma NoneDistributed(s: State, ids: seq<u32>)
    requires Sound(s)
    ensures BulkPaid(s, ids, |ids|, s)
  {
  }

  lemma NoneLeft(recs: map<u32, SplitRecord>, caller: Address, ids: seq<u32>)
    ensures AllPayable(recs, caller, ids, |ids|)
  {
  }

  lemma FirstPayable(recs: map<u32, SplitRecord>, caller: Address, ids: seq<u32>, i: nat)
    requires i < |ids|
    ensures AllPayable(recs, caller, ids, i) ==>
              && ids[i] in recs && recs[ids[i]].sender == caller && recs[ids[i]].Pending()
              && ProductsFit(recs[ids[i]].recipients, recs[ids[i]].total, 0)
  {
    hide ProductsFit;
  }

  /** A bulk distribution commits exactly when the caller signs, lists at most 10 splits, and these
      are all different, pending, its own and payable; it then distributes exactly these. */
  lemma BulkDistributeLaw(c: Ctx, s: State, caller: Address, ids: seq<u32>)
    requires Sound(s)
    ensures BulkDistribute(c, s, caller, ids).Some? <==>
            && caller in c.signers && |ids| <= 10 && AllPayable(s.splits.recs, caller, ids, 0)
            && (ids != [] ==> TotalDistributed(s.splits) + TotalOf(s.splits.recs, ids, 0) <= I128_MAX)
    ensures BulkDistribute(c, s, caller, ids).Some? ==>
              BulkPaid(s, ids, 0, BulkDistribute(c, s, caller, ids).value)
  {
    hide Sound, DistributeRest, ProductsFit, BulkPaid, TotalDistributed, TotalOf;
    DistributeRestLaw(c, s, caller, ids, 0);
    if AllPayable(s.splits.recs, caller, ids, 0) {
      forall id | id in ids ensures id in s.splits.recs && s.splits.recs[id].sender == caller {
        var j :| 0 <= j < |ids| && ids[j] == id;
      }
    }
  }

  // ---------- what the storage code relies on ----------

  /** Custody can pay out any pending split. */
  lemma PendingCanPay(s: State, id: u32)
    requires Sound(s) && id in s.splits.recs && s.splits.recs[id].Pending()
    ensures var r := s.splits.recs[id];
            0 < r.total && CanPay(s.ledger.balances, r.recipients, r.total, 0, r.total)
  {
    CustodyCovers(s, id);
  }

  lemma CreateSplitSound(c: Ctx, s: State, sender: Address, rs: seq<Recipient>, total: i128)
    requires Sound(s) && c.Genuine() && CreateSplit(c, s, sender, rs, total).Some?
    ensures Sound(CreateSplit(c, s, sender, rs, total).value)
  {
    CreateSplitLaw(c, s, sender, rs, total);
  }

  lemma DistributeSound(c: Ctx, s: State, caller: Address, id: u32)
    requires Sound(s) && Distribute(c, s, caller, id).Some?
    ensures Sound(Distribute(c, s, caller, id).value)
  {
    DistributeLaw(c, s, caller, id);
  }

  lemma CancelSound(c: Ctx, s: State, caller: Address, id: u32)
    requires Sound(s) && Cancel(c, s, caller, id).Some?
    ensures Sound(Cancel(c, s, caller, id).value)
  {
    CancelLaw(c, s, caller, id);
  }

  lemma ReplaceSound(c: Ctx, s: State, sender: Address, id: u32, was: Address, now: Address)
    requires Sound(s) && Replace(c, s, sender, id, was, now).Some?
    ensures Sound(Replace(c, s, sender, id, was, now).value)
  {
    ReplaceLaw(c, s, sender, id, was, now);
  }
}
