/** splitter.rs on the storage cells, with the recipient index and the statistics. */
module Splitter {
  import opened Types
  import opened Sums
  import opened Invariants
  import opened Storage
  import opened SplitterSpec
  import SplitterLaws
  import Balance

  // ---------- validation ----------

  lemma {:induction false} BpsNonNegative(rs: seq<Recipient>, n: nat)
    requires n <= |rs|
    ensures 0 <= SumBps(rs, n) <= SumBps(rs, |rs|)
    decreases |rs| - n
  {
    SplitterLaws.SumBpsMonotone(rs, 0, n);
    SplitterLaws.SumBpsMonotone(rs, n, |rs|);
  }

  /** The nested loops accept exactly the valid lists. */
  method CheckShares(rs: seq<Recipient>) returns (ok: bool)
    ensures ok <==> ValidShares(rs)
  {
    if |rs| == 0 || |rs| > MAX_RECIPIENTS {
      return false;
    }
    var totalBps: u32 := 0;
    for i := 0 to |rs|
      invariant totalBps == SumBps(rs, i)
      invariant forall k | 0 <= k < i :: rs[k].shareBps > 0
      invariant forall k, l | 0 <= k < i && k < l < |rs| :: rs[k].address != rs[l].address
    {
      BpsNonNegative(rs, i + 1);
      var r := rs[i];
      if r.shareBps == 0 {
        return false;
      }
      for j := i + 1 to |rs|
        invariant forall l | i < l < j :: r.address != rs[l].address
      {
        if r.address == rs[j].address {
          return false;
        }
      }
      if !FitsU32(totalBps + r.shareBps) {
        return false;
      }
      totalBps := totalBps + r.shareBps;
    }
    return totalBps == BPS;
  }

  // ---------- the recipient index ----------

  method AppendRecipientIndex(e: Env, a: Address, id: u32)
    modifies e`recipientSplits
    ensures e.recipientSplits == old(e.recipientSplits)[a := With(At(old(e.recipientSplits), a), id)]
  {
    var ids := At(e.recipientSplits, a);
    var listed := Contains(ids, id);
    if !listed {
      ids := ids + [id];
    }
    e.recipientSplits := e.recipientSplits[a := ids];
  }

  method RemoveRecipientIndex(e: Env, a: Address, id: u32)
    modifies e`recipientSplits
    ensures e.recipientSplits == old(e.recipientSplits)[a := Without(At(old(e.recipientSplits), a), id)]
  {
    var updated := Filter(At(e.recipientSplits, a), id);
    e.recipientSplits := e.recipientSplits[a := updated];
  }

  ghost predicate AppendedFor(was: AddressIndex, now: AddressIndex, rs: seq<Recipient>, n: nat, id: u32)
    requires n <= |rs|
  {
    forall a :: At(now, a) == if Lists(rs[..n], a) then With(At(was, a), id) else At(was, a)
  }

  lemma AppendedStep(was: AddressIndex, now: AddressIndex, rs: seq<Recipient>, n: nat, id: u32)
    requires n < |rs| && AppendedFor(was, now, rs, n, id)
    ensures AppendedFor(was, now[rs[n].address := With(At(now, rs[n].address), id)], rs, n + 1, id)
  {
  }

  method AppendAll(e: Env, rs: seq<Recipient>, id: u32)
    modifies e`recipientSplits
    ensures AppendedFor(old(e.recipientSplits), e.recipientSplits, rs, |rs|, id)
  {
    for i := 0 to |rs|
      invariant AppendedFor(old(e.recipientSplits), e.recipientSplits, rs, i, id)
    {
      AppendedStep(old(e.recipientSplits), e.recipientSplits, rs, i, id);
      AppendRecipientIndex(e, rs[i].address, id);
    }
  }

  // ---------- how the split indexes change ----------

  lemma RecipientsAdded(recs: map<u32, SplitRecord>, was: AddressIndex, now: AddressIndex, id: u32, r: SplitRecord)
    requires RecipientsIndexed(recs, was) && id !in recs
    requires AppendedFor(was, now, r.recipients, |r.recipients|, id)
    ensures RecipientsIndexed(recs[id := r], now)
  {
    assert r.recipients[..|r.recipients|] == r.recipients;
    forall a ensures id !in At(was, a) {
    }
  }

  lemma SplitAdded(sp: Book<SplitRecord>, was: AddressIndex, now: AddressIndex, d: u32, x: u32, v: i128, r: SplitRecord)
    requires SplitsIndexed(sp, was, d, x, v) && sp.Dense() && sp.count < U32_MAX && r.Pending()
    requires AppendedFor(was, now, r.recipients, |r.recipients|, sp.count + 1)
    ensures SplitsIndexed(sp.Add(r), now, d, x, v)
  {
    hide RecipientsIndexed, AppendedFor;
    var t := sp.Add(r);
    SumChange(sp.count, DistributedCountAt(sp.recs), DistributedCountAt(t.recs), 0);
    SumChange(sp.count, CancelledCountAt(sp.recs), CancelledCountAt(t.recs), 0);
    SumChange(sp.count, DistributedAt(sp.recs), DistributedAt(t.recs), 0);
    RecipientsAdded(sp.recs, was, now, sp.count + 1, r);
  }

  /** A pending split written back finished moves one counter and, if distributed, the value. */
  lemma SplitFinished(sp: Book<SplitRecord>, idx: AddressIndex, d: u32, x: u32, v: i128, id: u32, r: SplitRecord)
    requires SplitsIndexed(sp, idx, d, x, v) && sp.Dense() && id in sp.recs && sp.recs[id].Pending()
    requires r.recipients == sp.recs[id].recipients && r.distributed != r.cancelled && r.total == sp.recs[id].total
    ensures d + 1 <= sp.count && x + 1 <= sp.count
    ensures FitsI128(if r.distributed then v + r.total else v) ==>
              SplitsIndexed(sp.Put(id, r), idx, if r.distributed then d + 1 else d, if r.cancelled then x + 1 else x,
                            if r.distributed then v + r.total else v)
  {
    hide RecipientsIndexed;
    CountsFinished(sp, id, r);
    RecipientsKept(sp.recs, idx, id, r);
  }

  lemma CountsFinished(sp: Book<SplitRecord>, id: u32, r: SplitRecord)
    requires sp.Dense() && id in sp.recs && sp.recs[id].Pending() && r.distributed != r.cancelled && r.total == sp.recs[id].total
    ensures var n, t := sp.count, sp.Put(id, r);
            && SumTo(n, DistributedCountAt(sp.recs)) + 1 <= n && SumTo(n, CancelledCountAt(sp.recs)) + 1 <= n
            && SumTo(n, DistributedCountAt(t.recs)) == SumTo(n, DistributedCountAt(sp.recs)) + (if r.distributed then 1 else 0)
            && SumTo(n, CancelledCountAt(t.recs)) == SumTo(n, CancelledCountAt(sp.recs)) + (if r.cancelled then 1 else 0)
            && TotalDistributed(t) == TotalDistributed(sp) + (if r.distributed then r.total else 0)
  {
    var t := sp.Put(id, r);
    SumChange(sp.count, DistributedCountAt(sp.recs), DistributedCountAt(t.recs), id);
    SumChange(sp.count, CancelledCountAt(sp.recs), CancelledCountAt(t.recs), id);
    SumChange(sp.count, DistributedAt(sp.recs), DistributedAt(t.recs), id);
    Slack(sp.count, DistributedCountAt(sp.recs), id);
    Slack(sp.count, CancelledCountAt(sp.recs), id);
  }

  /** Rewriting a record under the same recipients keeps their lists exact. */
  lemma RecipientsKept(recs: map<u32, SplitRecord>, idx: AddressIndex, id: u32, r: SplitRecord)
    requires RecipientsIndexed(recs, idx) && id in recs && r.recipients == recs[id].recipients
    ensures RecipientsIndexed(recs[id := r], idx)
  {
  }

  /** A 0/1 count that misses one id is below the number of ids. */
  lemma {:induction false} Slack(n: nat, f: int -> int, id: int)
    requires forall i :: 0 <= f(i) <= 1
    requires f(id) == 0
    ensures SumTo(n, f) <= if 1 <= id <= n then n - 1 else n
  {
    if n > 0 {
      Slack(n - 1, f, id);
    }
  }

  /** Distributed, cancelled and pending splits add up to all splits. */
  lemma {:induction false} CountsAddUp(sp: Book<SplitRecord>, n: nat)
    requires SplitsOk(sp) && n <= sp.count
    ensures SumTo(n, DistributedCountAt(sp.recs)) + SumTo(n, CancelledCountAt(sp.recs)) + SumTo(n, PendingCountAt(sp.recs)) == n
  {
    if n > 0 {
      CountsAddUp(sp, n - 1);
    }
  }

  function PendingCountAt(recs: map<u32, SplitRecord>): int -> int {
    i => if i in recs && recs[i].Pending() then 1 else 0
  }

  lemma RecipientsReplaced(recs: map<u32, SplitRecord>, idx: AddressIndex, id: u32, was: Address, now: Address)
    requires RecipientsIndexed(recs, idx) && id in recs && was != now
    requires Lists(recs[id].recipients, was) && !Lists(recs[id].recipients, now)
    ensures var r := recs[id].(recipients := Swapped(recs[id].recipients, was, now));
            var mid := idx[was := Without(At(idx, was), id)];
            RecipientsIndexed(recs[id := r], mid[now := With(At(mid, now), id)])
  {
    hide Lists, Without;
    var rs := recs[id].recipients;
    var ts := Swapped(rs, was, now);
    var t := recs[id := recs[id].(recipients := ts)];
    var mid := idx[was := Without(At(idx, was), id)];
    var out := mid[now := With(At(mid, now), id)];
    assert At(mid, now) == At(idx, now);
    WithoutFacts(At(idx, was), id);
    assert id !in At(idx, now);
    forall a ensures NoDup(At(out, a)) {
      assert NoDup(At(idx, a));
    }
    forall a, i: u32 ensures i in At(out, a) <==> i in t && Lists(t[i].recipients, a) {
      SplitterLaws.SwappedLists(rs, was, now, a);
      assert i in At(idx, a) <==> i in recs && Lists(recs[i].recipients, a);
    }
  }

  lemma SplitReplaced(sp: Book<SplitRecord>, idx: AddressIndex, d: u32, x: u32, v: i128, id: u32, was: Address, now: Address)
    requires SplitsIndexed(sp, idx, d, x, v) && sp.Dense() && id in sp.recs && was != now
    requires Lists(sp.recs[id].recipients, was) && !Lists(sp.recs[id].recipients, now)
    ensures var r := sp.recs[id].(recipients := Swapped(sp.recs[id].recipients, was, now));
            var mid := idx[was := Without(At(idx, was), id)];
            SplitsIndexed(sp.Put(id, r), mid[now := With(At(mid, now), id)], d, x, v)
  {
    hide RecipientsIndexed, Lists, With, Without, At, Swapped, TotalDistributed;
    SameCounts(sp, id, Swapped(sp.recs[id].recipients, was, now));
    RecipientsReplaced(sp.recs, idx, id, was, now);
  }

  lemma SameCounts(sp: Book<SplitRecord>, id: u32, rs: seq<Recipient>)
    requires sp.Dense() && id in sp.recs
    ensures var n, t := sp.count, sp.Put(id, sp.recs[id].(recipients := rs));
            && SumTo(n, DistributedCountAt(t.recs)) == SumTo(n, DistributedCountAt(sp.recs))
            && SumTo(n, CancelledCountAt(t.recs)) == SumTo(n, CancelledCountAt(sp.recs))
            && TotalDistributed(t) == TotalDistributed(sp)
  {
    var t := sp.Put(id, sp.recs[id].(recipients := rs));
    SumChange(sp.count, DistributedCountAt(sp.recs), DistributedCountAt(t.recs), 0);
    SumChange(sp.count, CancelledCountAt(sp.recs), CancelledCountAt(t.recs), 0);
    SumChange(sp.count, DistributedAt(sp.recs), DistributedAt(t.recs), 0);
  }

  lemma SplitsDense(s: State)
    requires Sound(s)
    ensures SplitsOk(s.splits) && s.splits.Dense()
  {
  }

  // ---------- the operations ----------

  /** The record of a new split is filed and indexed under all its recipients. */
  method FileSplit(e: Env, record: SplitRecord)
    requires Indexed(e.Core(), e.Lookup()) && e.Core().splits.Dense() && e.splitCount < U32_MAX && record.Pending()
    modifies e`splitCount, e`split, e`recipientSplits
    ensures Indexed(e.Core(), e.Lookup())
    ensures e.Core() == old(e.Core()).(splits := old(e.Core()).splits.Add(record))
  {
    hide HoldersExact, AllowancesIndexed, DepositorsIndexed, DisputesIndexed, SplitsIndexed, PayersIndexed;
    ghost var sp, recipients := e.Core().splits, e.recipientSplits;
    var id := e.splitCount + 1;
    e.splitCount := id;
    e.split := e.split[id := record];
    AppendAll(e, record.recipients, id);
    SplitAdded(sp, recipients, e.recipientSplits, e.distributedCount, e.cancelledCount, e.distributedValue, record);
  }

  method CreateSplit(e: Env, c: Ctx, sender: Address, rs: seq<Recipient>, total: i128) returns (ok: bool, id: u32)
    requires e.Valid() && c.Genuine()
    modifies e`balances, e`holders, e`splitCount, e`split, e`recipientSplits
    ensures ok <==> SplitterSpec.CreateSplit(c, old(e.Core()), sender, rs, total).Some?
    ensures ok ==> e.Valid() && e.Core() == SplitterSpec.CreateSplit(c, old(e.Core()), sender, rs, total).value
    ensures ok ==> id == old(e.splitCount) + 1
  {
    hide Sound, Indexed, ValidShares;
    ghost var s := e.Core();
    id := 0;
    if total <= 0 || !c.Signed(sender) {
      return false, 0;
    }
    ok := CheckShares(rs);
    if !ok || e.splitCount == U32_MAX {
      return false, 0;
    }
    id := e.splitCount + 1;
    ok := Balance.MoveFunds(e, sender, Contract, total);
    if !ok {
      return false, 0;
    }
    SplitsDense(s);
    FileSplit(e, SplitRecord(id, sender, rs, total, false, false));
    SplitterLaws.CreateSplitSound(c, s, sender, rs, total);
  }

  method CreateSplitWithMemo(e: Env, c: Ctx, sender: Address, rs: seq<Recipient>, total: i128, memo: nat)
    returns (ok: bool, id: u32)
    requires e.Valid() && c.Genuine()
    modifies e`balances, e`holders, e`splitCount, e`split, e`recipientSplits
    ensures ok <==> SplitterSpec.CreateSplitWithMemo(c, old(e.Core()), sender, rs, total, memo).Some?
    ensures ok ==> e.Valid()
    ensures ok ==> e.Core() == SplitterSpec.CreateSplitWithMemo(c, old(e.Core()), sender, rs, total, memo).value
    ensures ok ==> id == old(e.splitCount) + 1
  {
    if memo > MAX_MEMO {
      return false, 0;
    }
    ok, id := CreateSplit(e, c, sender, rs, total);
  }

  /** The payout loop: what remains is tracked exactly and ends at zero. */
  method PayRecipients(e: Env, rs: seq<Recipient>, total: i128) returns (ok: bool)
    requires HoldersExact(e.holders, e.balances) && SplitterLaws.CanPay(e.balances, rs, total, 0, total)
    modifies e`balances, e`holders
    ensures ok <==> PayRest(old(e.balances), rs, total, 0, total).Some?
    ensures ok ==> e.balances == PayRest(old(e.balances), rs, total, 0, total).value
    ensures ok ==> HoldersExact(e.holders, e.balances)
  {
    hide HoldersExact, SplitterLaws.CanPay;
    var remaining: i128 := total;
    for i := 0 to |rs|
      invariant HoldersExact(e.holders, e.balances)
      invariant SplitterLaws.CanPay(e.balances, rs, total, i, remaining)
      invariant PayRest(e.balances, rs, total, i, remaining) == PayRest(old(e.balances), rs, total, 0, total)
    {
      var amount: i128;
      if i == |rs| - 1 {
        amount := remaining;
      } else {
        if !FitsI128(total * rs[i].shareBps) {
          return false;
        }
        var share := ShareOf(total, rs[i].shareBps);
        amount := share.value;
      }
      PayoutIs(rs, total, i, remaining, e.balances);
      SplitterLaws.PayStep(e.balances, rs, total, i, remaining);
      var moved := Balance.MoveBalance(e, Contract, rs[i].address, amount);
      remaining := remaining - amount;
    }
    return true;
  }

  /** The amount the loop computes is the promised payout. */
  lemma PayoutIs(rs: seq<Recipient>, total: i128, i: nat, remaining: i128, b: Balances)
    requires SplitterLaws.CanPay(b, rs, total, i, remaining) && i < |rs|
    requires i < |rs| - 1 ==> FitsI128(total * rs[i].shareBps)
    ensures SplitterLaws.Payout(rs, total, i) ==
            if i == |rs| - 1 then remaining else ShareOf(total, rs[i].shareBps).value
  {
    SplitterLaws.MulMonotone(total, 0, rs[i].shareBps);
  }

  /** The loop on all cells: only balances and the holder list change. */
  method PayFromCustody(e: Env, rs: seq<Recipient>, total: i128) returns (ok: bool)
    requires HoldersExact(e.Lookup().holders, e.Core().ledger.balances)
    requires SplitterLaws.CanPay(e.Core().ledger.balances, rs, total, 0, total)
    modifies e`balances, e`holders
    ensures ok <==> PayRest(old(e.Core()).ledger.balances, rs, total, 0, total).Some?
    ensures ok ==> HoldersExact(e.Lookup().holders, e.Core().ledger.balances)
    ensures ok ==> e.Core() == old(e.Core()).(ledger := old(e.Core()).ledger.(balances :=
                     PayRest(old(e.Core()).ledger.balances, rs, total, 0, total).value))
    ensures e.Lookup() == old(e.Lookup()).(holders := e.Lookup().holders)
  {
    hide HoldersExact, SplitterLaws.CanPay, PayRest;
    ok := PayRecipients(e, rs, total);
  }

  method WriteSplit(e: Env, id: u32, record: SplitRecord)
    modifies e`split
    ensures e.Core() == old(e.Core()).(splits := old(e.Core()).splits.Put(id, record))
    ensures e.Lookup() == old(e.Lookup())
  {
    e.split := e.split[id := record];
  }

  /** The statistics cells move with a distribution. */
  method CountDistributed(e: Env, total: i128) returns (ok: bool)
    requires e.Lookup().distributedCount < U32_MAX
    modifies e`distributedCount, e`distributedValue
    ensures e.Core() == old(e.Core())
    ensures ok <==> FitsI128(old(e.Lookup()).distributedValue + total)
    ensures ok ==> e.Lookup() == old(e.Lookup()).(distributedCount := old(e.Lookup()).distributedCount + 1,
                                                  distributedValue := old(e.Lookup()).distributedValue + total)
  {
    e.distributedCount := e.distributedCount + 1;
    if !FitsI128(e.distributedValue + total) {
      return false;
    }
    e.distributedValue := e.distributedValue + total;
    return true;
  }

  lemma DistributionReady(s: State, x: Indexes, id: u32)
    requires Indexed(s, x) && s.splits.Dense() && id in s.splits.recs && s.splits.recs[id].Pending()
    ensures HoldersExact(x.holders, s.ledger.balances)
    ensures x.distributedCount < U32_MAX && x.distributedValue == TotalDistributed(s.splits)
  {
    var done := s.splits.recs[id].(distributed := true);
    SplitFinished(s.splits, x.recipientSplits, x.distributedCount, x.cancelledCount, x.distributedValue, id, done);
  }

  lemma DistributionIndexed(s: State, x: Indexes, id: u32, b: Balances, holders: seq<Address>)
    requires Indexed(s, x) && s.splits.Dense() && id in s.splits.recs && s.splits.recs[id].Pending()
    requires HoldersExact(holders, b) && x.distributedCount < U32_MAX
    requires FitsI128(x.distributedValue + s.splits.recs[id].total)
    ensures Indexed(s.(ledger := s.ledger.(balances := b), splits := s.splits.Put(id, s.splits.recs[id].(distributed := true))),
                    x.(holders := holders, distributedCount := x.distributedCount + 1,
                       distributedValue := x.distributedValue + s.splits.recs[id].total))
  {
    hide HoldersExact, AllowancesIndexed, DepositorsIndexed, DisputesIndexed, SplitsIndexed, PayersIndexed;
    var done := s.splits.recs[id].(distributed := true);
    SplitFinished(s.splits, x.recipientSplits, x.distributedCount, x.cancelledCount, x.distributedValue, id, done);
  }

  /** The record is marked before the payout loop; the statistics follow the loop. */
  method PaySplit(e: Env, id: u32, record: SplitRecord) returns (ok: bool)
    requires Indexed(e.Core(), e.Lookup()) && e.Core().splits.Dense()
    requires id in e.Core().splits.recs && record == e.Core().splits.recs[id] && record.Pending()
    requires SplitterLaws.CanPay(e.Core().ledger.balances, record.recipients, record.total, 0, record.total)
    modifies e`balances, e`holders, e`split, e`distributedCount, e`distributedValue
    ensures ok <==> PayRest(old(e.Core()).ledger.balances, record.recipients, record.total, 0, record.total).Some?
                    && FitsI128(TotalDistributed(old(e.Core()).splits) + record.total)
    ensures ok ==> Indexed(e.Core(), e.Lookup())
    ensures ok ==> e.Core() == old(e.Core()).(
                     ledger := old(e.Core()).ledger.(balances :=
                       PayRest(old(e.Core()).ledger.balances, record.recipients, record.total, 0, record.total).value),
                     splits := old(e.Core()).splits.Put(id, record.(distributed := true)))
  {
    hide Env.Core, Env.Lookup, Indexed, HoldersExact, SplitterLaws.CanPay, PayRest, TotalDistributed;
    ghost var s, x := e.Core(), e.Lookup();
    DistributionReady(s, x, id);
    WriteSplit(e, id, record.(distributed := true));
    ok := PayFromCustody(e, record.recipients, record.total);
    if !ok {
      return false;
    }
    ok := CountDistributed(e, record.total);
    if ok {
      DistributionIndexed(s, x, id, e.Core().ledger.balances, e.Lookup().holders);
    }
  }

  method Distribute(e: Env, c: Ctx, caller: Address, id: u32) returns (ok: bool)
    requires e.Valid()
    modifies e`balances, e`holders, e`split, e`distributedCount, e`distributedValue
    ensures ok <==> SplitterSpec.Distribute(c, old(e.Core()), caller, id).Some?
    ensures ok ==> e.Valid() && e.Core() == SplitterSpec.Distribute(c, old(e.Core()), caller, id).value
  {
    hide Sound, Indexed, PayRest, TotalDistributed, SplitterLaws.CanPay, SplitsOk;
    ghost var s := e.Core();
    if !c.Signed(caller) || id !in e.split {
      return false;
    }
    var record := e.split[id];
    if record.sender != caller || record.distributed || record.cancelled {
      return false;
    }
    SplitterLaws.PendingCanPay(s, id);
    SplitsDense(s);
    ok := PaySplit(e, id, record);
    if ok {
      SplitterLaws.DistributeSound(c, s, caller, id);
    }
  }

  /** The record is written back cancelled and counted. */
  method FileCancelled(e: Env, id: u32)
    requires Indexed(e.Core(), e.Lookup()) && e.Core().splits.Dense() && id in e.split && e.split[id].Pending()
    modifies e`split, e`cancelledCount
    ensures Indexed(e.Core(), e.Lookup())
    ensures e.Core() == old(e.Core()).(splits := old(e.Core()).splits.Put(id, old(e.split)[id].(cancelled := true)))
  {
    hide HoldersExact, AllowancesIndexed, DepositorsIndexed, DisputesIndexed, SplitsIndexed, PayersIndexed;
    var done := e.split[id].(cancelled := true);
    SplitFinished(e.Core().splits, e.recipientSplits, e.distributedCount, e.cancelledCount, e.distributedValue, id, done);
    e.split := e.split[id := done];
    e.cancelledCount := e.cancelledCount + 1;
  }

  method CancelSplit(e: Env, c: Ctx, caller: Address, id: u32) returns (ok: bool)
    requires e.Valid()
    modifies e`balances, e`holders, e`split, e`cancelledCount
    ensures ok <==> SplitterSpec.Cancel(c, old(e.Core()), caller, id).Some?
    ensures ok ==> e.Valid() && e.Core() == SplitterSpec.Cancel(c, old(e.Core()), caller, id).value
  {
    hide Sound, Indexed;
    ghost var s := e.Core();
    if !c.Signed(caller) || id !in e.split {
      return false;
    }
    var record := e.split[id];
    if record.sender != caller || record.distributed || record.cancelled {
      return false;
    }
    SplitterLaws.PendingCanPay(s, id);
    ok := Balance.MoveFunds(e, Contract, caller, record.total);
    if !ok {
      return false;
    }
    SplitsDense(s);
    FileCancelled(e, id);
    SplitterLaws.CancelSound(c, s, caller, id);
  }

  /** The replacement loop, which sets matching entries in place and stops at a duplicate. */
  method ReplaceIn(rs: seq<Recipient>, was: Address, now: Address) returns (ok: bool, updated: seq<Recipient>)
    requires was != now
    ensures ok <==> Lists(rs, was) && !Lists(rs, now)
    ensures ok ==> updated == Swapped(rs, was, now)
  {
    updated := rs;
    var found := false;
    for i := 0 to |rs|
      invariant |updated| == |rs|
      invariant forall k | 0 <= k < i :: updated[k] == Swapped(rs, was, now)[k] && rs[k].address != now
      invariant forall k | i <= k < |rs| :: updated[k] == rs[k]
      invariant found <==> exists k | 0 <= k < i :: rs[k].address == was
    {
      var r := updated[i];
      if r.address == was {
        updated := updated[i := Recipient(now, r.shareBps)];
        found := true;
      } else if r.address == now {
        assert rs[i] in rs;
        return false, rs;
      }
    }
    if found {
      var k :| 0 <= k < |rs| && rs[k].address == was;
      assert rs[k] in rs;
    }
    return found, updated;
  }

  /** The new list is written back and the index follows it. */
  method FileReplaced(e: Env, id: u32, was: Address, now: Address, updated: seq<Recipient>)
    requires Indexed(e.Core(), e.Lookup()) && e.Core().splits.Dense() && id in e.split && was != now
    requires Lists(e.split[id].recipients, was) && !Lists(e.split[id].recipients, now)
    requires updated == Swapped(e.split[id].recipients, was, now)
    modifies e`split, e`recipientSplits
    ensures Indexed(e.Core(), e.Lookup())
    ensures e.Core() == old(e.Core()).(splits := old(e.Core()).splits.Put(id, old(e.split)[id].(recipients := updated)))
  {
    hide HoldersExact, AllowancesIndexed, DepositorsIndexed, DisputesIndexed, SplitsIndexed, PayersIndexed, Lists;
    hide Swapped;
    SplitReplaced(e.Core().splits, e.recipientSplits, e.distributedCount, e.cancelledCount, e.distributedValue, id, was, now);
    e.split := e.split[id := e.split[id].(recipients := updated)];
    RemoveRecipientIndex(e, was, id);
    AppendRecipientIndex(e, now, id);
  }

  method ReplaceSplitRecipient(e: Env, c: Ctx, sender: Address, id: u32, was: Address, now: Address) returns (ok: bool)
    requires e.Valid()
    modifies e`split, e`recipientSplits
    ensures ok <==> SplitterSpec.Replace(c, old(e.Core()), sender, id, was, now).Some?
    ensures ok ==> e.Valid() && e.Core() == SplitterSpec.Replace(c, old(e.Core()), sender, id, was, now).value
  {
    hide Sound, Indexed, Lists, Swapped;
    ghost var s := e.Core();
    if !c.Signed(sender) || id !in e.split {
      return false;
    }
    var record := e.split[id];
    if record.distributed || record.cancelled || record.sender != sender || was == now {
      return false;
    }
    var found, updated := ReplaceIn(record.recipients, was, now);
    if !found {
      return false;
    }
    SplitsDense(s);
    FileReplaced(e, id, was, now, updated);
    SplitterLaws.ReplaceSound(c, s, sender, id, was, now);
    return true;
  }

  /** The first pass over the ids, before any funds move. */
  method AllSentBy(e: Env, caller: Address, ids: seq<u32>) returns (ok: bool)
    ensures ok <==> forall id | id in ids :: id in e.Core().splits.recs && e.Core().splits.recs[id].sender == caller
  {
    for i := 0 to |ids|
      invariant forall k | 0 <= k < i :: ids[k] in e.split && e.split[ids[k]].sender == caller
    {
      if ids[i] !in e.split || e.split[ids[i]].sender != caller {
        assert ids[i] in ids;
        return false;
      }
    }
    return true;
  }

  method BulkDistribute(e: Env, c: Ctx, caller: Address, ids: seq<u32>) returns (ok: bool)
    requires e.Valid()
    modifies e`balances, e`holders, e`split, e`distributedCount, e`distributedValue
    ensures ok <==> SplitterSpec.BulkDistribute(c, old(e.Core()), caller, ids).Some?
    ensures ok ==> e.Valid() && e.Core() == SplitterSpec.BulkDistribute(c, old(e.Core()), caller, ids).value
  {
    hide Sound, Indexed, SplitterSpec.Distribute, Env.Core;
    if !c.Signed(caller) || |ids| > MAX_BULK {
      return false;
    }
    ok := AllSentBy(e, caller, ids);
    if !ok {
      return false;
    }
    for i := 0 to |ids|
      invariant e.Valid()
      invariant DistributeRest(c, e.Core(), caller, ids, i) == DistributeRest(c, old(e.Core()), caller, ids, 0)
    {
      ok := Distribute(e, c, caller, ids[i]);
      if !ok {
        return false;
      }
    }
    return true;
  }
}
