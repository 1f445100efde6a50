/** splitter.rs without the recipient index and the statistics cells. */
module SplitterSpec {
  import opened Types
  import opened Sums
  import opened BalanceSpec

  const MAX_RECIPIENTS := 20
  const MAX_BULK := 10
  const MAX_MEMO := 64
  const BPS := 10000

  function SumBps(rs: seq<Recipient>, n: nat): int
    requires n <= |rs|
  {
    if n == 0 then 0 else SumBps(rs, n - 1) + rs[n - 1].shareBps
  }

  predicate Distinct(rs: seq<Recipient>) {
    forall i, j | 0 <= i < j < |rs| :: rs[i].address != rs[j].address
  }

  predicate ValidShares(rs: seq<Recipient>) {
    && 0 < |rs| <= MAX_RECIPIENTS
    && (forall i | 0 <= i < |rs| :: rs[i].shareBps > 0)
    && Distinct(rs)
    && SumBps(rs, |rs|) == BPS
  }

  function CreateSplit(c: Ctx, s: State, sender: Address, rs: seq<Recipient>, total: i128): Option<State> {
    if total <= 0 || !c.Signed(sender) || !ValidShares(rs) || s.splits.count == U32_MAX then None else
      var l :- MoveFunds(s.ledger, sender, Contract, total);
      Some(s.(ledger := l,
              splits := s.splits.Add(SplitRecord(s.splits.count + 1, sender, rs, total, false, false))))
  }

  function CreateSplitWithMemo(c: Ctx, s: State, sender: Address, rs: seq<Recipient>, total: i128, memo: nat)
    : Option<State>
  {
    if memo > MAX_MEMO then None else CreateSplit(c, s, sender, rs, total)
  }

  /** A proportional share, when the product is representable. */
  function ShareOf(total: i128, bps: u32): Option<i128> {
    if !FitsI128(total * bps) then None else
      assert FitsI128(Quot(total * bps, BPS));
      Some(Quot(total * bps, BPS))
  }

  /** The recipients from the i-th on are paid; the last one takes all that remains. */
  function PayRest(b: Balances, rs: seq<Recipient>, total: i128, i: nat, remaining: i128): Option<Balances>
    requires i <= |rs|
    decreases |rs| - i
  {
    if i == |rs| then Some(b) else
      var amount :- if i == |rs| - 1 then Some(remaining) else ShareOf(total, rs[i].shareBps);
      var b' :- Move(b, Contract, rs[i].address, amount);
      if !FitsI128(remaining - amount) then None
      else PayRest(b', rs, total, i + 1, remaining - amount)
  }

  /** What distributed splits have paid out so far. */
  function DistributedAt(recs: map<u32, SplitRecord>): int -> int {
    i => if i in recs && recs[i].distributed then recs[i].total else 0
  }

  function TotalDistributed(sp: Book<SplitRecord>): int {
    SumTo(sp.count, DistributedAt(sp.recs))
  }

  function Distribute(c: Ctx, s: State, caller: Address, id: u32): Option<State> {
    if !c.Signed(caller) || id !in s.splits.recs then None else
      var r := s.splits.recs[id];
      if r.sender != caller || !r.Pending() then None else
        var b :- PayRest(s.ledger.balances, r.recipients, r.total, 0, r.total);
        if !FitsI128(TotalDistributed(s.splits) + r.total) then None else
          Some(s.(ledger := s.ledger.(balances := b), splits := s.splits.Put(id, r.(distributed := true))))
  }

  function Cancel(c: Ctx, s: State, caller: Address, id: u32): Option<State> {
    if !c.Signed(caller) || id !in s.splits.recs then None else
      var r := s.splits.recs[id];
      if r.sender != caller || !r.Pending() then None else
        var l :- MoveFunds(s.ledger, Contract, caller, r.total);
        Some(s.(ledger := l, splits := s.splits.Put(id, r.(cancelled := true))))
  }

  predicate Lists(rs: seq<Recipient>, a: Address) {
    exists r | r in rs :: r.address == a
  }

  function Swapped(rs: seq<Recipient>, was: Address, now: Address): (t: seq<Recipient>)
    ensures |t| == |rs|
    ensures forall i | 0 <= i < |rs| ::
              t[i] == if rs[i].address == was then rs[i].(address := now) else rs[i]
  {
    if rs == [] then [] else
      var last := rs[|rs| - 1];
      Swapped(rs[..|rs| - 1], was, now) + [if last.address == was then last.(address := now) else last]
  }

  function Replace(c: Ctx, s: State, sender: Address, id: u32, was: Address, now: Address): Option<State> {
    if !c.Signed(sender) || id !in s.splits.recs then None else
      var r := s.splits.recs[id];
      if !r.Pending() || r.sender != sender || was == now || Lists(r.recipients, now) || !Lists(r.recipients, was)
      then None
      else Some(s.(splits := s.splits.Put(id, r.(recipients := Swapped(r.recipients, was, now)))))
  }

  function DistributeRest(c: Ctx, s: State, caller: Address, ids: seq<u32>, i: nat): Option<State>
    requires i <= |ids|
    decreases |ids| - i
  {
    if i == |ids| then Some(s) else
      var t :- Distribute(c, s, caller, ids[i]);
      DistributeRest(c, t, caller, ids, i + 1)
  }

  function BulkDistribute(c: Ctx, s: State, caller: Address, ids: seq<u32>): Option<State> {
    if || !c.Signed(caller)
       || |ids| > MAX_BULK
       || exists id | id in ids :: id !in s.splits.recs || s.splits.recs[id].sender != caller
    then None
    else DistributeRest(c, s, caller, ids, 0)
  }
}
