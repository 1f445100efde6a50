/** The read-only queries of escrow.rs, against what they are to report. */
module EscrowQueries {
  import opened Types
  import opened Sums
  import opened BalanceSpec
  import opened Invariants
  import opened Storage

  function Active(recs: map<u32, EscrowRecord>, i: int): bool {
    i in recs && !recs[i].Settled()
  }

  function LockedAt(recs: map<u32, EscrowRecord>): int -> int {
    i => if Active(recs, i) then recs[i].amount else 0
  }

  function LockedForAt(recs: map<u32, EscrowRecord>, depositor: Address): int -> int {
    i => if Active(recs, i) && recs[i].depositor == depositor then recs[i].amount else 0
  }

  function ActiveAt(recs: map<u32, EscrowRecord>): int -> int {
    i => if Active(recs, i) then 1 else 0
  }

  function SettledAt(recs: map<u32, EscrowRecord>): int -> int {
    i => if i in recs && recs[i].Settled() then 1 else 0
  }

  // ---------- whole-contract statistics ----------

  datatype EscrowStats = EscrowStats(total: u32, active: u32, settled: u32, locked: i128)

  /** The running total never overflows: it is covered by what the contract holds. */
  lemma LockedFits(s: State, i: nat)
    requires Sound(s) && i <= s.escrows.count
    ensures 0 <= SumTo(i, LockedAt(s.escrows.recs)) <= Held(s) <= I128_MAX
  {
    SumMonotone(i, s.escrows.count, LockedAt(s.escrows.recs), HeldAt(s.escrows.recs, s.disputes.recs));
    CustodyCovers(s, 0);
  }

  /** What the statistics report as locked, together with all pending splits, is in custody. */
  lemma LockedInCustody(s: State)
    requires Sound(s)
    ensures SumTo(s.escrows.count, LockedAt(s.escrows.recs)) + Pending(s) <= Bal(s.ledger.balances, Contract)
  {
    LockedFits(s, s.escrows.count);
  }

  lemma {:induction false} ActiveOrSettled(es: Book<EscrowRecord>, n: nat)
    requires es.Dense() && n <= es.count
    ensures SumTo(n, ActiveAt(es.recs)) + SumTo(n, SettledAt(es.recs)) == n
    ensures 0 <= SumTo(n, ActiveAt(es.recs)) <= n
  {
    if n > 0 {
      ActiveOrSettled(es, n - 1);
    }
  }

  lemma StatsFit(s: State, i: nat)
    requires Sound(s) && i <= s.escrows.count
    ensures 0 <= SumTo(i, LockedAt(s.escrows.recs)) <= I128_MAX
    ensures 0 <= SumTo(i, ActiveAt(s.escrows.recs)) <= i
    ensures SumTo(i, ActiveAt(s.escrows.recs)) + SumTo(i, SettledAt(s.escrows.recs)) == i
  {
    hide Held, Pending, DisputesOk, SplitsOk, RecurringsOk, Conserved;
    LockedFits(s, i);
    ActiveOrSettled(s.escrows, i);
  }

  /** The reported numbers are the counts of active and settled records and the sum of the
      active amounts. */
  method Stats(e: Env) returns (st: EscrowStats)
    requires e.Valid()
    ensures st.total == e.escrowCount
    ensures st.active == SumTo(e.escrowCount, ActiveAt(e.escrow))
    ensures st.settled == SumTo(e.escrowCount, SettledAt(e.escrow))
    ensures st.locked == SumTo(e.escrowCount, LockedAt(e.escrow))
  {
    hide Sound, Indexed;
    ghost var s := e.Core();
    var count, recs := e.escrowCount, e.escrow;
    var active: u32 := 0;
    var locked: i128 := 0;
    for id: int := 1 to count + 1
      invariant active == SumTo(id - 1, ActiveAt(recs))
      invariant locked == SumTo(id - 1, LockedAt(recs))
    {
      StatsFit(s, id);
      if id in recs && !recs[id].released && !recs[id].refunded {
        active := active + 1;
        locked := locked + recs[id].amount;
      }
    }
    StatsFit(s, count);
    st := EscrowStats(count, active, count - active, locked);
  }

  // ---------- queries through the depositor index ----------

  /** A depositor's list has exactly its escrows, in ascending order. */
  lemma {:induction false} EscrowIdsExact(recs: map<u32, EscrowRecord>, n: u32, d: Address)
    ensures var ids := EscrowIds(recs, n, d);
            && (forall i: u32 :: i in ids <==> 1 <= i <= n && i in recs && recs[i].depositor == d)
            && (forall j, k | 0 <= j < k < |ids| :: ids[j] < ids[k])
  {
    if n > 0 {
      EscrowIdsExact(recs, n - 1, d);
      var ids := EscrowIds(recs, n - 1, d);
      forall j | 0 <= j < |ids| ensures ids[j] <= n - 1 {
        assert ids[j] in ids;
      }
      if n in recs && recs[n].depositor == d {
        assert EscrowIds(recs, n, d) == ids + [n];
      }
    }
  }

  /** What the first k listed escrows have locked. */
  function ListedValue(recs: map<u32, EscrowRecord>, ids: seq<u32>, k: nat): int
    requires k <= |ids|
  {
    if k == 0 then 0 else ListedValue(recs, ids, k - 1) + LockedAt(recs)(ids[k - 1])
  }

  lemma {:induction false} ListedPrefix(recs: map<u32, EscrowRecord>, ids: seq<u32>, more: seq<u32>, k: nat)
    requires k <= |ids|
    ensures ListedValue(recs, ids + more, k) == ListedValue(recs, ids, k)
  {
    if k > 0 {
      ListedPrefix(recs, ids, more, k - 1);
    }
  }

  lemma {:induction false} ListedIsSum(recs: map<u32, EscrowRecord>, n: u32, d: Address)
    ensures ListedValue(recs, EscrowIds(recs, n, d), |EscrowIds(recs, n, d)|) == SumTo(n, LockedForAt(recs, d))
  {
    if n > 0 {
      ListedIsSum(recs, n - 1, d);
      var ids := EscrowIds(recs, n - 1, d);
      if n in recs && recs[n].depositor == d {
        ListedPrefix(recs, ids, [n], |ids|);
        assert EscrowIds(recs, n, d) == ids + [n];
        assert LockedForAt(recs, d)(n) == LockedAt(recs)(n);
      } else {
        assert EscrowIds(recs, n, d) == ids;
        assert LockedForAt(recs, d)(n) == 0;
      }
    }
  }

  lemma {:induction false} ListedMonotone(es: Book<EscrowRecord>, ids: seq<u32>, k: nat, n: nat)
    requires EscrowsOk(es) && k <= n <= |ids|
    ensures 0 <= ListedValue(es.recs, ids, k) <= ListedValue(es.recs, ids, n)
  {
    if n > 0 {
      ListedMonotone(es, ids, if k == n then k - 1 else k, n - 1);
    }
  }

  lemma ListedFits(s: State, d: Address, k: nat)
    requires Sound(s) && k <= |EscrowIds(s.escrows.recs, s.escrows.count, d)|
    ensures 0 <= ListedValue(s.escrows.recs, EscrowIds(s.escrows.recs, s.escrows.count, d), k) <= I128_MAX
  {
    var ids := EscrowIds(s.escrows.recs, s.escrows.count, d);
    ListedMonotone(s.escrows, ids, k, |ids|);
    ListedIsSum(s.escrows.recs, s.escrows.count, d);
    SumMonotone(s.escrows.count, s.escrows.count, LockedForAt(s.escrows.recs, d), LockedAt(s.escrows.recs));
    LockedFits(s, s.escrows.count);
  }

  lemma ListIs(es: Book<EscrowRecord>, depositors: AddressIndex, d: Address)
    requires DepositorsIndexed(es, depositors)
    ensures At(depositors, d) == EscrowIds(es.recs, es.count, d)
  {
  }

  /** The value reported for a depositor is the sum over all its active escrows. */
  method EscrowedValue(e: Env, depositor: Address) returns (total: i128)
    requires e.Valid()
    ensures total == SumTo(e.escrowCount, LockedForAt(e.escrow, depositor))
  {
    hide Sound, HoldersExact, AllowancesIndexed, DepositorsIndexed, DisputesIndexed, SplitsIndexed, PayersIndexed;
    hide LockedForAt;
    var ids := At(e.depositorEscrows, depositor);
    ListIs(e.Core().escrows, e.depositorEscrows, depositor);
    total := 0;
    for k := 0 to |ids|
      invariant total == ListedValue(e.escrow, ids, k)
    {
      ListedFits(e.Core(), depositor, k + 1);
      var id := ids[k];
      if id in e.escrow && !e.escrow[id].released && !e.escrow[id].refunded {
        total := total + e.escrow[id].amount;
      }
    }
    ListedIsSum(e.escrow, e.escrowCount, depositor);
  }

  /** `id` is an active escrow from `depositor` to `beneficiary`. */
  predicate Between(recs: map<u32, EscrowRecord>, id: u32, depositor: Address, beneficiary: Address) {
    Active(recs, id) && recs[id].depositor == depositor && recs[id].beneficiary == beneficiary
  }

  /** The search over a list that has all of a depositor's escrows in ascending order. */
  method FirstBetween(recs: map<u32, EscrowRecord>, ids: seq<u32>, ghost n: u32, depositor: Address, beneficiary: Address)
    returns (r: Option<u32>)
    requires ids == EscrowIds(recs, n, depositor)
    requires forall i | i in recs :: 1 <= i <= n
    ensures r.Some? ==> Between(recs, r.value, depositor, beneficiary)
    ensures forall id: u32 | Between(recs, id, depositor, beneficiary) :: r.Some? && r.value <= id
  {
    EscrowIdsExact(recs, n, depositor);
    for k := 0 to |ids|
      invariant forall j | 0 <= j < k :: !Between(recs, ids[j], depositor, beneficiary)
    {
      var id := ids[k];
      assert id in ids;
      if id in recs && recs[id].beneficiary == beneficiary && !recs[id].released && !recs[id].refunded {
        assert forall other: u32 | Between(recs, other, depositor, beneficiary) :: other in ids;
        return Some(id);
      }
    }
    assert forall other: u32 | Between(recs, other, depositor, beneficiary) :: other in ids;
    return None;
  }

  /** The least active escrow between the pair, or None exactly when there is none. */
  method EscrowBetween(e: Env, depositor: Address, beneficiary: Address) returns (r: Option<u32>)
    requires e.Valid()
    ensures r.Some? ==> Between(e.escrow, r.value, depositor, beneficiary)
    ensures forall id: u32 | Between(e.escrow, id, depositor, beneficiary) :: r.Some? && r.value <= id
  {
    r := FirstBetween(e.escrow, At(e.depositorEscrows, depositor), e.escrowCount, depositor, beneficiary);
  }

  // ---------- the two views agree ----------

  ghost function ByDepositor(recs: map<u32, EscrowRecord>, n: nat, depositors: set<Address>): map<Address, int> {
    map d | d in depositors :: SumTo(n, LockedForAt(recs, d))
  }

  lemma OneMoreEscrow(recs: map<u32, EscrowRecord>, n: nat, depositors: set<Address>)
    requires n > 0 && (n in recs ==> recs[n].depositor in depositors)
    ensures Sum(ByDepositor(recs, n, depositors)) == Sum(ByDepositor(recs, n - 1, depositors)) + LockedAt(recs)(n)
  {
    var before, now := ByDepositor(recs, n - 1, depositors), ByDepositor(recs, n, depositors);
    if Active(recs, n) {
      var d := recs[n].depositor;
      var v := before[d] + recs[n].amount;
      forall x | x in depositors ensures now[x] == if x == d then v else before[x] {
        assert LockedForAt(recs, x)(n) == if x == d then recs[n].amount else 0;
      }
      assert now == before[d := v];
      SumUpdate(before, d, v);
    } else {
      assert now == before;
    }
  }

  /** Adding up what is reported for all depositors gives the reported total. */
  lemma {:induction false} ValuesAddUp(recs: map<u32, EscrowRecord>, n: nat, depositors: set<Address>)
    requires forall i: int | 1 <= i <= n && i in recs :: recs[i].depositor in depositors
    ensures Sum(ByDepositor(recs, n, depositors)) == SumTo(n, LockedAt(recs))
  {
    if n == 0 {
      ZeroSum(ByDepositor(recs, 0, depositors));
    } else {
      ValuesAddUp(recs, n - 1, depositors);
      OneMoreEscrow(recs, n, depositors);
    }
  }

  lemma {:induction false} ZeroSum(m: map<Address, int>)
    requires forall k | k in m :: m[k] == 0
    ensures Sum(m) == 0
    decreases |m|
  {
    if m != map[] {
      var k :| k in m;
      SumRemove(m, k);
      ZeroSum(m - {k});
    }
  }
}
