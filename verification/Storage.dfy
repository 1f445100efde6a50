/** The contract's storage cells, and what ties the lookup indexes to the records. */
module Storage {
  import opened Types
  import opened Sums
  import opened BalanceSpec
  import opened Invariants
  import opened SplitterSpec
  import EscrowSpec

  type AddressIndex = map<Address, seq<u32>>

  /** The list filed under a key; a missing key reads as the empty list. */
  function At<K, V>(m: map<K, seq<V>>, k: K): seq<V> {
    if k in m then m[k] else []
  }

  // ---------- what each index means ----------

  /** The holder list has every address with a positive balance, once, and no other. */
  ghost predicate HoldersExact(holders: seq<Address>, b: Balances) {
    && NonNegative(b)
    && NoDup(holders)
    && forall a :: a in holders <==> Bal(b, a) > 0
  }

  /** The owner and spender lists mirror each other without repetitions and mention every
      stored allowance. */
  ghost predicate AllowancesIndexed(al: Allowances, spenders: map<Address, seq<Address>>, owners: map<Address, seq<Address>>) {
    && (forall a :: NoDup(At(spenders, a)) && NoDup(At(owners, a)))
    && (forall f, s :: f in At(spenders, s) <==> s in At(owners, f))
    && (forall k | k in al :: k.spender in At(owners, k.from))
  }

  /** The ids among 1..n filed by `depositor`, in ascending order. */
  function EscrowIds(recs: map<u32, EscrowRecord>, n: u32, depositor: Address): seq<u32> {
    if n == 0 then []
    else EscrowIds(recs, n - 1, depositor) + if n in recs && recs[n].depositor == depositor then [n] else []
  }

  ghost predicate DepositorsIndexed(es: Book<EscrowRecord>, depositors: AddressIndex) {
    forall d :: At(depositors, d) == EscrowIds(es.recs, es.count, d)
  }

  /** The ids among 1..n of disputes over escrow `escrowId`, in ascending order. */
  function DisputeIds(recs: map<u32, DisputeRecord>, n: u32, escrowId: u32): seq<u32> {
    if n == 0 then []
    else DisputeIds(recs, n - 1, escrowId) + if n in recs && recs[n].escrowId == escrowId then [n] else []
  }

  /** The disputes still waiting for a resolver or an appeal resolver. */
  predicate Waiting(d: DisputeRecord) {
    d.status == Open || (d.status == Appealed && d.appealResolver.Some?)
  }

  ghost predicate DisputesIndexed(
    ds: Book<DisputeRecord>, pointer: map<u32, u32>, history: map<u32, seq<u32>>, open: seq<u32>)
  {
    && (forall e | e in pointer ::
          pointer[e] in ds.recs && ds.recs[pointer[e]].status == Open && ds.recs[pointer[e]].escrowId == e)
    && (forall d | d in ds.recs && ds.recs[d].status == Open ::
          ds.recs[d].escrowId in pointer && pointer[ds.recs[d].escrowId] == d)
    && NoDup(open)
    && (forall d: u32 :: d in open <==> d in ds.recs && Waiting(ds.recs[d]))
    && (forall e: u32 :: At(history, e) == DisputeIds(ds.recs, ds.count, e))
  }

  function DistributedCountAt(recs: map<u32, SplitRecord>): int -> int {
    i => if i in recs && recs[i].distributed then 1 else 0
  }

  function CancelledCountAt(recs: map<u32, SplitRecord>): int -> int {
    i => if i in recs && recs[i].cancelled then 1 else 0
  }

  /** A recipient's list has the ids of exactly the splits that name it, each once. */
  ghost predicate RecipientsIndexed(recs: map<u32, SplitRecord>, recipients: AddressIndex) {
    && (forall a :: NoDup(At(recipients, a)))
    && (forall a, id: u32 :: id in At(recipients, a) <==> id in recs && Lists(recs[id].recipients, a))
  }

  /** The statistics cells count the records. */
  ghost predicate SplitsCounted(sp: Book<SplitRecord>, distributed: u32, cancelled: u32, value: i128) {
    && distributed == SumTo(sp.count, DistributedCountAt(sp.recs))
    && cancelled == SumTo(sp.count, CancelledCountAt(sp.recs))
    && value == TotalDistributed(sp)
  }

  ghost predicate SplitsIndexed(sp: Book<SplitRecord>, recipients: AddressIndex, distributed: u32, cancelled: u32, value: i128) {
    RecipientsIndexed(sp.recs, recipients) && SplitsCounted(sp, distributed, cancelled, value)
  }

  ghost predicate PayersIndexed(rc: Book<RecurringRecord>, payers: AddressIndex) {
    && (forall a :: NoDup(At(payers, a)))
    && (forall a, id: u32 :: id in At(payers, a) <==> id in rc.recs && rc.recs[id].payer == a)
  }

  // ---------- the storage ----------

  /** The state a deployment starts from. */
  function Initial(maxSupply: i128): State {
    State(Ledger(map[], 0, maxSupply), map[], Book(0, map[]), Book(0, map[]), Book(0, map[]), Book(0, map[]))
  }

  datatype Indexes = Indexes(
    holders: seq<Address>, spenderAllowances: map<Address, seq<Address>>, ownerAllowances: map<Address, seq<Address>>,
    depositorEscrows: AddressIndex,
    escrowDispute: map<u32, u32>, disputeHistory: map<u32, seq<u32>>, openDisputes: seq<u32>,
    recipientSplits: AddressIndex, distributedCount: u32, cancelledCount: u32, distributedValue: i128,
    payerRecurrings: AddressIndex)

  const EmptyIndexes := Indexes([], map[], map[], map[], map[], map[], [], map[], 0, 0, 0, map[])

  ghost predicate Indexed(core: State, x: Indexes) {
    && HoldersExact(x.holders, core.ledger.balances)
    && AllowancesIndexed(core.allowances, x.spenderAllowances, x.ownerAllowances)
    && DepositorsIndexed(core.escrows, x.depositorEscrows)
    && DisputesIndexed(core.disputes, x.escrowDispute, x.disputeHistory, x.openDisputes)
    && SplitsIndexed(core.splits, x.recipientSplits, x.distributedCount, x.cancelledCount, x.distributedValue)
    && PayersIndexed(core.recurrings, x.payerRecurrings)
  }

  class Env {
    var balances: Balances
    var holders: seq<Address>
    var totalSupply: i128
    var maxSupply: i128

    var allowance: Allowances
    var spenderAllowances: map<Address, seq<Address>>
    var ownerAllowances: map<Address, seq<Address>>

    var escrowCount: u32
    var escrow: map<u32, EscrowRecord>
    var depositorEscrows: AddressIndex

    var disputeCount: u32
    var dispute: map<u32, DisputeRecord>
    var escrowDispute: map<u32, u32>
    var disputeHistory: map<u32, seq<u32>>
    var openDisputes: seq<u32>

    var splitCount: u32
    var split: map<u32, SplitRecord>
    var recipientSplits: AddressIndex
    var distributedCount: u32
    var cancelledCount: u32
    var distributedValue: i128

    var recurringCount: u32
    var recurring: map<u32, RecurringRecord>
    var payerRecurrings: AddressIndex

    /** The records without the indexes. */
    function Core(): State
      reads this
    {
      State(Ledger(balances, totalSupply, maxSupply), allowance, Book(escrowCount, escrow),
            Book(disputeCount, dispute), Book(splitCount, split), Book(recurringCount, recurring))
    }

    function Lookup(): Indexes
      reads this
    {
      Indexes(holders, spenderAllowances, ownerAllowances, depositorEscrows, escrowDispute, disputeHistory,
              openDisputes, recipientSplits, distributedCount, cancelledCount, distributedValue, payerRecurrings)
    }

    /** The records are sound and every index says exactly what the records say. */
    ghost predicate Valid()
      reads this
    {
      Sound(Core()) && Indexed(Core(), Lookup())
    }

    constructor (max: i128)
      ensures Valid() && Core() == Initial(max)
    {
      balances, holders, totalSupply, maxSupply := map[], [], 0, max;
      allowance, spenderAllowances, ownerAllowances := map[], map[], map[];
      escrowCount, escrow, depositorEscrows := 0, map[], map[];
      disputeCount, dispute, escrowDispute, disputeHistory, openDisputes := 0, map[], map[], map[], [];
      splitCount, split, recipientSplits := 0, map[], map[];
      distributedCount, cancelledCount, distributedValue := 0, 0, 0;
      recurringCount, recurring, payerRecurrings := 0, map[], map[];
      InitialValid(max);
    }

    /** The host puts every cell back after a panic. */
    method Revert(core: State, lookup: Indexes)
      modifies this
      ensures Core() == core && Lookup() == lookup
    {
      hide Core, Lookup;
      RevertCore(core);
      RevertLookup(lookup);
    }

    method RevertCore(core: State)
      modifies `balances, `totalSupply, `maxSupply, `allowance, `escrowCount, `escrow, `disputeCount, `dispute,
               `splitCount, `split, `recurringCount, `recurring
      ensures Core() == core
    {
      RevertLedger(core);
      RevertMachines(core);
    }

    method RevertLedger(core: State)
      modifies `balances, `totalSupply, `maxSupply, `allowance
      ensures Ledger(balances, totalSupply, maxSupply) == core.ledger && allowance == core.allowances
    {
      balances, totalSupply, maxSupply := core.ledger.balances, core.ledger.supply, core.ledger.cap;
      allowance := core.allowances;
    }

    method RevertMachines(core: State)
      modifies `escrowCount, `escrow, `disputeCount, `dispute, `splitCount, `split, `recurringCount, `recurring
      ensures Book(escrowCount, escrow) == core.escrows && Book(disputeCount, dispute) == core.disputes
      ensures Book(splitCount, split) == core.splits && Book(recurringCount, recurring) == core.recurrings
    {
      escrowCount, escrow := core.escrows.count, core.escrows.recs;
      disputeCount, dispute := core.disputes.count, core.disputes.recs;
      splitCount, split := core.splits.count, core.splits.recs;
      recurringCount, recurring := core.recurrings.count, core.recurrings.recs;
    }

    method RevertLookup(lookup: Indexes)
      modifies `holders, `spenderAllowances, `ownerAllowances, `depositorEscrows, `escrowDispute, `disputeHistory,
               `openDisputes, `recipientSplits, `distributedCount, `cancelledCount, `distributedValue, `payerRecurrings
      ensures Lookup() == lookup && Core() == old(Core())
    {
      hide Lookup;
      RevertIndexes(lookup);
    }

    method RevertIndexes(lookup: Indexes)
      modifies `holders, `spenderAllowances, `ownerAllowances, `depositorEscrows, `escrowDispute, `disputeHistory,
               `openDisputes, `recipientSplits, `distributedCount, `cancelledCount, `distributedValue, `payerRecurrings
      ensures Lookup() == lookup
    {
      RevertLists(lookup);
      RevertDisputeLists(lookup);
    }

    method RevertLists(lookup: Indexes)
      modifies `holders, `spenderAllowances, `ownerAllowances, `depositorEscrows, `recipientSplits, `payerRecurrings
      ensures holders == lookup.holders
      ensures spenderAllowances == lookup.spenderAllowances && ownerAllowances == lookup.ownerAllowances
      ensures depositorEscrows == lookup.depositorEscrows && recipientSplits == lookup.recipientSplits
      ensures payerRecurrings == lookup.payerRecurrings
    {
      holders := lookup.holders;
      spenderAllowances, ownerAllowances := lookup.spenderAllowances, lookup.ownerAllowances;
      depositorEscrows, recipientSplits := lookup.depositorEscrows, lookup.recipientSplits;
      payerRecurrings := lookup.payerRecurrings;
    }

    method RevertDisputeLists(lookup: Indexes)
      modifies `escrowDispute, `disputeHistory, `openDisputes, `distributedCount, `cancelledCount, `distributedValue
      ensures escrowDispute == lookup.escrowDispute && disputeHistory == lookup.disputeHistory
      ensures openDisputes == lookup.openDisputes
      ensures distributedCount == lookup.distributedCount && cancelledCount == lookup.cancelledCount
      ensures distributedValue == lookup.distributedValue
    {
      escrowDispute, disputeHistory, openDisputes := lookup.escrowDispute, lookup.disputeHistory, lookup.openDisputes;
      distributedCount, cancelledCount, distributedValue :=
        lookup.distributedCount, lookup.cancelledCount, lookup.distributedValue;
    }
  }

  lemma InitialValid(max: i128)
    ensures Sound(Initial(max))
    ensures Indexed(Initial(max), EmptyIndexes)
  {
  }

  // ---------- how indexes change ----------

  /** Rewriting records without touching who filed them leaves the depositor lists alone. */
  lemma {:induction false} EscrowIdsSame(r: map<u32, EscrowRecord>, t: map<u32, EscrowRecord>, n: u32, d: Address)
    requires forall i: u32 | 1 <= i <= n :: (i in r <==> i in t) && (i in r ==> r[i].depositor == t[i].depositor)
    ensures EscrowIds(t, n, d) == EscrowIds(r, n, d)
  {
    if n > 0 {
      EscrowIdsSame(r, t, n - 1, d);
    }
  }

  lemma {:induction false} DisputeIdsSame(r: map<u32, DisputeRecord>, t: map<u32, DisputeRecord>, n: u32, e: u32)
    requires forall i: u32 | 1 <= i <= n :: (i in r <==> i in t) && (i in r ==> r[i].escrowId == t[i].escrowId)
    ensures DisputeIds(t, n, e) == DisputeIds(r, n, e)
  {
    if n > 0 {
      DisputeIdsSame(r, t, n - 1, e);
    }
  }

  lemma DepositorsKept(es: Book<EscrowRecord>, id: u32, r: EscrowRecord, depositors: AddressIndex)
    requires DepositorsIndexed(es, depositors) && id in es.recs && r.depositor == es.recs[id].depositor
    ensures DepositorsIndexed(es.Put(id, r), depositors)
  {
    forall d ensures At(depositors, d) == EscrowIds(es.Put(id, r).recs, es.count, d) {
      EscrowIdsSame(es.recs, es.Put(id, r).recs, es.count, d);
    }
  }

  lemma DepositorsAdded(es: Book<EscrowRecord>, r: EscrowRecord, depositors: AddressIndex)
    requires DepositorsIndexed(es, depositors) && es.count < U32_MAX
    ensures DepositorsIndexed(es.Add(r), depositors[r.depositor := At(depositors, r.depositor) + [es.count + 1]])
  {
    var t := es.Add(r);
    var now := depositors[r.depositor := At(depositors, r.depositor) + [es.count + 1]];
    forall d ensures At(now, d) == EscrowIds(t.recs, t.count, d) {
      EscrowIdsSame(es.recs, t.recs, es.count, d);
      assert At(depositors, d) == EscrowIds(es.recs, es.count, d);
    }
  }

  /** The pointer cell answers whether an escrow has an open dispute. */
  lemma PointerIs(s: State, x: Indexes, id: u32)
    requires Indexed(s, x)
    ensures id in x.escrowDispute <==> EscrowSpec.HasOpenDispute(s.disputes, id)
  {
  }

  // ---------- how the dispute indexes change ----------

  lemma DisputeOpened(
    ds: Book<DisputeRecord>, pointer: map<u32, u32>, history: map<u32, seq<u32>>, open: seq<u32>, r: DisputeRecord)
    requires DisputesIndexed(ds, pointer, history, open) && ds.Dense() && ds.count < U32_MAX
    requires r.status == Open && r.escrowId !in pointer
    ensures DisputesIndexed(ds.Add(r), pointer[r.escrowId := ds.count + 1],
                            history[r.escrowId := At(history, r.escrowId) + [ds.count + 1]], open + [ds.count + 1])
  {
    var t, id := ds.Add(r), ds.count + 1;
    var now := history[r.escrowId := At(history, r.escrowId) + [id]];
    forall e: u32 ensures At(now, e) == DisputeIds(t.recs, t.count, e) {
      DisputeIdsSame(ds.recs, t.recs, ds.count, e);
      assert At(history, e) == DisputeIds(ds.recs, ds.count, e);
    }
    assert id !in open;
  }

  /** What a rewrite that keeps the escrow leaves alone. */
  lemma HistoryKept(ds: Book<DisputeRecord>, history: map<u32, seq<u32>>, id: u32, r: DisputeRecord)
    requires forall e: u32 :: At(history, e) == DisputeIds(ds.recs, ds.count, e)
    requires id in ds.recs && r.escrowId == ds.recs[id].escrowId
    ensures forall e: u32 :: At(history, e) == DisputeIds(ds.Put(id, r).recs, ds.count, e)
  {
    forall e: u32 ensures At(history, e) == DisputeIds(ds.Put(id, r).recs, ds.count, e) {
      DisputeIdsSame(ds.recs, ds.Put(id, r).recs, ds.count, e);
    }
  }

  lemma DisputeClosed(
    ds: Book<DisputeRecord>, pointer: map<u32, u32>, history: map<u32, seq<u32>>, open: seq<u32>, id: u32, r: DisputeRecord)
    requires DisputesIndexed(ds, pointer, history, open) && id in ds.recs && ds.recs[id].status == Open
    requires r.escrowId == ds.recs[id].escrowId && r.status != Open && !Waiting(r)
    ensures DisputesIndexed(ds.Put(id, r), pointer - {r.escrowId}, history, Without(open, id))
  {
    HistoryKept(ds, history, id, r);
    WithoutFacts(open, id);
  }

  lemma DisputeAppealed(
    ds: Book<DisputeRecord>, pointer: map<u32, u32>, history: map<u32, seq<u32>>, open: seq<u32>, id: u32, r: DisputeRecord)
    requires DisputesIndexed(ds, pointer, history, open) && id in ds.recs && !Waiting(ds.recs[id])
    requires r.escrowId == ds.recs[id].escrowId && r.status != Open && Waiting(r)
    ensures DisputesIndexed(ds.Put(id, r), pointer, history, open + [id])
  {
    HistoryKept(ds, history, id, r);
  }

  lemma AppealClosed(
    ds: Book<DisputeRecord>, pointer: map<u32, u32>, history: map<u32, seq<u32>>, open: seq<u32>, id: u32, r: DisputeRecord)
    requires DisputesIndexed(ds, pointer, history, open) && id in ds.recs && ds.recs[id].status != Open
    requires r.escrowId == ds.recs[id].escrowId && r.status != Open && !Waiting(r)
    ensures DisputesIndexed(ds.Put(id, r), pointer, history, Without(open, id))
  {
    HistoryKept(ds, history, id, r);
    WithoutFacts(open, id);
  }
}
