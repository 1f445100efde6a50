/** batch.rs: one call, many targets. */
module BatchSpec {
  import opened Types
  import opened BalanceSpec
  import opened TokenSpec

  const MAX_TARGETS := 50
  const MAX_MEMO := 64

  function ClawbackRest(l: Ledger, targets: seq<BatchEntry>, i: nat): Option<Ledger>
    requires i <= |targets|
    decreases |targets| - i
  {
    if i == |targets| then Some(l) else
      var t := targets[i];
      if t.address == Contract || t.amount <= 0 then None else
        var l' :- BurnOf(l, t.address, t.amount);
        ClawbackRest(l', targets, i + 1)
  }

  function ClawbackBatch(c: Ctx, s: State, admin: Address, targets: seq<BatchEntry>): Option<State> {
    if !c.IsAdmin(admin) || !c.CosignerAgrees() || |targets| > MAX_TARGETS then None
    else WithLedger(s, ClawbackRest(s.ledger, targets, 0))
  }

  function MintRest(l: Ledger, entries: seq<BatchEntry>, i: nat): Option<Ledger>
    requires i <= |entries|
    decreases |entries| - i
  {
    if i == |entries| then Some(l) else
      var t := entries[i];
      if t.amount <= 0 then None else
        var l' :- MintTo(l, t.address, t.amount);
        MintRest(l', entries, i + 1)
  }

  function MintBatch(c: Ctx, s: State, admin: Address, entries: seq<BatchEntry>): Option<State> {
    if !c.IsAdmin(admin) || |entries| > MAX_TARGETS then None
    else WithLedger(s, MintRest(s.ledger, entries, 0))
  }

  function BurnFromRest(c: Ctx, s: State, spender: Address, targets: seq<BatchEntry>, i: nat): Option<State>
    requires i <= |targets|
    decreases |targets| - i
  {
    if i == |targets| then Some(s) else
      var t := targets[i];
      if t.amount <= 0 then None else
        var s' :- BurnApproved(c, s, spender, t.address, t.amount);
        BurnFromRest(c, s', spender, targets, i + 1)
  }

  function BurnFromBatch(c: Ctx, s: State, spender: Address, targets: seq<BatchEntry>): Option<State> {
    if !c.Signed(spender) || |targets| > MAX_TARGETS then None
    else BurnFromRest(c, s, spender, targets, 0)
  }

  /** The sum of the first n amounts. */
  function SumFirst(entries: seq<BatchEntry>, n: nat): int
    requires n <= |entries|
  {
    if n == 0 then 0 else SumFirst(entries, n - 1) + entries[n - 1].amount
  }

  function CreditRest(b: Balances, entries: seq<BatchEntry>, i: nat): Option<Balances>
    requires i <= |entries|
    decreases |entries| - i
  {
    if i == |entries| then Some(b) else
      var b' :- Credit(b, entries[i].address, entries[i].amount);
      CreditRest(b', entries, i + 1)
  }

  predicate AllPositive(entries: seq<BatchEntry>) {
    forall i | 0 <= i < |entries| :: entries[i].amount > 0
  }

  /** The total is debited once, then every entry is credited. */
  function PayBatch(b: Balances, from: Address, entries: seq<BatchEntry>): Option<Balances> {
    var total := SumFirst(entries, |entries|);
    if !FitsI128(total) then None else
      var b' :- Debit(b, from, total);
      CreditRest(b', entries, 0)
  }

  function TransferBatch(c: Ctx, s: State, from: Address, entries: seq<BatchEntry>): Option<State> {
    if !c.Signed(from) || |entries| > MAX_TARGETS || !AllPositive(entries) then None else
      var b :- PayBatch(s.ledger.balances, from, entries);
      Some(s.(ledger := s.ledger.(balances := b)))
  }

  /** The entries of a batch with memos; a memo is known by its length. */
  function Plain(entries: seq<(BatchEntry, nat)>): (plain: seq<BatchEntry>)
    ensures |plain| == |entries| && forall i | 0 <= i < |entries| :: plain[i] == entries[i].0
  {
    if entries == [] then [] else Plain(entries[..|entries| - 1]) + [entries[|entries| - 1].0]
  }

  function TransferBatchWithMemo(c: Ctx, s: State, from: Address, entries: seq<(BatchEntry, nat)>): Option<State> {
    if exists t | t in entries :: t.1 > MAX_MEMO then None else TransferBatch(c, s, from, Plain(entries))
  }
}
