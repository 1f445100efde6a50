# The VeritixPay ledger contract

A model of the self-contained ledger contract in `veritixpay/contract/token/src`: the balance and
supply ledger, approvals with their two indexes, escrows, disputes and appeals, splits, recurring
payments, batches and dividends. All value is an internal map from addresses to balances; funds in
custody are the contract's own balance.

The project has three layers.

* **Rules** (`*Spec.dfy`): each entry point as a function from the facts of one call (`Ctx`) and the
  records (`State`) to the new records, or `None` for a panic. Branches, guards,
  constants and integer ranges are those of the code; `i128` and `u32` overflow is a panic, as the
  build profile has overflow checks on.
* **Storage** (`Storage.dfy`, `Balance.dfy`, `Escrow.dfy`, `Dispute.dfy`, ...): a class whose fields
  are the storage cells, and the entry points as methods that update them step by step, with the
  loops of the code and all of its lookup indexes: holder list, owner and spender approvals,
  depositor escrows, dispute pointer, history and open list, recipient splits, split statistics,
  payer schedules. Every method is proved to do what its rule says and to leave every index exact.
  `Host.dfy` dispatches calls and puts all cells back after a panic, so that any run on the cells
  refines the same run of the machine.
* **Laws** (`*Laws.dfy`, `Machine.dfy`, `*Life.dfy`): what the rules achieve, for one call, for every
  reachable state and over every run.

The main results: balances are never negative and sum to the supply, which respects the cap; the
contract can always pay every unsettled escrow and every pending split, so that the operations that
settle them commit whenever their guards pass; each escrow is paid out exactly once; two overturned
appeals cancel out; a distribution pays out exactly its total; a dividend pays exact floors with a
bounded remainder; schedules do not drift; an approval is never overspent; all indexes say exactly
what the records say.

`Sound` (in `Invariants.dfy`) is the invariant of every reachable state. Custody is an inequality:
others may credit the contract unasked. It also keeps the amount of an escrow that the contract
itself was paid as beneficiary for as long as an appeal can take it back, so the results need no
assumption about who is a beneficiary.

A call is described by `Ctx`: the ledger sequence, who signed, the admin with its activation ledger,
the clawback co-signer, the pause flag and the frozen accounts. Runs range over all calls of
`Machine.dfy` by any callers. Two assumptions are made about them: the contract's own address never
signs, and the amount of a dividend is not negative. The second one is needed: see
`DividendLaws.ConservedIff`.

Where the code and its documentation disagree the model follows the code:

* `release_escrow` is documented for the depositor or the admin; the code wants the beneficiary.
* `resolve_dispute` is documented to fail after the dispute's expiry; the code has no such check.
* `distribute` is documented for the sender or the admin; the code wants the sender.
* `transfer` is documented to refuse frozen recipients; the code checks the sender only.
* `set_max_supply` is documented never to loosen the cap; the code lets 0 lift it while the supply
  is 0 (`BalanceSpec.CapOnlyTightens`, `BalanceSpec.CapLiftExample`).
* `open_dispute` is documented to freeze the escrow; the code blocks refund and top-up but not
  release and admin settlement, which leave the dispute open for good
  (`EscrowLife.SettledDespiteDispute`, `EscrowLife.DisputeDoesNotFreeze`, `EscrowLife.StuckForever`).

## Model

| member | source | states |
|---|---|---|
| Balance.UpdateHolderSet | veritixpay/contract/token/src/balance.rs:22-47 | after a balance became positive or zero the list gains the address once or loses every occurrence of it |
| Balance.ReceiveBalance | veritixpay/contract/token/src/balance.rs:50-65 | fails exactly on overflow; the holder list stays exact although it is touched only when the balance was zero |
| Balance.SpendBalance | veritixpay/contract/token/src/balance.rs:68-90 | fails exactly when funds are short or the difference is not representable; the holder list stays exact although it is touched only at zero |
| Balance.MoveBalance | veritixpay/contract/token/src/balance.rs:50-90 | spend then receive, on the balance cells, keeping the holder list exact |
| Balance.IncreaseSupply | veritixpay/contract/token/src/balance.rs:123-134 | new supply within i128 and within a positive cap, else failure |
| Balance.DecreaseSupply | veritixpay/contract/token/src/balance.rs:136-146 | the supply after a burn, or failure |
| BalanceSpec.MoveExact | veritixpay/contract/token/src/balance.rs:50-90 | on a conserved ledger a payment commits iff the payer holds the amount; conservation is kept, nobody else is affected, the credit never overflows |
| BalanceSpec.MintExact | veritixpay/contract/token/src/contract.rs:193-203 | a mint commits iff the new supply is representable and within a positive cap, although the credit comes before the cap check |
| BalanceSpec.BurnExact | veritixpay/contract/token/src/contract.rs:223-230 | a burn commits iff the holder has the amount: the guard "supply cannot be negative" never fires |
| BalanceSpec.BalanceBounds | veritixpay/contract/token/src/balance.rs:50-146 | no balance, and no two balances together, exceed the supply or a positive cap |
| BalanceSpec.CapOnlyTightens | veritixpay/contract/token/src/contract.rs:116-134 | a committed change of a positive cap tightens it iff the new value is not 0; 0 (no cap) commits only while the supply is 0 |
| BalanceSpec.CapLiftExample | veritixpay/contract/token/src/balance.rs:108-121 | the concrete input on which the cap is lifted: cap 5, supply 0, new value 0 |
| AllowanceSpec.SpendExact | veritixpay/contract/token/src/allowance.rs:146-202 | validation passes iff the spend would commit, which is iff an unexpired approval covers it; a spend uses up exactly the amount of this one approval and keeps its expiry |
| AllowanceSpec.RestExact | veritixpay/contract/token/src/allowance.rs:183-202 | after a spend of y from an approval of x with expiry E, a later spend of z > 0 commits iff its ledger is at most E and z <= x - y |
| AllowanceSpec.ApproveExact | veritixpay/contract/token/src/contract.rs:326-330 | exact commit condition; afterwards the spender can spend x in a later ledger iff x is within the amount and the ledger within the expiry (equal ledgers included) |
| AllowanceSpec.ApproveBatchExact | veritixpay/contract/token/src/batch.rs:216-226 | exact commit condition; for each spender the last listed approval stands, and no other approval changes |
| AllowanceSpec.RevokeExact | veritixpay/contract/token/src/allowance.rs:171-181 | only the owner can revoke; nothing of its is stored afterwards and everything else is |
| AllowanceSpec.ReadExact | veritixpay/contract/token/src/allowance.rs:8-43 | the reported amount is exactly what can be spent now, and no later spend is affected by the pruning |
| Allowances.IndexAdded | veritixpay/contract/token/src/allowance.rs:112-141 | writing a non-zero approval keeps owner and spender lists duplicate-free mirror images that cover every stored approval |
| Allowances.IndexRemoved | veritixpay/contract/token/src/allowance.rs:95-111 | writing a zero approval keeps them so |
| Allowances.WriteOwnerIndex | veritixpay/contract/token/src/allowance.rs:45-71 | the owner list after adding or removing one spender |
| Allowances.WriteAllowance | veritixpay/contract/token/src/allowance.rs:73-142 | the approval written or removed, both indexes exact afterwards; fails on negative amounts and past expiries |
| Allowances.ReadAllowance | veritixpay/contract/token/src/allowance.rs:8-43 | the usable amount, with an expired entry deleted and the indexes still covering what is stored |
| Allowances.ValidateAllowance | veritixpay/contract/token/src/allowance.rs:146-162 | passes iff the stored approval is unexpired and large enough, without touching storage |
| Allowances.SpendAllowance | veritixpay/contract/token/src/allowance.rs:183-202 | read, prune, check and rewrite as one approval spend; indexes exact |
| Allowances.RevokeListed | veritixpay/contract/token/src/allowance.rs:171-181 | the loop over a snapshot of a list that its own calls shrink removes every approval of the owner and every mention of it in any spender list, and nothing else |
| Allowances.RevokeAllAllowances | veritixpay/contract/token/src/allowance.rs:171-181 | only by the owner; no stored approval and no index mention of the owner is left, all other owners unchanged |
| Allowances.Approve | veritixpay/contract/token/src/contract.rs:326-330 | commits what the approval rules say, all indexes exact |
| Allowances.ApproveBatch | veritixpay/contract/token/src/batch.rs:216-226 | at most 20 approvals, all or none |
| Allowances.AllowanceView | veritixpay/contract/token/src/contract.rs:372-374 | reports the usable amount; its only effect is to delete an expired entry |
| ApprovalLife.BudgetHolds | veritixpay/contract/token/src/allowance.rs:183-202 | over any run in which the owner writes no approval: what the spender takes plus what is left never exceeds the budget at the start |
| ApprovalLife.BudgetStep | veritixpay/contract/token/src/allowance.rs:183-202 | one step of any call takes at most what it removes from the budget |
| ApprovalLife.ExpiryHolds | veritixpay/contract/token/src/allowance.rs:187-201 | over any run in which the owner writes no approval, every committed call that takes something on the strength of it does so by its expiry ledger, partial spends before included |
| Token.Mint | veritixpay/contract/token/src/contract.rs:193-203 | commits the specified mint with every index exact, or fails exactly when it is to |
| Token.Burn | veritixpay/contract/token/src/contract.rs:223-230 | likewise for a burn |
| Token.BurnFrom | veritixpay/contract/token/src/contract.rs:231-240 | likewise: the approval is spent before the burn |
| Token.Clawback | veritixpay/contract/token/src/contract.rs:246-258 | likewise, with the co-signer when one is set |
| Token.Transfer | veritixpay/contract/token/src/contract.rs:291-302 | likewise; the contract address is refused as recipient |
| Token.TransferFrom | veritixpay/contract/token/src/contract.rs:303-316 | likewise: validation, then spend, then payment |
| Token.TransferWithMemo | veritixpay/contract/token/src/contract.rs:317-325 | likewise; this entry point may credit the contract unasked |
| Token.SetMaxSupply | veritixpay/contract/token/src/contract.rs:127-134 | likewise for the cap |
| TokenLaws.MintLaw | veritixpay/contract/token/src/contract.rs:193-203 | exact commit condition; supply and one balance grow by the amount; the state stays sound |
| TokenLaws.BurnLaw | veritixpay/contract/token/src/contract.rs:223-230 | exact commit condition; supply and one balance shrink by the amount; custody is untouched |
| TokenLaws.BurnApprovedLaw | veritixpay/contract/token/src/contract.rs:236-238 | commits iff an unexpired approval and the balance both cover the amount, and takes it from both |
| TokenLaws.BurnFromLaw | veritixpay/contract/token/src/contract.rs:231-240 | exact commit condition with the spender's signature, freeze and pause, and exact effect |
| TokenLaws.ClawbackLaw | veritixpay/contract/token/src/contract.rs:246-258 | exact commit condition; custody can never be clawed back |
| TokenLaws.TransferLaw | veritixpay/contract/token/src/contract.rs:291-302 | exact commit condition (only the sender may not be frozen, the contract is no recipient); exactly the amount moves to the recipient |
| TokenLaws.MemoTransferLaw | veritixpay/contract/token/src/contract.rs:317-325 | the same for the entry point that may credit the contract |
| TokenLaws.SetCapLaw | veritixpay/contract/token/src/contract.rs:127-134 | the cap can be set to exactly the values from the supply up to a positive cap in force; nothing else changes |
| TokenLaws.TransferFromLaw | veritixpay/contract/token/src/contract.rs:303-316 | exact commit condition, the payment, and exactly the amount used up of the approval |
| Batch.ClawbackBatch | veritixpay/contract/token/src/batch.rs:70-85 | the loop refines the batch rule, all or nothing |
| Batch.MintBatch | veritixpay/contract/token/src/batch.rs:164-178 | the loop refines the batch rule; the running total never overflows |
| Batch.BurnFromBatch | veritixpay/contract/token/src/batch.rs:180-193 | the loop refines the batch rule |
| Batch.TransferBatch | veritixpay/contract/token/src/batch.rs:195-212 | summing pass, one debit, credit loop: the specified batch payment with an exact holder list |
| Batch.TransferBatchWithMemo | veritixpay/contract/token/src/batch.rs:228-248 | the same, and every memo within 64 bytes |
| TokenLaws.ClawbackRestLaw | veritixpay/contract/token/src/batch.rs:70-85 | a batch clawback commits iff no target is the contract, all amounts are positive and every address holds the total of its own entries; each loses exactly that |
| TokenLaws.MintRestLaw | veritixpay/contract/token/src/batch.rs:164-178 | a batch mint commits iff all amounts are positive and the whole sum fits under the cap, although the cap is checked entry by entry |
| TokenLaws.TransferBatchLaw | veritixpay/contract/token/src/batch.rs:195-212 | a batch transfer commits iff the sender signs, holds the total beforehand, and lists at most 50 positive amounts; every address ends with exactly what its entries credit |
| TokenLaws.MemoBatchLaw | veritixpay/contract/token/src/batch.rs:228-248 | the same with every memo within 64 bytes |
| TokenLaws.MintBatchLaw | veritixpay/contract/token/src/batch.rs:164-178 | exact commit condition and, per address, exact effect of the entry point |
| TokenLaws.ClawbackBatchLaw | veritixpay/contract/token/src/batch.rs:70-85 | exact commit condition, with admin and co-signer, and, per address, exact effect of the entry point |
| TokenLaws.BurnFromBatchLaw | veritixpay/contract/token/src/batch.rs:180-193 | commits iff the spender signs, lists at most 50 positive amounts, and for every owner balance and approval cover the total of its entries; takes exactly that from both |
| TokenLaws.BatchRefinesSingles | veritixpay/contract/token/src/batch.rs:195-212 | a committed transfer_batch has the balances of the single payments in order, for repeated recipients and for the sender itself |
| Escrow.CreateEscrow | veritixpay/contract/token/src/escrow.rs:29-91 | funds into custody, next id, record, depositor list: as specified, or failure; the id returned |
| Escrow.ReleaseEscrow | veritixpay/contract/token/src/escrow.rs:94-133 | refines the release rule, indexes exact |
| Escrow.RefundEscrow | veritixpay/contract/token/src/escrow.rs:136-181 | refines the refund rule; the pointer cell decides whether a dispute blocks it |
| Escrow.TopupEscrow | veritixpay/contract/token/src/escrow.rs:239-256 | refines the top-up rule |
| Escrow.AdminSettleEscrow | veritixpay/contract/token/src/escrow.rs:263-283 | refines the admin settlement rule |
| Escrow.PayOut | veritixpay/contract/token/src/escrow.rs:114-120 | writing the record settled and paying out of custody never fails |
| EscrowLaws.CreateCommits | veritixpay/contract/token/src/escrow.rs:29-91 | exact commit condition; the new record and the payment into custody |
| EscrowLaws.TopupCommits | veritixpay/contract/token/src/escrow.rs:239-256 | exact commit condition: the addition to the record never overflows, because custody already holds it |
| EscrowLaws.PayLaw | veritixpay/contract/token/src/escrow.rs:118-120 | custody can always pay an unsettled escrow; exactly the amount moves |
| EscrowLaws.ReleaseCommits | veritixpay/contract/token/src/escrow.rs:98-133 | the beneficiary can always release an unsettled escrow, disputed or not; released is set and the amount moves to it |
| EscrowLaws.RefundCommits | veritixpay/contract/token/src/escrow.rs:140-181 | the depositor, or anyone after expiry, can always refund an unsettled escrow without an open dispute; refunded is set and the amount goes to the depositor |
| EscrowLaws.AdminSettleCommits | veritixpay/contract/token/src/escrow.rs:263-283 | the admin can always settle an unsettled escrow in favour of anyone |
| EscrowQueries.Stats | veritixpay/contract/token/src/escrow.rs:220-238 | total, active and settled counts and the locked value are those of the records; no accumulator overflows |
| EscrowQueries.EscrowedValue | veritixpay/contract/token/src/escrow.rs:285-307 | the sum over all active escrows of the depositor, found through its list |
| EscrowQueries.EscrowBetween | veritixpay/contract/token/src/escrow.rs:310-325 | the least active id between the pair, or None iff there is none |
| EscrowQueries.EscrowIdsExact | veritixpay/contract/token/src/escrow.rs:75-83 | a depositor list has exactly its escrows, in ascending order |
| EscrowQueries.ValuesAddUp | veritixpay/contract/token/src/escrow.rs:285-307 | the values reported for all depositors add up to the locked value of the statistics |
| EscrowQueries.LockedInCustody | veritixpay/contract/token/src/escrow.rs:47-48 | all unsettled escrows plus all pending splits are covered by the contract balance |
| EscrowQueries.ActiveOrSettled | veritixpay/contract/token/src/escrow.rs:232-237 | active plus settled is all: the subtraction counts the settled records |
| EscrowLife.EscrowStep | veritixpay/contract/token/src/escrow.rs:98-283 | every committed call leaves an escrow alone, tops it up, settles it one way or overturns it, and the call tells which |
| EscrowLife.PayoutMoves | veritixpay/contract/token/src/dispute.rs:63-79 | a committed settlement by any of the five calls moves exactly the amount from custody to the party the call names |
| EscrowLife.ExactlyOnce | veritixpay/contract/token/src/escrow.rs:98-283 | over any run the payouts for an escrow add up to 0 while it is unsettled and to exactly its amount once it is settled |
| EscrowLife.SettledForever | veritixpay/contract/token/src/escrow.rs:98-283 | over any run: parties and expiry never change, the amount never shrinks, a settled escrow stays settled at the same amount |
| Dispute.SettleByOutcome | veritixpay/contract/token/src/dispute.rs:63-79 | refines the settlement by outcome |
| Dispute.OpenDispute | veritixpay/contract/token/src/dispute.rs:81-110 | record, pointer, history and open list as specified, or failure |
| Dispute.ResolveDispute | veritixpay/contract/token/src/dispute.rs:112-126 | escrow settled, status set, pointer removed, open list filtered, or failure |
| Dispute.ExpireDispute | veritixpay/contract/token/src/dispute.rs:130-144 | the same for an expiry |
| Dispute.AppealDispute | veritixpay/contract/token/src/dispute.rs:175-198 | status Appealed, appeal resolver set, listed open again, or failure |
| Dispute.ReverseSettlement | veritixpay/contract/token/src/dispute.rs:213-228 | the settled amount moves back and the two flags swap |
| Dispute.ResolveAppeal | veritixpay/contract/token/src/dispute.rs:200-235 | refines the appeal decision; the open list is exact afterwards |
| Dispute.HistoryAtMostOne | veritixpay/contract/token/src/dispute.rs:91-106 | in every sound storage the history of an escrow lists at most one dispute |
| Storage.PointerIs | veritixpay/contract/token/src/dispute.rs:91-105 | EscrowDispute(e) is set iff an Open dispute on e exists |
| Storage.DisputeOpened | veritixpay/contract/token/src/dispute.rs:93-107 | opening keeps pointer, open list and histories exact |
| Storage.DisputeClosed | veritixpay/contract/token/src/dispute.rs:120-124 | closing keeps them exact |
| Storage.DisputeAppealed | veritixpay/contract/token/src/dispute.rs:192-196 | appealing keeps them exact |
| Storage.AppealClosed | veritixpay/contract/token/src/dispute.rs:230-233 | deciding an appeal keeps them exact |
| DisputeLaws.NoEarlierDispute | veritixpay/contract/token/src/dispute.rs:86-91 | the guard on open disputes rules out any earlier dispute on an unsettled escrow |
| DisputeLaws.OpenLaw | veritixpay/contract/token/src/dispute.rs:81-110 | exact commit condition, which includes that the escrow was never disputed before; no funds move |
| DisputeLaws.ResolveLaw | veritixpay/contract/token/src/dispute.rs:112-126 | the designated resolver can always resolve an Open dispute over an unsettled escrow, also after its expiry |
| DisputeLaws.ExpireLaw | veritixpay/contract/token/src/dispute.rs:130-144 | anyone can expire it once its ledger has come; the depositor is paid |
| DisputeLaws.AppealLaw | veritixpay/contract/token/src/dispute.rs:175-198 | exact commit condition; an appeal moves no funds and changes only its dispute |
| DisputeLaws.ResolveAppealLaw | veritixpay/contract/token/src/dispute.rs:200-235 | exact commit condition: a pending appeal can always be upheld by its resolver, and overturned as long as the paid party has the amount; upheld it stays Appealed and decided, overturned the paid party pays the other and flags and status follow |
| DisputeLaws.OverturnLaw | veritixpay/contract/token/src/dispute.rs:213-228 | an overturn commits iff the paid party still has the amount, which custody always has |
| DisputeLaws.TwoOverturnsCancel | veritixpay/contract/token/src/dispute.rs:175-235 | two successive overturns restore every balance, the escrow and the dispute, and the second cannot fail |
| EscrowLife.DisputeDoesNotFreeze | veritixpay/contract/token/src/contract.rs:512-535 | concrete input on which a disputed escrow is released, although opening a dispute is said to freeze it |
| EscrowLife.SettledDespiteDispute | veritixpay/contract/token/src/escrow.rs:98-283 | a committed call ends the contest iff it decides the dispute or is a release or an admin settlement of that escrow; only the latter two leave the dispute stuck |
| EscrowLife.StuckForever | veritixpay/contract/token/src/dispute.rs:63-65 | an Open dispute over a settled escrow is never resolved, expired or appealed in any run |
| Splitter.CheckShares | veritixpay/contract/token/src/splitter.rs:109-137 | the nested loops accept exactly the lists of 1 to 20 distinct recipients with positive shares that sum to 10000 |
| Splitter.AppendRecipientIndex | veritixpay/contract/token/src/splitter.rs:54-77 | the list with the id, once |
| Splitter.RemoveRecipientIndex | veritixpay/contract/token/src/splitter.rs:79-98 | the list without the id |
| Splitter.CreateSplit | veritixpay/contract/token/src/splitter.rs:100-163 | funds into custody, record and recipient lists as specified, or failure |
| Splitter.CreateSplitWithMemo | veritixpay/contract/token/src/splitter.rs:435-455 | the same for memos within 64 bytes |
| Splitter.PayRecipients | veritixpay/contract/token/src/splitter.rs:193-213 | the payout loop: what remains is tracked exactly, never negative and zero at the end |
| Splitter.PaySplit | veritixpay/contract/token/src/splitter.rs:186-238 | marking, payout loop and statistics together keep every index exact |
| Splitter.Distribute | veritixpay/contract/token/src/splitter.rs:165-238 | refines the distribution rule |
| Splitter.CancelSplit | veritixpay/contract/token/src/splitter.rs:240-276 | refines the cancellation rule and counts it |
| Splitter.ReplaceIn | veritixpay/contract/token/src/splitter.rs:326-341 | the loop succeeds iff the old address is listed and the new one is not, with the old one replaced in place |
| Splitter.ReplaceSplitRecipient | veritixpay/contract/token/src/splitter.rs:295-350 | refines the replacement rule, recipient lists exact |
| Splitter.BulkDistribute | veritixpay/contract/token/src/splitter.rs:355-377 | at most 10 ids, all owned by the caller, all or nothing |
| Splitter.RecipientsReplaced | veritixpay/contract/token/src/splitter.rs:343-345 | after a replacement an id is in a list iff the address is a recipient of that split |
| Splitter.CountsFinished | veritixpay/contract/token/src/splitter.rs:234-237 | finishing a pending split moves exactly one counter, which cannot overflow |
| Splitter.CountsAddUp | veritixpay/contract/token/src/splitter.rs:41-52 | distributed plus cancelled plus pending is the number of splits |
| SplitterLaws.PayRestLaw | veritixpay/contract/token/src/splitter.rs:193-213 | paying out from sufficient custody fails only on an unrepresentable product, and each address receives exactly its payouts |
| SplitterLaws.ReceivedExact | veritixpay/contract/token/src/splitter.rs:193-213 | each recipient receives its own payout and nobody else anything |
| SplitterLaws.LastPayout | veritixpay/contract/token/src/splitter.rs:194-203 | the last payout is at least its rounded share and exceeds it by at most n-1 |
| SplitterLaws.RoundedFits | veritixpay/contract/token/src/splitter.rs:198-212 | the rounded shares never exceed the total, so what remains is never negative |
| SplitterLaws.CreateSplitLaw | veritixpay/contract/token/src/splitter.rs:100-163 | exact commit condition, share rules written out; custody and obligations grow by the total |
| SplitterLaws.MemoSplitLaw | veritixpay/contract/token/src/splitter.rs:435-455 | with a memo within 64 bytes it is the plain creation, else it fails |
| SplitterLaws.DistributeLaw | veritixpay/contract/token/src/splitter.rs:165-238 | exact commit condition; exactly the total leaves custody and each address gets its payouts; the distributed value grows by the total |
| SplitterLaws.CancelLaw | veritixpay/contract/token/src/splitter.rs:240-276 | the sender can always cancel a pending split and gets the whole total back |
| SplitterLaws.ReplaceLaw | veritixpay/contract/token/src/splitter.rs:295-350 | exact commit condition; the new address takes over place and share; the list stays valid; no funds move |
| SplitterLaws.BulkDistributeLaw | veritixpay/contract/token/src/splitter.rs:355-377 | commits iff the caller signs and lists at most 10 splits, all different, pending, its own and payable; exactly these become distributed, each address receives what they pay to it and custody loses their totals |
| SplitLife.SplitFinal | veritixpay/contract/token/src/splitter.rs:165-276 | over any run sender and total never change, and a distributed or cancelled split is final |
| Recurring.SetupRecurring | veritixpay/contract/token/src/recurring.rs:53-71 | record and payer list as specified, or failure |
| Recurring.ExecuteRecurring | veritixpay/contract/token/src/recurring.rs:73-92 | refines the charge rule |
| Recurring.IsExecutable | veritixpay/contract/token/src/recurring.rs:212-218 | true iff a charge would commit; panics are reported as None |
| Recurring.CancelRecurring | veritixpay/contract/token/src/recurring.rs:94-104 | refines the cancellation rule; the payer list keeps the id |
| Recurring.SetPaused | veritixpay/contract/token/src/recurring.rs:106-128 | pause and resume |
| Recurring.AmendRecurring | veritixpay/contract/token/src/recurring.rs:130-142 | refines the amendment rule |
| Recurring.TransferPayer | veritixpay/contract/token/src/recurring.rs:144-184 | the record and both payer lists change together |
| Recurring.CancelBatch | veritixpay/contract/token/src/recurring.rs:222-252 | a checking pass, then a cancelling pass, over at most 20 ids |
| Recurring.PayerMoved | veritixpay/contract/token/src/recurring.rs:173-180 | after a change of payer an id is in a list iff the record has that payer |
| RecurringLaws.SetupLaw | veritixpay/contract/token/src/recurring.rs:53-71 | exact commit condition, both signatures included; the schedule is anchored at the current ledger |
| RecurringLaws.ExecuteLaw | veritixpay/contract/token/src/recurring.rs:73-92 | a charge commits iff the schedule is active, not paused and due and the payer has the amount; it pays the payee and advances the schedule by one interval, never past the current ledger |
| RecurringLaws.IsExecutableLaw | veritixpay/contract/token/src/recurring.rs:212-218 | the query is true iff a charge would commit, and panics only for a missing record or an unrepresentable due ledger |
| RecurringLaws.CancelLaw | veritixpay/contract/token/src/recurring.rs:94-104 | the payer, and only the payer, can always cancel |
| RecurringLaws.SetPausedLaw | veritixpay/contract/token/src/recurring.rs:106-128 | the payer, and only the payer, can always pause and resume |
| RecurringLaws.AmendLaw | veritixpay/contract/token/src/recurring.rs:130-142 | exact commit condition; what is not given stays |
| RecurringLaws.TransferPayerLaw | veritixpay/contract/token/src/recurring.rs:144-184 | exact commit condition; only the payer changes |
| RecurringLaws.CancelBatchLaw | veritixpay/contract/token/src/recurring.rs:222-252 | commits iff every one of at most 20 schedules is the signing payer's; cancels exactly these |
| RecurringLaws.CrankExact | veritixpay/contract/token/src/recurring.rs:73-92 | cranking at ledger L performs exactly min(floor((L-last)/interval), floor(balance/amount)) charges for distinct parties and is then refused |
| ScheduleLife.NoDrift | veritixpay/contract/token/src/recurring.rs:87-89 | over any run the last charged ledger advances by exactly the sum of the intervals in force at each charge |
| ScheduleLife.NeverAhead | veritixpay/contract/token/src/recurring.rs:80-88 | while ledgers only advance, no last charged ledger lies in the future |
| ScheduleLife.RecurringEvolves | veritixpay/contract/token/src/recurring.rs:73-184 | apart from charges a schedule changes only with its payer's signature; its payee never; cancellation is never undone |
| ScheduleLife.ChangesAsRequested | veritixpay/contract/token/src/recurring.rs:94-184 | amendments, transfers, pauses and cancellations change what they name and nothing else |
| ScheduleLife.CancelledForever | veritixpay/contract/token/src/recurring.rs:94-104 | a cancelled schedule is never charged again in any run |
| Dividend.PayShares | veritixpay/contract/token/src/dividend.rs:24-34 | the loop mutates balances as it reads them, yet pays each unfrozen holder the share of its balance at the start, because the list is duplicate-free and exact |
| Dividend.DistributeDividend | veritixpay/contract/token/src/dividend.rs:7-40 | refines the dividend rule, for every amount; indexes exact for amounts that are not negative |
| DividendLaws.SharesFloor | veritixpay/contract/token/src/dividend.rs:27-28 | for amounts that are not negative each share is floor(balance*amount/supply) |
| DividendLaws.RemainderBounds | veritixpay/contract/token/src/dividend.rs:36-39 | for F units on frozen accounts and n eligible holders the remainder r satisfies a(a+F) <= rS <= a(a+F)+n(S-1) and 0 <= r <= a |
| DividendLaws.DividendCommits | veritixpay/contract/token/src/dividend.rs:7-40 | for every amount: a dividend commits iff the admin acts and has the amount, the debit is representable, and for every holder that is not frozen (what it has after the debit) * amount is; no later credit, sum or difference fails |
| DividendLaws.DividendLaw | veritixpay/contract/token/src/dividend.rs:14-39 | for amounts that are not negative: each holder that is not frozen gets floor(amount * what it has after the debit / supply), the admin also the bounded remainder, nobody else anything; the state stays sound |
| DividendLaws.NegativeDividendLaw | veritixpay/contract/token/src/dividend.rs:14-39 | for negative amounts: nobody is paid and the admin is credited |
| DividendLaws.ConservedIff | veritixpay/contract/token/src/dividend.rs:14-39 | a committed dividend conserves the ledger iff its amount is not negative |
| DividendLaws.NegativeDividendExample | veritixpay/contract/token/src/dividend.rs:14-18 | the concrete input: with one unit in all, an amount of -1 commits and leaves the admin with two |
| Storage.Env.constructor | veritixpay/contract/token/src/contract.rs:101-114 | a fresh deployment has sound records and exact indexes |
| Storage.Env.Revert | veritixpay/Cargo.toml:11-19 | a panic, overflow included, reverts the call: every cell is put back |
| Invariants.CustodyCovers | veritixpay/contract/token/src/escrow.rs:47-48 | the contract balance covers any one unsettled escrow and any one pending split |
| Frames.CallFrame | veritixpay/contract/token/src/contract.rs:193-730 | no call reaches into the records of another component |
| MachineLaws.StepSound | veritixpay/contract/token/src/contract.rs:193-730 | every call, committed or reverted, keeps conservation, the cap, solvency, the agreement of disputes with escrows, valid splits and sane schedules |
| MachineLaws.RunSound | veritixpay/contract/token/src/contract.rs:193-730 | the same over every run |
| MachineLaws.EveryRun | veritixpay/contract/token/src/escrow.rs:1-3 | from a fresh deployment with any cap, after every run: conservation, the cap, solvency of custody, disputes in agreement with escrows |
| MachineLaws.Progress | veritixpay/contract/token/src/escrow.rs:94-181 | in every reachable state the signed release, refund without open dispute, dispute resolution and split cancellation all commit |
| Host.Invoke | veritixpay/contract/token/src/contract.rs:193-730 | one call on the cells commits what the machine says or changes nothing, with every index exact |
| Host.Reach | veritixpay/contract/token/src/contract.rs:101-114 | every storage reached from a fresh deployment holds sound records and exact indexes |
| Host.InvokeAll | veritixpay/contract/token/src/contract.rs:193-730 | any run on the cells ends in the state of the machine's run, with every index exact |

## Left out

- permit: signature and hash checks are calls into foreign code; its effect would be one more approval write.
- create_split_with_escrow: it neither validates shares nor files its escrows with the depositor, so the index and validity results do not hold for it as coded.
- resolve_dispute_with_note: it differs from resolve_dispute only in the note it stores.
- Metadata, pause, freeze lists, admin rotation, the co-signer setter and snapshots: easy members; what they decide enters each call through `Ctx`.
- Memos, evidence and notes: only the checked lengths are modelled, not the bytes.
- Panic messages and soft errors: every failure is `None`, since each entry point turns it into a panic.
- Events, storage lifetimes and the escrow expiry warning flag: they do not affect the ledger.
- Plain reads (get_escrow, get_dispute, get_split, get_holders, balance_of_batch, contract_stats and the like): they return a cell.
- The second contract in the top-level `src/`: its custody goes through an external token.
- Host.InvokeAll: runs have no dividends of a negative amount, after which the ledger is not conserved (DividendLaws.ConservedIff).
- Dividend.DistributeDividend: says nothing about the indexes after a negative amount, because the holder list can then miss the admin.
