# Verified model of the EVM executor

This project models the journaled world state of the EVM executor service, the versioned key store
it commits to, the block loop that drives both, and its worker pool, and proves what they keep over
whole runs. `dafny verify dfyconfig.toml` checks everything.

## How the model is built

There are three layers.

* **The state as a value** (`world_state.dfy`). One datatype `Db` holds the overlay of a block over a
  frozen store, the journal, the revision stack, logs, refund, preimages and access list. Every
  method of the state database is a function on it, with the branches of the source. Theorems over
  runs are about these functions: exact nested revert and exactly when it fails (`revert.dfy`,
  `runs.dfy`, `locations.dfy`, `guarded.dfy`), what each call changes (`effects.dfy`,
  `access_effects.dfy`), what a run adds up to (`standing_calls.dfy`), balance accounting (`ledger.dfy`), log numbering (`log_numbers.dfy`), the access list (`access_undo.dfy`,
  `access_intended.dfy`), revision ids (`revision_stack.dfy`), commit (`commit.dfy`).
* **The state as an object** (`state_db.dfy`, `overlay.dfy`, `journal.dfy`, `access_list.dfy`,
  `storage.dfy`). Accounts are heap objects changed in place, storage maps are nested, the three
  read caches are bounded and may evict any entry, the access list is an index over rows. Each
  method ensures that the flat `Model()` of the object moves as the function on `Db` says. No cache
  occurs in `Model()`, so no result depends on cache sizes or evictions.
* **The service** (`transactions.dfy`, `receipt_logs.dfy`, `processor.dfy`, `executor.dfy`,
  `executor_steps.dfy`, `replay.dfy`, `transcripts.dfy`, `block_runs.dfy`, `block_results.dfy`, `digests.dfy`, `first_inputs.dfy`, `first_block.dfy`,
  `catch_up.dfy`, `worker_pool.dfy`). A message is a deterministic program that calls the state database and gives
  a verdict on its gas. The block loop is a step system in which any write may fail, a commit after
  any part of it, and the process may die anywhere; the loop as code is proved to run inside it, and to
  fail only when a request is not answered, a cache cannot be made or the height is unreadable.

Assumptions are preconditions of the theorems that need them: new code does not collide with other
code under its hash (`Legal`, `CollisionlessFrom`; `digests.dfy` derives both from an injective digest
and a store that holds its own code), the store holds the code its accounts refer to (`CodesComplete`,
`Settled`), a message uses no more gas than the pool has (`WithinPool`). Hashing, the EVM and the casing
of EIP-55 addresses are parameters.

## What differs from the intent of the source

* `createObjectChange.revert` deletes the overlay record, and older records of the account then find
  nothing to restore. Undoing an account is exact if and only if its dropped record equals the stored
  one (`Revert.RevertExactness`, `Locations.RevertExactnessAt`); nothing else is affected
  (`Locations.AlwaysRestored`); a guard on `CreateAccount` is enough, address by address
  (`Guarded.NestedRevertAt`, `Guarded.NestedRevert`), and `Guarded.UnguardedCreateIsNotUndone` is a run
  without it.
* `AddSlot` answers whether the address was listed before, and its caller takes that for "newly
  listed". `AccessUndo.AccessRevertExactness` says, address by address, exactly when the literal code
  undoes correctly, `AccessUndo.AddSlotIsNeverUndone` shows that touching a single slot never is, and
  `AccessIntended.IntendedUndoExactness` says when the intended reading does.
* Reads at block N look only at keys of block N, although the service is described as keeping a window
  of states. `Commit.CarryForwardExactness` says which accounts the next block sees.
* Block 0 stands for "latest", so block 1 reads what a half-finished commit of block 1 has written.
  Over a store that a dying block 1 left behind, replay is right whatever the block does if and only if
  the latest accounts and slots are still those of the start (`FirstInputs.FinishExactness`, and
  `FirstInputs.RunExactness` for whole runs); a transfer in block 1 can be paid twice, or paid to nobody.
* `Prepare` clears the hash that logs are filed under, so receipts carry no logs
  (`ReceiptLogs.ReceiptsCarryNoLogs`); one is complete exactly if its message left no log
  (`ReceiptLogs.ReceiptLogsExactness`).
* A batch end that wraps around 2^64 stops progress for good, and a batch that ends at 2^64 - 1 never
  ends: its counter wraps and the recorded height drops to 0 (`CatchUp.CatchUpExactness`,
  `ExecutorSteps.NeverFallsExactly`).

## Model

| member | source | states |
|---|---|---|
| Revert.RevertExactness | pkg/state/account.go:159-280 | reverting to a live snapshot restores every observable (balance, nonce, code hash, code, slot, self-destruct flag, logs, log counter, refund, preimage) if and only if every account whose overlay record the revert deletes, or deleted earlier, looked as stored when the snapshot was taken |
| Runs.NestedRevertExactness | pkg/state/statedb.go:399-422 | the same equivalence, for RevertToSnapshot called with the id of any live snapshot and for the whole world, after any run of calls, snapshots and nested reverts, as long as the reverts so far met it; the next rows drop that hypothesis location by location |
| Locations.RevertExactnessAt | pkg/state/statedb.go:399-422 | location by location, after any run at all: if the reverts so far were right at that location, whatever they did elsewhere, RevertToSnapshot with the id of any live snapshot gives it back exactly under the condition at that location alone |
| Locations.AlwaysRestored | pkg/state/account.go:175-268 | slots, self-destruct flags, refund, logs, log counter and preimages: every revert of every run is exact, with no condition |
| Locations.CodeRevertExactness | pkg/state/account.go:218-223 | an account's record and code bytes together, under the same condition at that account, for stores that hold the code of their accounts and runs without colliding code |
| Runs.RunTracked | pkg/state/statedb.go:399-422 | over a run whose reverts meet the condition, every live snapshot stays recoverable: undoing the journal above its mark, ideally, gives each observable back |
| Revert.LookUndoAll | pkg/state/account.go:69-73 | undoing a journal suffix acts on each observable location by itself, record by record |
| Guarded.NestedRevertAt | pkg/state/statedb.go:407-422 | if CreateAccount of an address only fires while no live account record of it exists, every revert gives its record back, whatever other addresses went through and whatever code was set |
| Guarded.NestedRevert | pkg/state/statedb.go:407-422 | with that guard at every address and no colliding code, every revert of every run is exact, for everything but the access list |
| Guarded.RunGrounded | pkg/state/statedb.go:142-151 | an address whose guard was kept has its creation as the oldest live record, is loaded if it has one, goes back to the stored account if all its records are undone, and was right at every revert |
| Guarded.CreateUndoExactness | pkg/state/statedb.go:142-151 | snapshot, CreateAccount, revert is the identity exactly when an account that looks empty is also stored empty |
| Guarded.UnguardedCreateIsNotUndone | pkg/state/account.go:159-202 | a concrete drained account whose stored balance comes back after such a revert |
| Effects.CallEffect | pkg/state/statedb.go:142-450 | after any call every observable location shows the value the call is named for if it is the call's target, and its old value otherwise; getters and CreateAccount change nothing visible |
| Effects.CodeEffect | pkg/state/statedb.go:205-245 | code just set is read back, and no other account's code bytes move |
| Effects.ContextEffect | pkg/state/statedb.go:440-500 | only SetTxContext and Prepare move the transaction context, Prepare to none |
| Effects.OverlayEffect | pkg/state/statedb.go:102-139 | an account joins what a commit writes when a call changes it or a getter reads a stored one, a slot when its word changes; no call takes one out |
| AccessEffects.AccessEffect | pkg/state/statedb.go:425-478 | after any call an address is listed exactly if it was or the call names it, a slot exactly if it was or AddSlot or a tuple names it; Prepare names the sender, a present destination, every precompile and every tuple with its keys |
| AccessEffects.AccessRecords | pkg/state/statedb.go:463-478 | which undo records each listing leaves: an address newly listed on its own, an address that was listed when a slot of it is added, a slot newly listed on its own |
| StandingCalls.AnswerShows | pkg/state/statedb.go:176-460 | each answer is what the observable state shows at the place asked for, Exist and Empty field by field |
| StandingCalls.ShowsStanding | pkg/state/statedb.go:399-422 | a run with any nesting of snapshots and reverts shows, at each location where its reverts were right, what its standing calls alone would leave |
| StandingCalls.HeardState | pkg/state/statedb.go:259-300 | in every run GetState answers the last word set and not undone, else the stored one |
| StandingCalls.HeardAccount | pkg/state/statedb.go:154-202 | where the reverts were right, GetBalance answers the standing payments and self-destructs over the stored balance, GetNonce and GetCodeHash the last that was set and stands |
| StandingCalls.HeardCode | pkg/state/statedb.go:205-245 | GetCode answers the code set last and not undone, else the stored one |
| StandingCalls.HeardSuicide | pkg/state/statedb.go:308-338 | in every run the mark stands as long as a self-destruct does, and Suicide answers whether none did |
| StandingCalls.HeardRefund | pkg/state/statedb.go:378-396 | in every run the counter is that of the standing refunds, in 64 bits and never below zero |
| StandingCalls.HeardLogs | pkg/state/statedb.go:358-375 | in every run the logs of a hash are those of the standing calls, in order |
| StandingCalls.UndoneCodeIsKept | pkg/state/account.go:218-223 | undone code stays, and what the account had before is put under its own hash, so a commit writes an empty code under the zero hash |
| Ledger.BalanceAccounting | pkg/state/statedb.go:154-173 | if the reverts so far were right, at each account, the loaded balances exceed the stored ones by exactly the amounts of the balance and self-destruct records still in the journal |
| Ledger.AccountAccounting | pkg/state/statedb.go:154-173 | the same for one account whose reverts were right, whatever happened to the others: it gained the net of its own live records |
| Ledger.RunBalanced | pkg/state/account.go:175-202 | the same record by record, from any state: each live record's previous balance is the stored one plus the net of the records before it |
| Ledger.TransferConserves | pkg/state/statedb.go:154-173 | SubBalance and AddBalance of one amount leave the total unchanged, also when both accounts are the same |
| LogNumbers.LogNumbering | pkg/state/statedb.go:358-365 | after any run log indices over all lists are 0 to logSize - 1 once each, increase along each list, and the k-th live log record names the list with index k |
| LogNumbers.LogSizeIsSum | pkg/state/account.go:248-256 | the log counter is the sum of the lengths of all log lists |
| LogNumbers.UndoAllNumbered | pkg/state/account.go:248-256 | undoing a journal suffix leaves the logs numbered as the remaining records say |
| LogNumbers.StepNumbered | pkg/state/statedb.go:358-365 | every single call, reverts included, keeps the numbering |
| RevisionStack.IdsInOrder | pkg/state/statedb.go:399-404 | the ids of a run's snapshots are consecutive, so none is used twice |
| RevisionStack.RevertCutsStack | pkg/state/statedb.go:407-422 | a revert kills its own id and every later one and keeps the older revisions |
| RevisionStack.LiveIdExactness | pkg/state/statedb.go:399-422 | in every run each live id is the answer of the Snapshot call that took that state, and RevertToSnapshot with it cuts journal and revision stack back to what they were at that call |
| RevisionStack.DeadForEver | pkg/state/statedb.go:407-417 | an id that is no longer live stays unknown in every continuation, where reverting to it is refused and changes nothing |
| Journals.DirtyIndexIsUnique | pkg/state/account.go:62-82 | only one map sends exactly the addresses of the records to their last positions, so updating and rebuilding it agree |
| Journals.Journal.Append | pkg/state/account.go:62-67 | a record is added and the index of last positions is kept |
| Journals.Journal.Truncate | pkg/state/account.go:74-81 | the records below the mark remain and the rebuilt index is the index of last positions |
| AccessUndo.AccessRevertExactness | pkg/state/statedb.go:463-478 | with the literal AddSlot answer, address by address: if the reverts so far were right at an address, whatever they did to others, the next one gives it its entry back if and only if, listed at the snapshot, it has no undone address record and no slot it did not have, and, listed since, it has such a record |
| AccessUndo.WholeListExactness | pkg/state/statedb.go:463-478 | the whole list comes back if and only if the revert is right at every address |
| AccessUndo.RevertContents | pkg/state/account.go:270-280 | after any run at all a revert leaves exactly the addresses and slots that no undone record names |
| AccessUndo.AddSlotIsNeverUndone | pkg/state/account.go:320-334 | whatever is listed, touching one slot and going straight back leaves the access list different |
| AccessIntended.IntendedUndoExactness | pkg/state/statedb.go:425-478 | with the answer "address newly listed", and Prepare anywhere, address by address: if the returns so far were right at it, leaving a scope gives its entry back if and only if what joined at it in the scope has an undo record |
| AccessIntended.IntendedAccessUndo | pkg/state/account.go:270-280 | with that answer every nesting of scopes restores exactly the addresses and slots, as long as no scope that spans a Prepare is left |
| AccessIntended.BetweenIsInside | pkg/state/statedb.go:425-439 | Prepare with no scope open interrupts none |
| AccessIntended.StepGrows | pkg/state/account.go:311-334 | every listing call lets the list grow, and no record it writes touches what was listed |
| AccessLists.AccessList.AddAddress | pkg/state/account.go:311-318 | the listed map gains the address with no slots, rows stay in range and unshared, and the answer is whether it was new |
| AccessLists.AccessList.AddSlot | pkg/state/account.go:320-334 | the listed map gains the slot; the answers are whether the address was there and whether the slot was not |
| AccessLists.AccessList.ContainsAddress | pkg/state/account.go:336-339 | the answer is that of the listed map |
| AccessLists.AccessList.Contains | pkg/state/account.go:341-348 | both answers are those of the listed map |
| AccessLists.AccessList.DeleteAddress | pkg/state/account.go:350-352 | the address and its slots leave the listed map although its row stays behind |
| AccessLists.AccessList.DeleteSlot | pkg/state/account.go:354-360 | the slot leaves the listed map; an unlisted address is left alone |
| AccessLists.AccessList.ToAccessList | pkg/state/account.go:363-375 | each listed address occurs once, with each of its slots once and nothing else |
| AccessLists.ListRoundTrip | pkg/state/statedb.go:434-439 | preparing an empty list with the exported tuples gives back the exported list |
| StateDb.PikaStateDB.Open | pkg/state/statedb.go:62-99 | opening fails exactly when a cache size is not positive; otherwise the model is the empty overlay over the store |
| StateDb.PikaStateDB.GetAccount | pkg/state/statedb.go:102-139 | the record handed out is what overlay, then store, say, whatever the cache holds; it is the overlay's own object or a new one, and no other address shares it |
| StateDb.PikaStateDB.Fetch | pkg/state/statedb.go:108-136 | through the cache or past it, the record is the stored one, and the cache stays true and bounded |
| StateDb.PikaStateDB.GetBalance | pkg/state/statedb.go:176-179 | the balance is that of the cacheless read |
| StateDb.PikaStateDB.GetNonce | pkg/state/statedb.go:182-185 | the nonce is that of the cacheless read |
| StateDb.PikaStateDB.GetCodeHash | pkg/state/statedb.go:196-202 | no code shows as the hash of empty code |
| StateDb.PikaStateDB.Exist | pkg/state/statedb.go:346-349 | non-empty or marked |
| StateDb.PikaStateDB.Empty | pkg/state/statedb.go:352-355 | no nonce, no balance, no code |
| StateDb.PikaStateDB.GetCode | pkg/state/statedb.go:205-229 | the code is that of the cacheless read |
| StateDb.PikaStateDB.GetState | pkg/state/statedb.go:259-281 | the word is that of the cacheless read |
| StateDb.PikaStateDB.HasSuicided | pkg/state/statedb.go:336-338 | the mark of the model |
| StateDb.PikaStateDB.GetRefund | pkg/state/statedb.go:394-396 | the counter of the model |
| StateDb.PikaStateDB.GetLogs | pkg/state/statedb.go:368-375 | the list filed under the hash |
| StateDb.PikaStateDB.AddressInAccessList | pkg/state/statedb.go:453-455 | membership in the listed map |
| StateDb.PikaStateDB.SlotInAccessList | pkg/state/statedb.go:458-460 | both memberships in the listed map |
| StateDb.PikaStateDB.CreateAccount | pkg/state/statedb.go:142-151 | the model moves as WorldState.Db.CreateAccount; all records stay unshared, caches true, logs numbered |
| StateDb.PikaStateDB.AddBalance | pkg/state/statedb.go:165-173 | the in-place change of one record is exactly the model's change |
| StateDb.PikaStateDB.SubBalance | pkg/state/statedb.go:154-162 | likewise for a withdrawal |
| StateDb.PikaStateDB.SetNonce | pkg/state/statedb.go:188-193 | likewise for the nonce |
| StateDb.PikaStateDB.SetCode | pkg/state/statedb.go:232-245 | likewise for code, with the digest computed by the object |
| StateDb.PikaStateDB.SetState | pkg/state/statedb.go:284-300 | the nested map update is the model's slot update, and equal values write nothing |
| StateDb.PikaStateDB.Suicide | pkg/state/statedb.go:308-323 | flag, balance and record move as in the model, and the answer is whether the flag was clear |
| StateDb.PikaStateDB.AddLog | pkg/state/statedb.go:358-365 | the log is filed and numbered as in the model |
| StateDb.PikaStateDB.AddRefund | pkg/state/statedb.go:378-381 | the counter wraps at 2^64 |
| StateDb.PikaStateDB.SubRefund | pkg/state/statedb.go:384-391 | the counter stops at zero |
| StateDb.PikaStateDB.AddPreimage | pkg/state/statedb.go:445-450 | the first preimage of a hash stays |
| StateDb.PikaStateDB.AddAddressToAccessList | pkg/state/statedb.go:463-467 | a record is written exactly when the address is new |
| StateDb.PikaStateDB.AddSlotToAccessList | pkg/state/statedb.go:470-478 | the literal reading of the two answers, record for record |
| StateDb.PikaStateDB.Prepare | pkg/state/statedb.go:425-442 | sender, destination, precompiles and tuples are listed in order without records, and the context is cleared |
| StateDb.PikaStateDB.SetTxContext | pkg/state/statedb.go:497-500 | the context and nothing else |
| StateDb.PikaStateDB.Snapshot | pkg/state/statedb.go:399-404 | the answer is the next id, marked at the present journal length |
| StateDb.PikaStateDB.RevertCreateObject | pkg/state/account.go:159-161 | the record leaves the overlay |
| StateDb.PikaStateDB.RevertSuicide | pkg/state/account.go:175-185 | flag and balance go back, the balance only if a record is there |
| StateDb.PikaStateDB.RevertBalance | pkg/state/account.go:198-202 | the balance goes back if a record is there |
| StateDb.PikaStateDB.RevertNonce | pkg/state/account.go:208-212 | the nonce goes back if a record is there |
| StateDb.PikaStateDB.RevertCode | pkg/state/account.go:218-223 | the hash goes back if a record is there, the old code is kept under its hash in any case |
| StateDb.PikaStateDB.RevertStorage | pkg/state/account.go:229-234 | the slot holds its previous value explicitly |
| StateDb.PikaStateDB.RevertLog | pkg/state/account.go:248-256 | the newest log of the hash goes, and its list with the last one |
| StateDb.PikaStateDB.UndoRecords | pkg/state/account.go:69-73 | newest first, the loop undoes the suffix as the model does, and never meets an empty log list |
| StateDb.PikaStateDB.RevertEntry | pkg/state/account.go:159-280 | every kind of record, reverted on the object, does what it does to the model |
| StateDb.PikaStateDB.RevertToSnapshot | pkg/state/statedb.go:407-422 | the loop over the records is the model's revert; an unknown id changes nothing |
| StateDb.PikaStateDB.Commit | pkg/state/statedb.go:508-551 | in any order of walking the maps, it is one request and succeeds if that is answered; success leaves exactly the committed store and failure some part of it |
| Storage.StateStorage.BatchWrite | pkg/storage/state.go:159-191 | one request decides; success applies the commands of all operations in order, failure any part of them |
| Storage.StateStorage.SetAccount | pkg/storage/state.go:85-102 | history key first, then the alias; a failed first write leaves the alias alone |
| Storage.StateStorage.GetAccount | pkg/storage/state.go:69-82 | the record at exactly that block, or none |
| Storage.StateStorage.GetStorage | pkg/storage/state.go:105-113 | the word at exactly that block, or none |
| Storage.StateStorage.SetStorage | pkg/storage/state.go:116-128 | history key first, then the alias, as for accounts |
| Storage.StateStorage.GetCode | pkg/storage/state.go:131-134 | the code stored under the hash, or none |
| Storage.StateStorage.SetCode | pkg/storage/state.go:137-140 | one key, without a version |
| Storage.PikaClient.Set | pkg/storage/pika.go:51-53 | it succeeds exactly when its request is answered; success writes the key, failure may or may not have |
| Storage.PikaClient.ExecutePipeline | pkg/storage/pika.go:76-79 | success applies every command in order, failure any part |
| Storage.BatchIsFold | pkg/storage/state.go:159-191 | one pipeline writes what the setters called one by one would |
| Storage.OrderIndependence | pkg/state/statedb.go:512-547 | commands that do not disagree about a key may be put in any order, with repeats |
| Storage.RetryConverges | pkg/storage/state.go:159-191 | any part of a batch followed by all of it is all of it once |
| Storage.LatestIsLastVersion | pkg/storage/state.go:168-182 | over a store whose versions agree with latest, after writes in block order each latest key holds the value of the last block that wrote it, and one that no write touched keeps its value, also if it never had a version, as after a genesis |
| Commit.CommitAnyOrder | pkg/state/statedb.go:512-550 | the operations of a commit never disagree about a key, so every enumeration gives the same store |
| Commit.CommitCmds | pkg/state/statedb.go:512-547 | the commands of a commit are exactly the history and latest values of the overlay, and its codes |
| Commit.PartOfCommit | pkg/storage/state.go:159-191 | a failed commit leaves each key old or new |
| Commit.CommitExactness | pkg/state/statedb.go:508-550 | a database opened at the next block or at latest reads back every account, code and slot of the overlay, and no other key has changed |
| Commit.LatestKeepsWholeView | pkg/storage/state.go:42-55 | over latest, the view after a commit is the whole view before it |
| Commit.CarryForwardExactness | pkg/storage/state.go:69-74 | the next block sees an account as this one left it exactly when this block loaded it or it looks new |
| Commit.CarryForwardSlot | pkg/storage/state.go:105-113 | the same for a slot: written or looking zero |
| Commit.CarryForwardWholeView | pkg/storage/state.go:69-113 | a block hands its whole view on exactly when every stored account and slot of its parent is in the overlay or looks new |
| Keys.PrintInjective | pkg/storage/state.go:41-66 | equal printed keys have equal kind, block, address and slot or hash |
| Keys.PrintLooks | pkg/storage/state.go:41-66 | each kind prints its own words, latest or a decimal block number, and 40 digits of an address, 64 of a hash, or both |
| Keys.HashHexLooks | pkg/storage/state.go:54-60 | hashes print as 0x and 64 lower-case hexadecimal digits |
| Transactions.GasAndReceipts | pkg/executor/processor.go:115-171 | one receipt per transaction, in order, cumulative gas the prefix sum, total the full sum within the gas limit, no wrap, for any mix of rejections |
| Transactions.VerdictsTell | pkg/executor/apply.go:64-107 | each receipt has the gas and status its message's verdict says, the counter grows and the pool shrinks by exactly that gas; a rejected message or a missing signer is a failed receipt with no gas, the pool as the rejection left it |
| Transactions.ApplyOneInOrder | pkg/executor/apply.go:64-93 | one transaction keeps used plus pool within the gas limit and adds one receipt for itself |
| ReceiptLogs.ReceiptsCarryNoLogs | pkg/executor/apply.go:100-104 | if messages log only after Prepare, no receipt of a transaction with a nonzero hash carries a log |
| ReceiptLogs.ReceiptLogsExactness | pkg/executor/apply.go:100-104 | such a receipt carries the logs its message emitted if and only if none of the message's log records is live at its end |
| ReceiptLogs.BelowFloor | pkg/state/statedb.go:407-422 | the records below the lowest point a message cut the journal to are those from before it |
| Replay.ExecuteOn | pkg/state/statedb.go:102-139 | a program run over two stores with the same parent state and code gives the same answers and the same overlay |
| Transcripts.Transcript | pkg/executor/apply.go:65-68 | a message leaves what the run of its calls leaves, each call is what the program asks for after the answers so far, each answer is the one of its moment |
| Transcripts.BlockTranscript | pkg/executor/processor.go:109-172 | the transactions of a block are one run over the parent's state, so all that is proved of runs holds of blocks |
| Transcripts.BlockLeavesState | pkg/executor/processor.go:109-172 | after a block a slot holds the last word its calls set and no revert undid, else the parent's |
| Replay.ExecuteAgree | pkg/state/statedb.go:232-245 | without collisions, the codes of the overlay and of undo records are the stored ones wherever there are any |
| Processing.Perform | pkg/state/statedb.go:102-505 | any call on the object gives the model's next state and the model's answer |
| Processing.RunProgram | pkg/executor/apply.go:65-68 | a whole message run on the object gives the answers and the state of the model |
| Processing.ApplyTransaction | pkg/executor/apply.go:51-107 | state, pool, gas counter and receipt move as in the model, whether the message is rejected, fails or succeeds |
| Processing.ProcessTransactions | pkg/executor/processor.go:109-172 | the loop over a block's transactions computes the model's tally |
| BlockRuns.ApplyAllOn | pkg/executor/processor.go:64-90 | a block's receipts and writes depend on its parent's keys and on code, and on nothing else in the store |
| BlockRuns.ProcessorOfReliable | pkg/executor/processor.go:56-106 | blocks of transactions write only their own keys, latest and code, depend only on their inputs, and leave accounts with stored code |
| BlockResults.BlockReceipts | pkg/executor/processor.go:109-172 | a block answers one receipt for each of its transactions, in order, with prefix sums of gas, and what each verdict says, run over the parent |
| BlockResults.BlockLeaves | pkg/executor/processor.go:66-90 | opened at the block after it is finished, a database shows every account and slot it loaded or wrote as its last transaction left it, and no other key but receipts and height has moved |
| BlockResults.StoredReceipts | pkg/executor/processor.go:91-97 | in every run, crashes and any start included, under the receipt key of each recorded block lie the receipts of all its transactions, run over the state of some store |
| BlockResults.StoredReceiptsExactly | pkg/executor/processor.go:91-97 | where the crash theorem applies, that is the store of the uninterrupted run |
| BlockRuns.GoodChainRunnable | pkg/executor/executor.go:167-180 | chains of such blocks, from any settled store, height 0 included, meet the preconditions of the crash theorem |
| Digests.DigestedRun | pkg/state/statedb.go:232-245 | with an injective digest, code set with its digest, over a store that holds its own code: no call of any run brings code that collides |
| Digests.DigestedChainRunnable | pkg/executor/executor.go:167-180 | the same for chains: every block keeps the store holding its own code, and the crash theorem's preconditions follow |
| ExecutorSteps.CrashReplay | pkg/executor/executor.go:168-180 | in every run from any settled store, with crashes anywhere and any part of a commit written, as long as a half-finished block 1 has not touched what it reads, the recorded height moves by one at a time and then the whole store is that of the uninterrupted run |
| ExecutorSteps.LevelIsIdeal | pkg/executor/executor.go:153-156 | in such a run, whenever the recorded height is level with the greatest sync height seen, the whole store is that of the uninterrupted run |
| ExecutorSteps.CrashReplayLater | pkg/executor/executor.go:168-180 | from a store with block 1 recorded, crashes may fall anywhere |
| ExecutorSteps.ReplaySameWrites | pkg/executor/processor.go:64-90 | a half-finished block, replayed, writes the same values and receipts, from block 2 on |
| ExecutorSteps.RunConsistent | pkg/executor/executor.go:137-182 | in every state such a run reaches the store is the finished one with part of the next block on top |
| ExecutorSteps.RecordedHeight | pkg/executor/executor.go:137-182 | in every run from any store, crashes of block 1 included: the height is never below the start, never above a sync height seen, moves by one at a time, and every block up to it has its receipts stored |
| ExecutorSteps.RecordedBlocks | pkg/executor/processor.go:85-94 | every recorded block was written in order: its whole commit, then its receipts, then its height, all computed from one store |
| ExecutorSteps.RecordedReceipts | pkg/executor/processor.go:91-94 | under the condition of the crash theorem the stored receipts are those of the uninterrupted run |
| ExecutorSteps.NeverFallsExactly | pkg/executor/executor.go:160-168 | the height keeps above its start in all runs if and only if no sync height of 2^64 - 1 is seen |
| ExecutorSteps.OverrunFallsBack | pkg/executor/executor.go:168-180 | a run in which the counter wraps after block 2^64 - 1, block 0 follows and the recorded height drops to 0 |
| ExecutorSteps.LastBatchNeverEnds | pkg/executor/executor.go:168 | in every run, a batch that ends at the last block number is left only by a failure |
| FirstInputs.FinishExactness | pkg/executor/processor.go:64-90 | let block 1 have died in its commit or after its receipts, over a readable start whose code is kept: every reliable block 1 that could have left that store finishes over it as over the start, if and only if its latest accounts and slots are those of the start |
| FirstInputs.RunExactness | pkg/storage/state.go:42-44 | the same for runs: crashes of block 1 that leave this store behind never show, in any run of any such service, if and only if its latest accounts and slots are those of the start |
| FirstBlock.FirstBlockPaysTwice | pkg/executor/processor.go:64-74 | a transfer (nonce and balance check, gas, Prepare, snapshot, creation of the payee, fee) whose block 1 dies after the payee's latest key: the replay still sees the old nonce and pays again |
| FirstBlock.FirstBlockLosesPayment | pkg/executor/processor.go:64-74 | the same dying after the sender's latest key: the replay rejects the transfer, and value and fee are nowhere |
| Executors.BlockProcessor.ProcessBlock | pkg/executor/processor.go:56-106 | success leaves the block's writes and then its receipts; it fails exactly when a request is not answered or a cache cannot be made; every outcome is a run of the step system |
| Executors.BlockProcessor.ExecuteAndCommit | pkg/executor/processor.go:66-94 | success adds exactly the block's writes and answers its receipts, failure adds part of the writes; it fails exactly when a request is not answered or a cache cannot be made |
| Executors.Executor.ExecuteBlock | pkg/executor/executor.go:168-180 | success leaves the finished block with its height; likewise; every outcome is a run of the step system |
| Executors.Executor.ExecuteBatch | pkg/executor/executor.go:168-180 | a batch that comes to its end leaves the uninterrupted store there; one that is stopped was to outlive the process or ends at the last block number, which no lifetime reaches |
| Executors.Executor.GetExecProgress | pkg/storage/block.go:174-187 | a missing height reads as 0, an unreadable one is an error |
| Executors.Executor.ExecuteNextBlocks | pkg/executor/executor.go:137-182 | every tick, failures and stops included, goes on with the run so far, and fails only for a request, a cache or an unreadable height; one that comes to its end leaves the uninterrupted store at the end of the batch, at the height CatchUp.TickHeight gives |
| Executors.Executor.Run | pkg/executor/executor.go:113-134 | all ticks of a service's life, restarts included, are one run from a fresh process, and with no disturbance it records the height its ticks come to; unless block 1 was replayed over other inputs or a sync height of 2^64 - 1 was seen, the receipts are those of the uninterrupted run at any time, and so is the store whenever the height is level with the greatest sync height |
| CatchUp.CatchUpExactness | pkg/executor/executor.go:153-168 | k successful ticks end and reach min(S, h + k * B) if and only if no batch on the way wraps and the last block number is not reached |
| Executors.SteadyServiceCatchesUp | pkg/executor/executor.go:137-182 | that height, for ticks that all see one sync height, is min(S, h + k * B), under the same condition |
| CatchUp.LowHeightsDoNotWrap | pkg/executor/executor.go:158-162 | no batch end wraps while the sync height and a batch stay within 2^64 |
| WorkerPool.Conservation | pkg/worker/pool.go:55-82 | in every interleaving each accepted task is in exactly one place once, the queue keeps its bound and its order, and there are never more than N workers |
| WorkerPool.Drained | pkg/worker/pool.go:109-120 | when all workers have left, what was handed out is done once and the rest waits; without cancelling everything is done if and only if there was a worker or nothing waits |
| WorkerPool.Termination | pkg/worker/pool.go:61-81 | after closing, workers move a bounded number of times, and where none can move none is left |
| WorkerPool.ClosedOnlyLightens | pkg/worker/pool.go:55-114 | once closed, exactly the steps of workers lower the measure, and nothing raises it |
| WorkerPool.ClosedCanMove | pkg/worker/pool.go:61-81 | a closed pool with a worker left always has a step for one |
| WorkerPool.LeavesExactly | pkg/worker/pool.go:61-69 | a waiting worker can leave exactly when the pool is cancelled, over a filled queue too, or closed and empty, and can take exactly when something is queued |
| WorkerPool.AcceptsExactly | pkg/worker/pool.go:84-107 | a task can be accepted exactly when the pool is open and has room, or a worker waits at an empty queue |
| WorkerPool.CancelLeavesTasks | pkg/worker/pool.go:109-120 | a run of Shutdown that ends with all workers gone and an accepted task never done |

## Left out

- Keccak-256, signature recovery, RLP, JSON and the EVM itself: parameters of the model; a message is a program over the state database with a verdict.
- The Redis transport: the store is a map and an arbitrary function says which requests are answered; a write that is not may have reached the map or not. Reads of state do not fail. The source treats a failed read of an account, slot or code as an absent one.
- Expiry of historical keys: not modelled, so `LatestIsLastVersion` and `CrashReplay` are about runs within the expiry time.
- Executors.Executor.ExecuteBatch: the process is stopped after a given number of blocks, any number; the source has no such bound, and a batch up to 2^64 - 1 would run for ever.
- Executors.Executor.ExecuteNextBlocks: the sync height is a parameter, since another process writes it, and so for Executors.Executor.Run; a failed read of it is a tick that does nothing.
- StateDb.PikaStateDB.GetLogs: the block number and hash stamped on returned logs are left out.
- LastExecutionTime (pkg/executor/executor.go:175) and TotalTxsExecuted (pkg/storage/block.go:145): stored with the height, read by nobody; the height's record holds the height only, so "the whole store" is up to them.
- The storage root: no getter shows it; it is carried along and committed unchanged.
- StateDb.PikaStateDB.GetAccount: balances are integers, not cells; that the source copies the number out of a cached account (pkg/state/statedb.go:112, 130) and never changes a number in place is read off it, not proved.
- Storage.StateStorage.GetAccount: a failed read does not occur; the source reports it as an error, which the state database takes for an absent account.
- Storage.StateStorage.GetStorage: likewise for a slot.
- Storage.StateStorage.GetCode: likewise for code.
- Executors.Executor.GetExecProgress: a failed read, which the source takes for height 0, does not occur.
- Processing.ApplyTransaction: receipts without type, bloom filter, contract address and block hash.
- StateDb.PikaStateDB.RevertToSnapshot: the panic on an unknown revision id is the answer false with nothing changed.
- AccessList.Copy, resetObjectChange, touchChange and journal.dirty: nothing calls them.
- Transient storage, AccessEvents, GetCommittedState, and the aliases of Suicide: stubs or the same function again.
- State root keys: printed by `Keys.Print`, but their setter and getter have no caller.
- GetHashFn, the block context, headers and block bodies: lookups with no state.
- WorkerPool.Next: a submission that is rejected or panics on a closed queue is a step that leaves the pool alone; task results are arbitrary.
- The second close of a queue, which panics: the step exists once.
- Configuration, logging, metrics, the HTTP server, tickers and signals.
