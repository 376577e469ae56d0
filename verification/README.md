# eth-relayer: a verified model

The relayer moves deposits from Ethereum to a Cosmos-style bridge chain and bridge headers back to
Ethereum. This project models the parts of it that keep state and whose correctness depends on
interleaving, restart points, fixed-width arithmetic or loops, and proves what they keep.

| module | models |
|---|---|
| `Words`, `Bytes`, `Utils` | machine integers, little/big endian, hex, byte order, `EncodeBigInt` |
| `CrossTransfers` | the record of one deposit and its wire form, the key of the Retry bucket |
| `DB` | the bolt store: Retry, Check and Height buckets, capped scans |
| `DepositLedger` | a deposit's life in the store while three goroutines interleave and crash |
| `Starvation` | the deposits that the mover's passes never reach |
| `RetryPass` | one pass of `handleLockDepositEvents` and of `checkLockDepositEvents` |
| `CosmosTickets` | the Cosmos sequence counter and concurrent `sendCosmosTx` calls |
| `Nonces`, `NoncePool` | the Ethereum nonce manager and its concurrent clients |
| `EthLoop` | the Ethereum monitor as a transition system |
| `EthTick`, `EthManager` | what one tick of it does, and the class that does it |
| `EthRestart` | the Ethereum monitor across restarts |
| `BridgeLoop`, `BridgeManager` | the bridge monitor across restarts: transition system and class |
| `Depth`, `Paging`, `SenderChoice` | confirmation guards, paged queries, the weighted sender choice |
| `EndToEnd` | monitor and ledger together |

`dafny verify dfyconfig.toml` checks all of it.

How it is built. Code that updates fields is a class; each method is proved against a function of the
old state or against steps of a transition system. Answers of nodes, of the bridge and of the store are
oracles: parameters, or functions of the number of calls made so far. A step of a monitor carries only the
call it starts at; whether it can be taken and what it does is decided by the answers from that call on.
`EthereumManager.Tick` and `BridgeManager.Tick` return their steps as a ghost trace, and `EthTick.Done` and
`BridgeLoop.Done` say exactly which traces a tick may have: when its loop goes on, when it commits or
saves, and the call, made by the tick, whose missing answer stops it early. A tick is followed to its end
or to a kill between two turns of its loops (`Horizon`); a crash, a panic included, is also a step of the
ledger and of the bridge monitor that may fall anywhere.

`HandleLockDepositEvents` is proved to take exactly the events of the mover with any PutRetry calls of the
monitor between its own store calls, and `CheckLockDepositEvents` exactly those of the checker, which leave
the store alone. That the theorems of `DepositLedger`, which allow every interleaving, apply to them rests
on each store call being one atomic transaction. `SendCosmosTx` yields its events as a caller, and
`CallInRun` places them in any run of all callers.

The functions that say what an operation does are not left to themselves: what they come to is also stated
over the answers alone (`CommittedIff`, `HandledIsQueuedIff`, `FetchPutsIff`, `RelayFailsIff`), over the
record read back (`DepositIsRead`, `SeenIsCommitted`), or digit by digit (`LittleEndianAt`, `HexEncodeAt`,
`LessIff`, `VarUintForm`, `EncodedFields`, `EncodeBigIntSpelling`).

Where the code does not do what its comments or shape suggest, the model follows the code:

- `commitProof` panics on every error (manager/ethereumManager.go:580-583), so the error branches after
  it (lines 542-557) are never taken; a failed commit is a crash that leaves the entry in Retry.
- The check pass leaves every entry alone: lines 624-635 of manager/ethereumManager.go cannot be reached.
  The ledger also models what those lines intend.
- The mover deletes from Retry even when filing in Check was refused (lines 560-567).
- `handleNewBlock` reports success when fetching the events failed (lines 280-284).
- The comment at line 257 speaks of more than 50 headers; the code compares with `HeadersPerBatch`.
- `cnt` in `handleDepositTxs` is never increased, so the header is always committed.
- `commitHeader` of the bridge side returns true once its transaction was mined, also when the receipt says
  that it failed (manager/bridgeManager.go:535-543). Below, a block is relayed when it returned true.

Properties that do not hold as one would want, with the exact condition under which they do:

- A deposit survives its move to Check exactly when PutCheck was accepted or it was held elsewhere
  (`MoveKeepsAllIff`), and filing under a used hash exactly when the old entry is held elsewhere
  (`FileKeepsAllIff`).
- The check pass as meant deletes from Check whatever PutRetry said: requeueing keeps every deposit exactly
  when PutRetry was accepted or the entry is held elsewhere (`RequeueKeepsAllIff`).
- The check pass as meant races with the mover; `RequeueRace` says exactly when the entry survives and
  `RequeueRaceRun` gives a run that drops it.
- A tick of the bridge monitor that ends at height 0 persists 2^32 - 1 (`SaveKeepsCoverageIff`,
  `SaveAtZeroSkips`); at every other height the record never runs ahead.
- The confirmation guards hold exactly from node height 3 and bridge height 2 on (`EthDepthIff`,
  `BridgeDepthIff`).
- While only this relayer moves the synced height and nothing is rolled back, it can still move exactly when
  a header is queued or currentHeight has not passed it (`CanSyncIff`). The stalled state is reached
  (`StallReached`), and with HeadersPerBatch of 2 or more every tick that handles two blocks past the synced
  height and then commits ends in it (`StallingTick`).
- With HeadersPerBatch of 1 or less a tick never stalls syncing (`SmallBatchKeepsSyncing`).
- A height is handled again exactly when a rollback goes below it (`HandledOnceIff`), and only then can an
  event of it be recorded later (`NeverRecordedLater`): one failed fetch loses a deposit for good
  (`FailedFetchLoses`).
- A restart of the Ethereum monitor keeps the coverage exactly when the bridge's synced height, or a forced
  height, is not above the greatest height handled (`RestartKeepsCoverageIff`); what it skips otherwise is
  lost (`SkippedForGood`).
- A start flag of the bridge monitor is safe, whatever happened before, exactly when it is at most one above
  the stored record or not above the latest epoch start read (`FlagIsSafeIff`, `FirstFlagIsSafeIff`).
- A pass lists an entry exactly when fewer than 1000 keys come before it (`ListedIff`); behind a key whose
  commit always fails, or behind 1000 keys that are never committed, it is never moved (`StarvedBehind`,
  `StarvedByCap`).
- A waiting Cosmos ticket can still be accepted exactly when the chain has not passed it and no number from
  the expected one up to it was burnt (`TicketAcceptedIff`, `BurntTicketBlocks`; a run: `BlockedRun`).
- Sent and returned nonces leave no gap exactly when `commitHeader` dropped none (`GapFreeIff`; a run with a
  gap: `GapRun`).
- The sender scan falls through to the first sender exactly when no running total, cut to an int64,
  reaches the greatest draw (`FallbackReachableIff`).
- Non-zero multiples of 2^64 are written as "00" (`EncodeBigIntRoundTrip`, `EncodeBigIntCollides`).
- A proof is asked for above its deposit's height exactly when neither the deposit's height plus the
  confirmation depth nor the int64 proof height wraps (`ProofIsLaterIff`).

## Model

| member | source | states |
|---|---|---|
| DepositLedger.NoDepositLost | manager/ethereumManager.go:507-571 | over every interleaving of recording, moving, settling (as meant) and crashing, every entry ever recorded is in Retry, a value in Check, or confirmed |
| DepositLedger.NoDepositLostAsWritten | manager/ethereumManager.go:507-637 | for the loops as written: whatever was in the store or recorded since is in Retry or in Check after any legal sequence of events |
| DepositLedger.Step | manager/ethereumManager.go:559-635 | each single event keeps the ledger invariant, under new hashes, an accepted PutCheck, an accepted requeueing PutRetry and the proviso on requeueing |
| DepositLedger.MoverStep | manager/ethereumManager.go:541-567 | commit, PutCheck and DeleteRetry each keep the invariant, because the entry is filed before it is deleted |
| DepositLedger.CheckerStep | manager/ethereumManager.go:624-635 | confirming, requeueing and clearing as meant keep the invariant |
| DepositLedger.MoveKeepsAllIff | manager/ethereumManager.go:559-567 | moving an entry loses nothing exactly when PutCheck was accepted or the entry was already held elsewhere |
| DepositLedger.FileKeepsAllIff | db/db.go:77-94 | filing under a hash already in use loses nothing exactly when its previous entry is the same or held elsewhere |
| DepositLedger.RequeueKeepsAllIff | manager/ethereumManager.go:624-635 | requeueing a failed entry and then deleting it from Check loses nothing exactly when PutRetry was accepted or the entry is held elsewhere |
| DepositLedger.RequeueRace | manager/ethereumManager.go:559-567 | a failed check between an entry's PutCheck and DeleteRetry keeps the entry exactly when it is held elsewhere, in both orders of the two deletes |
| DepositLedger.RequeueRaceRun | manager/ethereumManager.go:624-635 | an eight-event run from an empty store that drops a recorded deposit |
| DepositLedger.RecordedStays | manager/ethereumManager.go:380-383 | the history of recorded entries contains every accepted Record event and only grows |
| Starvation.StarvedBehind | manager/ethereumManager.go:507-583 | over every interleaving and any number of crashes, an entry behind a smaller key whose commit always fails stays in Retry |
| Starvation.StarvedByCap | manager/ethereumManager.go:507-513 | an entry behind 1000 smaller keys that are never committed stays in Retry |
| Starvation.ListedIff | db/db.go:169-191 | a pass lists an entry of Retry exactly when fewer than 1000 keys come before it |
| RetryPass.MoveEntry | manager/ethereumManager.go:512-568 | one entry: skipped for one of four causes, panicked or moved exactly as decoding, mapping, maturity, proof (at the int64 of synced height less BlockConfig) and commit decide, with the exact change of both buckets whatever the monitor puts in Retry meanwhile |
| RetryPass.CommittedIff | manager/ethereumManager.go:515-541 | an entry is committed exactly when it decodes, its index has a storage key, the synced height exceeds its height plus BlockConfig, its proof at the int64 of synced height less BlockConfig is answered, and the message of that proof, its value and its txId is taken |
| RetryPass.UnprovedStays | manager/ethereumManager.go:535-539 | an entry whose proof is not answered stays in Retry, and the pass files nothing for it |
| RetryPass.UncommittedStays | manager/ethereumManager.go:513-557 | the same of every entry that is not committed |
| RetryPass.HandleLockDepositEvents | manager/ethereumManager.go:507-571 | with any puts of the monitor between its store calls, a pass visits the scanned entries in order, gives each the fate the answers decide, with its own condition for each of the four skip causes, the panic and the commit, stops early only at a panic, and leaves the store as the ledger is after the same events: Retry without the committed entries and with what was put in since, Check with the committed entries under their hashes |
| RetryPass.PassStep | manager/ethereumManager.go:541-567 | the ledger's events for one entry are legal and change Retry and Check as the entry's fate says |
| RetryPass.RetryAfterPass | manager/ethereumManager.go:564-567 | Retry loses exactly the committed entries and gains exactly what the monitor put in and no later removal took, also when the pass ends in a panic |
| RetryPass.CheckAfterPass | manager/ethereumManager.go:559-563 | Check gains exactly the hash to entry pairs of the committed entries and keeps all others, also when the pass ends in a panic |
| RetryPass.WhyStillInRetry | manager/ethereumManager.go:513-539 | an entry is still in Retry exactly if it lies beyond the cap, or the pass did not reach it, skipped it, panicked on it, or its removal was refused, or the monitor put it in again |
| RetryPass.ProofIsLaterIff | manager/ethereumManager.go:527-541 | for every entry a proof is asked for: its proof height is synced height less BlockConfig and above the deposit exactly when neither sum nor int64 conversion wraps, and the header sent along is the one at that height exactly below 2^32 |
| RetryPass.CheckEntries | manager/ethereumManager.go:607-636 | the check pass leaves each listed entry once, as a legal run of the checker as written |
| RetryPass.CheckLockDepositEvents | manager/ethereumManager.go:602-637 | the check pass lists min(1000, n) entries, leaves each once and ends, as steps of the checker as written, and changes neither store nor ledger |
| CosmosTickets.CosmosSeq.GetAndAdd | manager/ethereumManager.go:76-83 | returns the counter and advances it by one, wrapping at 64 bits |
| CosmosTickets.SendCosmosTx | manager/ethereumManager.go:441-482 | takes one ticket, returns exactly if signing fails or a reply is code 0 or another error than a sequence error or a time-out, having broadcast again after each of those, and succeeds exactly on code 0; its events as a caller follow the replies |
| CosmosTickets.CallInRun | manager/ethereumManager.go:441-482 | in every run of all callers such a call holds one number: it waits exactly until the call returns, and is accepted if it succeeds and burnt if it fails |
| CosmosTickets.TicketsPartition | manager/ethereumManager.go:441-482 | for any number of concurrent calls, issued numbers are the disjoint union of accepted, waiting and burnt, each with one holder, and the chain has passed exactly the accepted and landed ones |
| CosmosTickets.SomeoneCanProceedIff | manager/ethereumManager.go:461-479 | some caller can be served exactly when the expected number was not burnt; with nothing burnt or lost, accepted is the interval below it and the least waiting number equals it |
| CosmosTickets.TicketAcceptedIff | manager/ethereumManager.go:449-475 | some continuation accepts a waiting number exactly when the chain has not passed it and no number from the expected one up to it was burnt |
| CosmosTickets.BurntTicketBlocks | manager/ethereumManager.go:449-475 | after an error return burns an unaccepted number, the chain never passes it and no later number is ever accepted |
| CosmosTickets.BlockedRun | manager/ethereumManager.go:441-449 | from any start, two tickets and one error return leave the second ticket waiting for ever |
| CosmosTickets.LostAnswerStrands | manager/ethereumManager.go:463-473 | a caller whose transaction landed although it saw a time-out is never answered with code 0 |
| Nonces.NonceManager.GetAddressNonce | tools/nouncmanager.go:34-59 | issues the first returned nonce, else the next new one (0 if the chain query failed), and touches no other address |
| Nonces.NonceManager.ReturnNonce | tools/nouncmanager.go:61-72 | adds the nonce to the sorted returned list of its address only |
| Nonces.SortSorts | tools/nouncmanager.go:97-105 | sorting gives an ordered permutation |
| Nonces.StrictlySortedReturn | tools/nouncmanager.go:69-71 | returning a nonce not in the list keeps the list strictly sorted and adds that nonce only |
| Nonces.IssueTakesLeastFree | tools/nouncmanager.go:38-58 | a request takes the least free nonce and no other |
| Nonces.ReturnFreesOne | tools/nouncmanager.go:61-72 | a return frees that nonce and no other |
| Nonces.EthSender.SendTxToEth | manager/bridgeManager.go:439-463 | on error the free nonces are what they were before the call; on success exactly the least one is used up |
| Nonces.EthSender.CommitHeader | manager/bridgeManager.go:486-531 | failing before the nonce changes nothing; failing after it loses the nonce as if it had been sent |
| NoncePool.NoncesConserved | tools/nouncmanager.go:34-72 | over every interleaving, the issued interval is the disjoint union of held, returned, sent and leaked, the returned list is strictly sorted, no nonce has two holders, and sent and leaked nonces stay so |
| NoncePool.LeastFreeIsIssued | tools/nouncmanager.go:38-58 | a request yields the least nonce from base on that is not held, sent or leaked |
| NoncePool.SpentIsNeverReissued | manager/bridgeManager.go:439-463 | a sent or leaked nonce is never handed out again in any continuation |
| NoncePool.GapFreeIff | manager/bridgeManager.go:439-463 | with no call in flight, sent and returned fill the issued interval exactly when nothing was dropped |
| NoncePool.GapRun | manager/bridgeManager.go:521-531 | from the start, four events leave a gap: commitHeader drops a nonce and the next one is sent |
| NoncePool.SendTxAloneIsGapFree | manager/bridgeManager.go:439-451 | sendTxToEth alone leaves no gap however its calls interleave |
| EthLoop.EventsCovered | manager/ethereumManager.go:248-285 | across ticks, failures, commits and rollbacks: at each height above the start, every target event the node answered when the height was last handled was put in Retry, or the bridge answered that it has the deposit, or the store refused the entry |
| EthLoop.HandledOnceIff | manager/ethereumManager.go:248-256 | the call that handled a height stays the last that did exactly when no rollback goes below that height |
| EthLoop.NeverRecordedLater | manager/ethereumManager.go:280-284 | without a rollback below a height already passed, no event of it is recorded that was not recorded before, whatever the node answers |
| EthLoop.FailedFetchLoses | manager/ethereumManager.go:280-284 | one failed fetch: the block is handled, every later call would answer the deposit, and no continuation records it |
| EthLoop.EntriesDifferIff | manager/ethereumManager.go:369-379 | two deposits share a Retry key exactly when height, transaction hash, payload and low half of the chain agree and their ids are equal or both multiples of 2^64 |
| EthLoop.DepositIsRead | manager/ethereumManager.go:369-380 | the entry of an event decodes to its transaction hash as txId, its payload as value, the low half of its chain, the height it was seen at, and a text of its id |
| EthLoop.FetchPutsIff | manager/ethereumManager.go:334-383 | a fetch puts exactly the entries of the answered events that are targets, that the bridge answers not to have, and that the store accepts |
| EthLoop.HandledWasAnswered | manager/ethereumManager.go:287-300 | along every run each handled height had its header and the synced height answered |
| EthLoop.HandledIsQueuedIff | manager/ethereumManager.go:293-299 | along every run a block is handled only with the synced height answered, and its header is queued exactly if that is the height just below |
| EthLoop.QueueStaysOrdered | manager/ethereumManager.go:287-301 | queued heights are strictly increasing and none exceeds currentHeight |
| EthLoop.QueueOnlyGrows | manager/ethereumManager.go:297-299 | headers are queued only at synced height + 1 and leave only by a commit or a rollback |
| EthLoop.QueueHoldsAtMostOne | manager/ethereumManager.go:256-267 | if only this relayer's commits move the synced height, the queue never holds more than one header, the next one the bridge wants |
| EthLoop.QueueStalls | manager/ethereumManager.go:287-301 | once currentHeight passed the synced height with an empty queue, nothing is queued and the synced height never moves without a rollback |
| EthLoop.CanSyncIff | manager/ethereumManager.go:248-267 | with own commits only and no rollback, some run moves the synced height exactly when a header is queued or currentHeight has not passed it |
| EthLoop.StallReached | manager/ethereumManager.go:248-267 | from any synced height, two blocks and one confirmed commit reach the stalled state |
| EthTick.TraceSettles | manager/ethereumManager.go:313-387 | along every trace, each target event answered at a height it handled is among the entries it put, or was answered to be relayed, or was refused |
| EthTick.TickIsConfirmed | manager/ethereumManager.go:243-248 | every tick handles only heights at least 3 below the node, from node height 3 on |
| EthTick.BatchNeverFires | manager/ethereumManager.go:258-263 | with own commits only and HeadersPerBatch of 2 or more, the loop of a tick never commits |
| EthTick.StallingTick | manager/ethereumManager.go:248-267 | every tick that handles two blocks past the synced height and then commits leaves header syncing stalled |
| EthTick.SmallBatchKeepsSyncing | manager/ethereumManager.go:248-267 | with HeadersPerBatch of 1 or less and no rollback, a tick that starts with syncing possible leaves it possible |
| EthRestart.RestartKeepsCoverageIff | manager/ethereumManager.go:193-209 | a restart keeps the coverage exactly when the synced height, or a forced height, is not above the greatest height handled |
| EthRestart.CoverageOverLives | manager/ethereumManager.go:193-272 | over any number of processes whose restarts keep that rule, each cut short anywhere, every height from the first start to the greatest one reached was handled and its target events settled |
| EthRestart.SkippedForGood | manager/ethereumManager.go:193-209 | a height that a restart skips is not handled, and none of its deposits recorded, unless something rolls back below it |
| EthManager.EthereumManager.Init | manager/ethereumManager.go:193-209 | fails on a missing or zero synced height; otherwise starts there or at an earlier forced height, which is the restart of the transition system |
| EthManager.EthereumManager.IsTarget | manager/ethereumManager.go:336-360 | the nested filter loops accept exactly the events of listed contracts whose chain is listed or whose list is empty, or all events without a list |
| EthManager.EthereumManager.RecordEvent | manager/ethereumManager.go:334-384 | an event is ignored exactly if it is no target, passed over exactly if the bridge answers that it has it, and otherwise put in Retry exactly if the store accepts; see DepositIsRead for the entry |
| EthManager.EthereumManager.FetchLockDepositEvents | manager/ethereumManager.go:313-387 | fails exactly if the events are not answered; otherwise takes them in order, one lookup and one put each, and Retry gains exactly the entries those answers let it put |
| EthManager.EthereumManager.HandleBlockHeader | manager/ethereumManager.go:287-301 | succeeds exactly if header and synced height are answered, and queues the header exactly when it is the one after the synced height |
| EthManager.EthereumManager.HandleNewBlock | manager/ethereumManager.go:274-285 | succeeds exactly if header and synced height are answered; then it is the Handled step those and the following answers decide, else height, queue and Retry stay as they are |
| EthManager.EthereumManager.CommitHeader | manager/ethereumManager.go:390-419 | sends exactly the headers queued, and the reply to them decides the step: a confirmed commit empties the queue, a missing parent rolls back, another failure keeps the queue |
| EthManager.EthereumManager.RollBackToCommAncestor | manager/ethereumManager.go:421-439 | ends with an empty queue at a height where both chains agreed during the walk; at each height it passed, the bridge had no header or the hashes differed during the walk; it finds none only if killed or past height 0 |
| EthManager.EthereumManager.Turn | manager/ethereumManager.go:248-264 | one turn handles the next block if it is answered, then commits exactly if the queue has reached the batch size, and ends the tick exactly if one of the two fails |
| EthManager.EthereumManager.HandleBlocks | manager/ethereumManager.go:248-264 | the loop goes on exactly while its guard holds, no turn fails and the process lives |
| EthManager.EthereumManager.RunLoop | manager/ethereumManager.go:247-267 | the headers left over are committed exactly if the loop was ended by its guard |
| EthManager.EthereumManager.Tick | manager/ethereumManager.go:237-267 | a tick does nothing without a node height or within 3 of it; otherwise its trace is one the answers allow, it ends only at a block this tick asked for in vain, at a failed commit, or with every confirmed block handled and no header left to send, and, ended or killed, every height it handled had its header and the synced height answered, and every target deposit answered there is in Retry, was relayed, or was refused |
| EndToEnd.EveryDepositIsHeld | main.go:139-141 | monitor, mover and checker together, in any interleaving and over any number of restarts that skip nothing: at the end each target deposit answered at any height above the first start is in Retry or in Check, or was answered to be relayed, or was refused |
| EndToEnd.SeenIsCommitted | manager/ethereumManager.go:371-376 | for an entry the monitor recorded, the mover looks up a text of the event's id, counts maturity from the height it was seen at, and sends its payload and transaction hash |
| EndToEnd.RecordedIsPut | manager/ethereumManager.go:380-383 | every entry the monitor holds as recorded is an accepted PutRetry call among the calls of its run |
| BridgeLoop.ResumeSkipsNothing | manager/bridgeManager.go:167-182 | over any starts, failures and crashes, a restart never resumes above a height that was not relayed, unless the epoch start is above it |
| BridgeLoop.CoverageOverRuns | manager/bridgeManager.go:221-236 | every height from the first start up to the current one, and up to and including a saved one, was relayed from the call noted for it, or lies below an epoch start |
| BridgeLoop.SaveKeepsCoverageIff | manager/bridgeManager.go:234-236 | saving keeps that coverage exactly when currentHeight is not 0, or all heights up to 2^32 - 1 were covered anyway |
| BridgeLoop.FlagIsSafeIff | manager/bridgeManager.go:168-171 | a start flag keeps the coverage of every stopped relayer with a given record and epoch start exactly when it is at most one above the record or not above the epoch start |
| BridgeLoop.FirstFlagIsSafeIff | manager/bridgeManager.go:168-171 | on the very first start, exactly when it is not below the record found |
| BridgeLoop.TickRelays | manager/bridgeManager.go:221-236 | every tick relays the heights from currentHeight on, each relayed by a commitHeader that returned true during the tick and 2 below the status, stops only there or at a block that fails in this tick, and then records the last one |
| BridgeLoop.RelayFailsIff | manager/bridgeManager.go:302-332 | relaying a block fails exactly if its header, a page or a proof is not answered, or the sender chosen does not commit the header |
| BridgeLoop.SavedHeight | manager/bridgeManager.go:234-236 | the record is the height less one exactly between 1 and 2^32, and is below the height exactly from 1 on |
| BridgeLoop.SaveAtZeroSkips | manager/bridgeManager.go:221-236 | a first tick that fails at height 0 makes the next start resume at 2^32 - 1 |
| BridgeManager.BridgeManager.Init | manager/bridgeManager.go:167-182 | a flag is taken as it is; otherwise the height is at least the record and at least the epoch start answered, and one of the two |
| BridgeManager.BridgeManager.HandleDepositTxs | manager/bridgeManager.go:302-332 | true exactly when the header, every page and every proof are answered and the sender chosen after one draw per transaction commits the header |
| BridgeManager.BridgeManager.RelayNext | manager/bridgeManager.go:228-232 | moves on by one height, wrapping at 64 bits, exactly if the block was relayed |
| BridgeManager.BridgeManager.SaveHeight | manager/bridgeManager.go:234-236 | one Save step, writing the 32-bit record |
| BridgeManager.BridgeManager.Tick | manager/bridgeManager.go:208-236 | does nothing without a status or too close to it; otherwise relays consecutive heights, each by a commitHeader that returned true, stops only at its guard or at a block that could not be relayed in this tick, then saves once; a killed tick saves nothing |
| Depth.EthDepthIff | manager/ethereumManager.go:243-248 | the guard and loop handle only heights 3 below the node exactly when the node height is at least 3; a node that fell behind wraps the guard yet handles nothing |
| Depth.BridgeDepthIff | manager/bridgeManager.go:214-221 | the bridge loop keeps two blocks of distance exactly when the reported height is at least 2 |
| SenderChoice.SelectSender | manager/bridgeManager.go:334-356 | returns the least sender whose running total, cut to an int64, reaches the draw, or the first if none does |
| SenderChoice.FallbackReachableIff | manager/bridgeManager.go:349-355 | exactly when the fallback can be taken; never below 2^63, always above it |
| SenderChoice.DrawsPerSender | manager/bridgeManager.go:334-356 | each sender is chosen by as many draws as its balance, give or take one, with the exact count |
| SenderChoice.DrawsAddUp | manager/bridgeManager.go:334-356 | the counts of all senders add up to the total |
| Paging.GetBridgeTxs | manager/bridgeManager.go:258-299 | succeeds exactly if every page and every proof is answered, with all transactions once, in order, each with its proof; an error returns a prefix |
| Paging.PagesMakeUpAll | manager/bridgeManager.go:261-274 | from a consistent server the pages asked for make up the whole list |
| Paging.GetValidators | tools/tendermint.go:51-69 | stops at the first page that is out of range, empty or failed, with all earlier pages in order |
| Paging.WholeValidatorSet | tools/tendermint.go:51-69 | from a consistent server the loop stops right after the last page with the whole set |
| DB.BoltDB.PutCheck | db/db.go:77-94 | files under the decoded hash, refusing text that is not hex |
| DB.BoltDB.DeleteCheck | db/db.go:96-112 | removes the entry of the decoded hash |
| DB.BoltDB.PutRetry | db/db.go:114-127 | adds the key, or nothing if refused |
| DB.BoltDB.DeleteRetry | db/db.go:129-141 | removes the key, or nothing if refused |
| DB.BoltDB.Scan | db/db.go:173-184 | a capped scan collects exactly the first 1000 keys in byte order |
| DB.BoltDB.GetAllRetry | db/db.go:169-191 | the first min(1000, n) keys of Retry in byte order |
| DB.BoltDB.GetAllCheck | db/db.go:143-167 | min(1000, n) entries of Check under the lower-case hex of their keys |
| DB.BoltDB.UpdateBridgeHeight | db/db.go:224-235 | writes the four-byte little-endian record |
| DB.BoltDB.GetBridgeHeight | db/db.go:237-253 | reads the record, or 0 if there is none |
| DB.StoredHeightRoundTrip | db/db.go:224-253 | a stored height reads back unchanged |
| DB.FirstKeysUnique | db/db.go:169-191 | byte order and cap determine the scan |
| DB.ViewEntry | db/db.go:143-167 | a listed hash decodes to the key of the entry it was copied from, and so does exactly every other spelling of it |
| DB.ViewSize | db/db.go:143-167 | the view has min(1000, n) entries, and all of them when there are at most 1000 |
| DB.DeleteListedEntry | db/db.go:96-112 | deleting under a listed hash removes that entry and no other |
| CrossTransfers.RoundTrip | manager/ethereumManager.go:91-126 | decoding an encoding gives the record and leaves exactly what followed |
| CrossTransfers.TrailingBytesAreLeft | manager/ethereumManager.go:99-126 | trailing bytes never change the result |
| CrossTransfers.StrictPrefixRejected | manager/ethereumManager.go:99-126 | every strict prefix of an encoding is rejected |
| CrossTransfers.EncodingIsPrefixFree | manager/ethereumManager.go:91-97 | one encoding is a prefix of, or equal to, another exactly when the records are the same |
| CrossTransfers.Serialization | manager/ethereumManager.go:91-97 | appends exactly the record's encoding to the sink |
| CrossTransfers.Deserialization | manager/ethereumManager.go:99-126 | reads exactly what the decoder specifies, or fails where it does |
| Utils.EncodeBigIntRoundTrip | tools/utils.go:168-173 | even-length text that decodes to the number exactly when its low 64 bits are not all zero or it is zero |
| Utils.EncodeBigIntCollides | tools/utils.go:168-173 | two numbers share a text exactly when equal or both multiples of 2^64 |
| Bytes.HexDecodesExactly | db/db.go:81-84 | the texts that decode to given bytes are exactly the spellings of their encoding in any case |
| Bytes.HexEncodeAt | db/db.go:150-156 | two lower-case digits per byte, the high half first |
| Bytes.LessIff | db/db.go:173-184 | keys are scanned in the order in which a proper prefix comes first, else the smaller byte where they first differ |
| Bytes.LittleEndianAt | db/db.go:224-229 | byte i of a record counts 256^i |
| Bytes.BigEndianIsReversed | manager/ethereumManager.go:369-370 | the number an id is read as |
| Utils.EncodeBigIntSpelling | tools/utils.go:168-173 | lower case, "00" for zero, otherwise no leading zero byte |
| CrossTransfers.VarUintForm | manager/ethereumManager.go:91-97 | a length takes one byte below 0xFD, and else a tag and 2, 4 or 8 bytes, the low byte first |
| CrossTransfers.EncodedFields | manager/ethereumManager.go:91-97 | the fields in order, with their widths |

## Left out

- EthManager.EthereumManager.Tick: is proved to end only under a lasting common ancestor, a height above which the node never has a header, and finitely many rollbacks and failed lookups of headers that exist; otherwise it is followed to a kill between two turns of its loops. A kill inside the handling of one block is not followed; `EndToEnd` allows the puts it leaves behind.
- EthManager.EthereumManager.RollBackToCommAncestor: a failed Ethereum lookup is read as "retry the same height"; the code goes on to hash a missing header, which is inside go-ethereum, not part of this model. A walk that finds no match down to height 0 is not followed further; the code wraps to 2^64 - 1 there.
- BridgeManager.BridgeManager.Tick: is proved to end only if some height is one the chain never has; at LatestBlockHeight 1 the guard wraps and the loop ends only there. Otherwise it is followed to a kill between two blocks.
- CosmosTickets.SendCosmosTx: describes the first `rounds` broadcasts of a call, for every `rounds`; a call that is only ever told to retry spins for ever, as `BurntTicketBlocks` shows it can.
- CosmosTickets.TicketsPartition: assumes fewer than 2^64 tickets, so that the counter does not wrap, and an account that only this relayer uses.
- NoncePool.NoncesConserved: assumes the nonce counter does not wrap, that a send error means the transaction was not accepted, and one process lifetime (a restart asks the chain again).
- DepositLedger.NoDepositLost: assumes new broadcast hashes, an accepted PutCheck, an accepted requeueing PutRetry, and no requeue between an entry's PutCheck and DeleteRetry; `FileKeepsAllIff`, `MoveKeepsAllIff`, `RequeueKeepsAllIff` and `RequeueRace` say, in this order, exactly what happens otherwise. `NoDepositLostAsWritten` needs only the first two.
- EndToEnd.EveryDepositIsHeld: ties monitor and ledger by their PutRetry calls only.
- Starvation.StarvedBehind: speaks of the mover's events; that a failing commitProof is a crash there is `RetryPass.PassStep`.
- The sink and source library is not part of this repository: lengths are taken as the usual 1, 3, 5 or 9 byte form and numbers as little endian.
- Bolt's own limits on keys and values appear only as refused updates.
- The confirmation waits after a header commit or an Ethereum transaction are one answer each; they poll chains that are not part of this model.
- `commitDepositEventsWithHeader` and its channels: nothing calls it in this version. `GetBridgeTxs` of tools/tendermint.go: an uncalled copy of the modelled loop.
- `DecreaseAddressNonce` and `clearNonce`: never called or started.
- RPC, JSON, ABI packing, gas, signing, key stores, Merkle proofs, log texts and explorer addresses.
- Slice sharing in Go's returned-nonce list: lists are values here.
- Time, tickers and sleeps: a tick is one enabled step. The poly height record is a copy of the bridge height record. `CalcCosmosFees` and the wiring of main.go add only easy facts.
