# PrimeDelta SDK: verified models

Dafny models of the parts of the PrimeDelta Python SDK whose correctness is hardest to see
from one function at a time. `dafny verify dfyconfig.toml` checks the whole project.

| file | what it models |
|---|---|
| `BridgeState.dfy` | the state of the loopback wallet bridge as a value, one function per locked block |
| `LoopbackBridge.dfy` | the bridge as the mutable object it is; every method is proved equal to its function |
| `BridgeProtocol.dfy` | all interleavings of callers, page polls, posted answers, cancellations and `close` |
| `BridgeService.dfy` | what the bridge does for its callers over any run: answers, failed replies, order, cancellation |
| `ChainAnswers.dfy` | the chain as an arbitrary function of questions, and what its answers say |
| `SendJournal.dfy` | the record of every submission, wait and receipt lookup of one client |
| `Clearing.dfy` | the result of clearing stuck transactions, and why it is exact |
| `Sends.dfy` | key-signed sends and `clear_stuck_transactions` over an arbitrary chain |
| `SendResults.dfy` | what sends and clearings mean in the chain's own answers |
| `FreshReads.dfy` | read-your-writes reads with retry |
| `TraceWalk.dfy` | the explicit-stack walk of a call trace |
| `Rounding.dfy` | rounded division and the gas margins |
| `OraclePool.dfy` | the dynamic fee and the exact-input quote of an oracle-priced pool |
| `ExactQuotes.dfy` | fee and quote fixed from both sides, without the code's own quotients |
| `LargerQuotes.dfy` | which fee curves may quote a larger amount less |
| `LiquidityQuote.dfy` | sizing a liquidity add, and what LP tokens redeem |
| `Bytes.dfy`, `SharePrice.dfy` | big-endian integers and the share price inside a signed update |
| `SymbolCache.dfy` | resolving a token symbol, with the memo and the batched scan |
| `Relogin.dfy` | automatic re-login shared by any number of threads |
| `ReloginCalls.dfy` | why a call is sent again, and when a login is started for it |
| `DerSignature.dfy` | the DER signature reader and the low-s form |

## How the models read

The wallet bridge. One event is one `with self._cond` block or one unlocked read of one
thread; requests, polls, replies, posts, cancellations and `close` come in any order. A job
is registered and queued, taken by a poll (which marks it dispatched), delivered or put back
by a failed reply, and answered by a post. What makes the unlocked reads at the end of
`request` sound is that a record never changes once it has left the table of jobs
(`RunGrowsSpot`). An `OSError` while replying means that the page did not get the job, which
is what the source assumes. A post may name any token. One poll reads the cancel events as
they stand at its last test: an event set for an entry skipped earlier is still set then,
because events are never cleared.

The chain. Every answer (nonces, balances, gas price, chain id, simulations, broadcasts,
receipts) is an arbitrary function of the number of questions asked before, so every lag,
refusal and loss is covered. The watermark is the highest account nonce that the chain has
reported, kept with the question that reported it: a read of the latest nonce, or the text of
a "nonce too low" failure. Every broadcast, wait and receipt lookup is an entry of the
journal, with its question and the chain's answer; a broadcast also with the watermark and
the accounted nonces of its moment. Each call returns a ghost outcome: its attempts, or its
survey, submissions and waits, by question number. The questions of one call are
consecutive, and so are the calls of a run; between calls a client remembers the counter,
the accounted nonces and the last write block, and nothing else.

Integers. Amounts are whole units: 18 decimals for stock and pool dUSD, 6 for dUSD in and out.
Python's `//` floors and all divisors are positive, which is Dafny's `/`.

Where the code and its comments differ, the models follow the code:

- `_send_with_nonce_retry` speaks of a chain that rejects "nonce too low", but it retries a
  `TransactionFailed` only; the same text raised by the broadcast itself is not retried
  (src/primedelta/primedelta.py:2115-2117, 2327-2345). `Sends.Sender.Send` states exactly when
  an attempt is retried, and `Sends.BroadcastTooLowIsNotRetried` is a run that is not.
- `_resolve_stock_token` says that it prefers the backend's pools, but the memo is asked first
  and a batched scan memoizes every symbol it reads; so a scanned address can shadow a
  configured pool for up to 600 seconds. `SymbolCache.ShadowedExactlyByLiveMemo` states exactly
  when, over any run, and `SymbolCache.ConfiguredPoolIsShadowed` is such a run.

## Model

| member | source | states |
|---|---|---|
| BridgeState.RemoveFirstLeavesNoCopy | src/primedelta/browser.py:373-374 | in a queue without duplicates the single `remove` leaves no copy and no new duplicate |
| BridgeProtocol.MoveKeepsSpot | src/primedelta/browser.py:340-497 | seen from one job, every move of any thread keeps its record, phase, queueing, delivery, lateness and answers consistent, and takes back nothing that has become final |
| BridgeProtocol.StepFollows | src/primedelta/browser.py:340-497 | every event of the whole system is, for each job, one of those moves |
| BridgeProtocol.StepKeepsInv | src/primedelta/browser.py:340-497 | every event of every thread keeps the invariant: known tokens, no token queued twice, no two handlers holding one job, and `SpotSound` for each token |
| BridgeProtocol.RunKeepsInv | src/primedelta/browser.py:340-497 | the invariant holds in every state of every run |
| BridgeProtocol.RunGrowsSpot | src/primedelta/browser.py:371-402 | a record is frozen once it left `_jobs`; endings, deliveries, set cancel events and accepted answers are never taken back |
| BridgeProtocol.NothingSentIsTrue | src/primedelta/browser.py:378-398 | a request that ends with "nothing was sent to the wallet" was never delivered to a page and never will be |
| BridgeProtocol.DeliveredIsNeverDenied | src/primedelta/browser.py:378-402 | a request whose job reached a page ends with its accepted answer, or with "may still complete" when there is none |
| BridgeProtocol.AtMostOneAnswer | src/primedelta/browser.py:479-497 | a token accepts at most one answer over its whole life, across `_resolve` and `_take_late`, whether its request is pending, ended or failed |
| BridgeProtocol.AnswerReachesItsRequest | src/primedelta/browser.py:479-497 | an answer that `_resolve` accepted is what its own request returns or raises; a late one belongs to a request that timed out; a value or wallet error always comes from an accepted answer |
| BridgeProtocol.FinishedOneWay | src/primedelta/browser.py:324-327 | a finished job is exactly one of closed and answered, and its result is the answer `_resolve` accepted |
| BridgeProtocol.DispatchIsAllowed | src/primedelta/browser.py:448-461 | a job is dispatched only while registered, undispatched, unheld, undelivered and uncancelled, and never after `close` |
| BridgeProtocol.DeliveredAtMostOnce | src/primedelta/browser.py:562-571 | whatever replies fail and are queued again, no two deliveries are of the same job |
| BridgeProtocol.CloseFinishesEverything | src/primedelta/browser.py:319-332 | every job registered when `close` runs is finished from then on; nothing is served or late ever after, whatever is requeued or registered; a job registered later is never delivered |
| BridgeProtocol.LateComersAreNeverSent | src/primedelta/browser.py:359-367 | a job registered after `close` is never marked dispatched |
| BridgeProtocol.CancelledWaitSaysNothingSent | src/primedelta/browser.py:424-427 | a wait that ended on a set cancel event while undispatched never reports a time-out or a possible completion, and its job is never delivered |
| BridgeProtocol.UnsentJobIsQueued | src/primedelta/browser.py:448-461 | in every reachable state the queue has no duplicates and only registered tokens, so the lookup of a queued token never fails; a registered job that is neither dispatched nor finished is queued or cancelled |
| BridgeProtocol.HolderIsUnqueued | src/primedelta/browser.py:470-477 | a job that a handler holds is not in the queue, so requeueing it duplicates nothing |
| BridgeProtocol.QueuedIsUnheld | src/primedelta/browser.py:451-456 | a queued job is registered, undispatched and held by no handler |
| BridgeProtocol.SpotPair | src/primedelta/browser.py:340-402 | any two moments of a run agree on one token: both are sound and one has grown from the other |
| BridgeService.LateExactly | src/primedelta/browser.py:371-377 | until `close`, a job is late if and only if it left the table dispatched and unfinished and no answer to it has counted yet |
| BridgeService.LateAnswerCounts | src/primedelta/browser.py:491-497 | the first answer posted to a late job counts, exactly then; the wallet's answer to a job that was sent and given up is not lost |
| BridgeService.WaitedAnswerCounts | src/primedelta/browser.py:479-489 | an answer posted to a waiting job counts exactly when the job is unfinished and a page has it or is being given it, and becomes its result; otherwise nothing changes |
| BridgeService.AnswerIsLostExactly | src/primedelta/browser.py:590-597 | `_take_late` and `_resolve` are two blocks: the first answer to a delivered job on an open bridge is refused if and only if its request gave up between the two |
| BridgeService.FailedReplyPutsBack | src/primedelta/browser.py:470-477 | after a failed reply the job is unheld and undelivered; while its request waits it is first in the queue and unsent again, otherwise it stays as it was |
| BridgeService.MarkedMeansTaken | src/primedelta/browser.py:448-477 | a waiting job is marked dispatched if and only if a handler holds it or a page received it |
| BridgeService.FirstComeFirstServed | src/primedelta/browser.py:359-361 | when a job is taken that was not put back since it was registered, every job queued before it has left the queue or is dropped as cancelled by that poll |
| BridgeService.CancelledIsNeverTaken | src/primedelta/browser.py:451-461 | once the cancel event a request was made with is set, its job is never taken any more |
| LoopbackBridge.Bridge.Start | src/primedelta/browser.py:292-311 | it succeeds exactly when the bridge then serves and is not closed; a closed bridge, or one that can bind no server, is left as it was |
| LoopbackBridge.Bridge.Register | src/primedelta/browser.py:349-361 | the new job is fresh, registered, queued last and undispatched; every other job keeps its contents |
| LoopbackBridge.Bridge.Withdraw | src/primedelta/browser.py:371-377 | the token leaves the table and the queue, becomes late exactly when dispatched and unfinished, and `finished` is the event's state; what lateness is for is stated by `BridgeService.LateExactly` |
| LoopbackBridge.Bridge.PopLive | src/primedelta/browser.py:448-456 | exactly the cancelled entries in front are dropped; the first live one is taken unless the server is gone, the peer is gone or the queue is empty |
| LoopbackBridge.Bridge.NextJob | src/primedelta/browser.py:443-465 | the object's poll is the abstract step: skip cancelled entries, then take the first other one and mark it |
| LoopbackBridge.Bridge.Requeue | src/primedelta/browser.py:470-477 | a registered job goes back to the front, undispatched; an unregistered one changes nothing; the tables stay sound exactly when the job was not queued already |
| LoopbackBridge.Bridge.Resolve | src/primedelta/browser.py:479-489 | an answer is accepted exactly when state and payload are usable and the job is registered, dispatched and unfinished; then it is the result |
| LoopbackBridge.Bridge.TakeLate | src/primedelta/browser.py:491-497 | a late job is handed out exactly once |
| LoopbackBridge.Bridge.FinishJobs | src/primedelta/browser.py:324-327 | the loop marks exactly the unfinished registered jobs as closed and done |
| LoopbackBridge.Bridge.Close | src/primedelta/browser.py:319-329 | the whole state after `close` |
| LoopbackBridge.Report | src/primedelta/browser.py:378-402 | without an answer, "nothing was sent" is said exactly when the job is not marked as dispatched and "may still complete" exactly when it is; a wallet error or value is the recorded answer's |
| BridgeState.TruthfulIsEnding | src/primedelta/browser.py:378-402 | those conclusions leave exactly one ending, the one an atomic reading of the record would give |
| FreshReads.FreshBlockCovers | src/primedelta/primedelta.py:1441-1454 | the block chosen for a read is "latest" exactly while nothing was written, and otherwise the larger of the last write and the newest known block |
| FreshReads.ReadAtBlock | src/primedelta/primedelta.py:1463-1488 | at most three reads at the block and one at "latest"; every read but the last failed with an error `final` refuses; it never gives up early |
| FreshReads.StaleOnlyAfterThreeFailures | src/primedelta/primedelta.py:1456-1488 | a value from a block that may miss the last write was read as the fourth, only after three reads at blocks holding it had failed |
| Sends.Sender.NoteWrite | src/primedelta/primedelta.py:1436-1439 | the last write block becomes the larger of itself and the block noted |
| Sends.Sender.ReadAtFreshBlock | src/primedelta/primedelta.py:1456-1461 | read-your-writes on this client's own counter |
| Sends.Sender.LatestNonce | src/primedelta/primedelta.py:2320-2325 | the nonce is the last answer of this call's questions for this block, asked there up to three times and then at "latest", all others unanswered; it raises the watermark; it fails exactly when all of them are unanswered |
| Sends.Sender.LookAtNonces | src/primedelta/primedelta.py:2313-2315 | one look: a fresh block is asked for first, both nonces are the chain's, and exactly the nonces below the latest one are forgotten |
| Sends.Sender.PendingNonceUnlessStuck | src/primedelta/primedelta.py:2300-2318 | on success the last look leaves every nonce from the latest to the pending one accounted for, at a block holding the last write; it refuses as stuck only after five looks, each at a fresh block of its own and each leaving a nonce unaccounted for in the set of that look |
| Sends.LookAt | src/primedelta/primedelta.py:2309-2317 | every look but the last left something unaccounted for, and the next one asked right after it, with the nonces it had kept |
| Sends.Reserved | src/primedelta/primedelta.py:2461-2469 | the nonce is never below the pending one nor at or below the last used, and past the pending one it is exactly one past the last used |
| Sends.Sender.ReserveNonce | src/primedelta/primedelta.py:2461-2469 | reserving leaves no gap below the nonce that is not accounted for |
| ChainAnswers.LowBalanceMisses | src/primedelta/primedelta.py:2274-2297 | without an estimate, a balance below the value alone is a shortfall some read of this call showed |
| ChainAnswers.LastBalanceWasRead | src/primedelta/primedelta.py:2255-2266 | the balance reported with a failed estimate is the last one that a read of this call returned |
| Sends.Sender.GasLimit | src/primedelta/primedelta.py:2235-2298 | the limit comes from a read at the confirmed block whose balance pays for it and the value; "not enough gas" exactly when the balance read with the estimate does not, or nothing was estimated and the last balance is below the value; the local counter is dropped exactly when the last simulation reverted |
| Sends.Sender.FillGasAndNonce | src/primedelta/primedelta.py:2228-2233 | what one attempt signs, or why it signs nothing, has its cause in the chain's answers: a confirmed nonce with nothing unaccounted below it, the network's price, and gas that the balance at the confirming block pays for; what is remembered afterwards follows from the same answers |
| Sends.Sender.Submit | src/primedelta/primedelta.py:2327-2345 | the nonce is accounted for before the broadcast and stays so unless the node refused it and no earlier transaction of ours holds it; any failure drops the local counter; the reply in the journal is the chain's answer to this broadcast |
| Sends.Sender.WaitForReceipt | src/primedelta/primedelta.py:2347-2369 | a time-out stops accounting for the nonce and drops the local counter; any other end changes neither |
| Sends.Sender.SubmitAndAwait | src/primedelta/primedelta.py:2203-2226 | the broadcast's answer and the receipt decide the result and what is remembered: a broadcast that was not accepted ends in its own error whatever its text |
| Sends.SuccessIsNoted | src/primedelta/primedelta.py:2203-2226 | a successful attempt saw a successful receipt for its own hash, and if that names a block, the last write block becomes the larger of itself and it |
| Sends.Sender.SendOnce | src/primedelta/primedelta.py:2139-2226 | one attempt submits at most once and waits at most once; nothing is submitted when stuck, out of funds or unable to simulate; counter, accounted nonces and last write block afterwards are those its answers leave, so that after a time-out its nonce counts as stuck |
| Sends.RetryCause | src/primedelta/primedelta.py:2113-2129 | an attempt is tried again if and only if its simulation or its receipt failed saying "nonce too low"; never after a broadcast that was not accepted |
| Sends.Sender.Send | src/primedelta/primedelta.py:2103-2130 | every attempt but the last was tried again for that reason and the next went on from the account nonce it named and from what the attempt left; the last was not, or was the fifth; after a success the receipt's block is at most the last write block; what the client remembers is what the last attempt left |
| Sends.AttemptAt | src/primedelta/primedelta.py:2103-2130 | each attempt but the last was tried again, and the next one started at the next question, from the nonce its error named and with the accounted nonces and last write block it left |
| Sends.BroadcastTooLowIsNotRetried | src/primedelta/primedelta.py:2113-2129 | a run on a chain that refuses every broadcast as "nonce too low": one submission, one attempt, the broadcast's own error |
| SendResults.RepeatedExactly | src/primedelta/primedelta.py:2110-2130 | an attempt is followed by another if and only if its simulation or receipt failed saying "nonce too low" and it is not the fifth |
| SendResults.RetryGoesOnFromTheNamedNonce | src/primedelta/primedelta.py:2122-2126 | a retry uses the larger of the pending nonce and the account nonce that the failure named, and the pending nonce if it named none |
| SendResults.LooksReadOwnWrites | src/primedelta/primedelta.py:1441-1488 | the latest nonce of a look was read at a block holding the last write and the newest known one, or at "latest" as the fourth read after three such reads failed |
| SendResults.StuckExactly | src/primedelta/primedelta.py:2300-2318 | a send is refused as stuck if and only if five looks each show a nonce between latest and pending that is not accounted for; each look keeps exactly the nonces from the latest one on |
| SendResults.AttemptLeaves | src/primedelta/primedelta.py:2327-2369 | after each kind of broadcast and wait, whether the nonce is accounted for and whether the counter stays |
| SendResults.GasIsPaidFor | src/primedelta/primedelta.py:2254-2298 | a signed transaction's gas is the estimate up to 21000 and otherwise the least amount at least 25% above it, and a balance read with that estimate pays for gas and value |
| SendResults.PoorExactly | src/primedelta/primedelta.py:2267-2298 | "not enough gas" if and only if the last read gave an estimate its balance does not pay for, or none and the last balance is below the value; some read shows the shortfall |
| SendResults.RevertDropsTheCounter | src/primedelta/primedelta.py:2371-2379 | a failed simulation drops the local counter if and only if the last one reverted, and no earlier one reverted or gave an estimate |
| SendJournal.JournalAppend | src/primedelta/primedelta.py:1436-1439 | appending one true entry keeps the journal sound: every entry the chain's answer, nothing unknown below a send, known nonces only this client's own; the highest receipt block and the nonces that went out grow by that entry |
| SendJournal.HighestIsNoted | src/primedelta/primedelta.py:1436-1439 | the noted block bounds every block that an entry shows a write in: a successful wait, any mined replacement, any receipt looked up; and it is one of them unless it is 0 |
| SendJournal.BelowIsOurs | src/primedelta/primedelta.py:2309-2318 | in a sound journal every nonce between the one the chain had reported and the one a send used is the nonce of an earlier broadcast of this client that was not refused |
| SendJournal.KnownAt | src/primedelta/primedelta.py:2327-2345 | a nonce counted as known at a submission had gone out in an earlier, unrefused broadcast |
| Sends.RunAnyCalls | src/primedelta/primedelta.py:2093-2130 | over any calls on any chain from a fresh client: each call has an outcome that its chain answers explain, starting where the one before stopped asking and with what it left; the journal is the entries of these outcomes in order and is sound, with every watermark a nonce the chain had reported; every receipt of a successful send or of a replacement has a block at most the last write block, which is one of them or 0 |
| Sends.RunMore | src/primedelta/primedelta.py:2093-2130 | a run with one more call that goes on from it is a run, and its journal, last question and memory are those of that call |
| Sends.Sender.SubmitReplacements | src/primedelta/primedelta.py:1717-1744 | one replacement per stuck nonce, in order, none waited for, each reply the chain's answer to that broadcast; sent are exactly the accepted ones and taken exactly those answered as too low; anything else ends the clearing; a nonce is accounted for unless its broadcast was refused |
| Sends.Sender.AwaitOne | src/primedelta/primedelta.py:1746-1758 | the fate follows from the wait, the latest nonce at a fresh block and the receipt, each the chain's answer: cleared only with a receipt, overtaken only when the nonce has passed and there is none |
| Sends.Sender.AwaitReplacements | src/primedelta/primedelta.py:1745-1758 | the waits are for the sent hashes in order, one after the other and each with the chain's answers; cleared and overtaken are exactly those the waits show, and the first that settles neither way ends the clearing; exactly the nonces whose waits timed out are no longer accounted for |
| Sends.Sender.ReadStuckNonces | src/primedelta/primedelta.py:1702-1715 | "nothing is stuck" exactly when the pending nonce the chain gave is at most the latest one, "cannot pay" exactly when the balance read is below the cost of all replacements at 25% above the price; a failed read, the chain id included, ends it with that question unanswered |
| Sends.Sender.ReplaceStuck | src/primedelta/primedelta.py:1716-1762 | all submissions come before any wait, each broadcast and wait is the chain's answer, and they decide the result and what is remembered |
| Sends.Sender.ClearStuckTransactions | src/primedelta/primedelta.py:1701-1762 | it ends early exactly when the reads say so and then sends nothing; otherwise its broadcasts and waits, all the chain's answers, decide the result; a full clearing is exact; a completed one drops the counter |
| Clearing.ClearingIsExact | src/primedelta/primedelta.py:1745-1762 | a normal return has one accepted hash per nonce of [latest, pending) in order; otherwise each of them is exactly one of taken and cleared, both sorted, and some are taken |
| Clearing.SubsSplit | src/primedelta/primedelta.py:1719-1734 | the accepted and the too low submissions split the stuck nonces |
| Clearing.WaitsSplit | src/primedelta/primedelta.py:1745-1758 | the cleared and the overtaken replacements split those waited for |
| Clearing.ClearedWasSeen | src/primedelta/primedelta.py:1747-1758 | a cleared replacement is one whose receipt was seen |
| Clearing.WaitAt | src/primedelta/primedelta.py:1745-1758 | each wait starts where the one before stopped asking, with the last write block that one left |
| Clearing.TakenWasPassed | src/primedelta/primedelta.py:1732-1756 | a taken nonce was answered as too low, or its replacement timed out, the chain's nonce had passed it and there was no receipt |
| Clearing.SortedSorts | src/primedelta/primedelta.py:1761 | sorting distinct nonces gives the same ones in strictly rising order |
| Clearing.ReplacementsCost | src/primedelta/primedelta.py:1709-1715 | the submissions cost 21000 gas each at one price, summed over the journal; that price is fixed by `SendResults.ReplacementsOutbid` |
| Clearing.BalancePays | src/primedelta/primedelta.py:1709-1715 | in every clearing whose parts are the chain's answers, the cost of what was submitted is at most the balance read before |
| SendResults.ReplacementsOutbid | src/primedelta/primedelta.py:1708-1731 | every replacement has 21000 gas at the least whole price at least 25% above the one the network gave |
| SendResults.CannotPayExactly | src/primedelta/primedelta.py:1708-1715 | a clearing ends for want of balance if and only if the balance read is below 21000 gas for each stuck nonce at that price |
| SendResults.ClearingEndsExactly | src/primedelta/primedelta.py:1719-1762 | each result has its exact cause: refused when the last broadcast is neither accepted nor too low, pending or failed by what the last wait shows, completed when every replacement was seen to mine or was overtaken |
| SendResults.ClearedExactly | src/primedelta/primedelta.py:1759-1762 | a completed clearing reports no taken nonce if and only if every broadcast was accepted and every replacement was seen to mine |
| SendResults.ClearingLeaves | src/primedelta/primedelta.py:1732-1759 | which nonces are accounted for after a clearing, and that the counter is dropped exactly by completion, a broadcast that was not accepted or a time-out |
| SendResults.ClearingNotes | src/primedelta/primedelta.py:1747-1758 | the block of every receipt that a clearing saw is at most the last write block it leaves |
| TraceWalk.DeepestTraceError | src/primedelta/primedelta.py:761-783 | the walk returns the error of the first error-carrying node in left-to-right postorder, and nothing when there is none |
| TraceWalk.PopKeepsFirst | src/primedelta/primedelta.py:771-782 | one turn of the loop keeps that answer and shrinks the total size of the trees on the stack |
| TraceWalk.FirstIsInnermost | src/primedelta/primedelta.py:761-766 | the chosen node lies in the tree, carries an error, and no node below it does |
| TraceWalk.ChosenIsLeftmost | src/primedelta/primedelta.py:769-783 | unless it is the root, the chosen node lies below the first child that holds any error |
| TraceWalk.NothingChosenMeansNoError | src/primedelta/primedelta.py:761-783 | there is nothing to choose exactly when no node at any depth carries an error |
| Rounding.CeilIsLeast | src/primedelta/dex/handlers.py:49-50 | the rounded-up quotient is the least that is enough |
| Rounding.PlusAQuarterIsLeast | src/primedelta/signer.py:22-23 | the least whole amount at least 25% above, hence at least 10% above |
| Rounding.GasLimitCovers | src/primedelta/signer.py:13-19 | the limit covers the estimate, is within one unit of 25% above it, exact for a transfer and monotone |
| OraclePool.StocksRatio | src/primedelta/dex/handlers.py:1249-1254 | a ratio has a positive total and never exceeds one WAD |
| OraclePool.SellDenominatorMirrors | src/primedelta/dex/handlers.py:1282 | the sell denominator is floor((WAD-before)(WAD-after)/WAD) |
| OraclePool.SellFeeMirrorsBuyFee | src/primedelta/dex/handlers.py:1257-1284 | both fees are one curve: of the stock share for a buy, of the mirrored share for a sell; refused exactly when the trade moves the ratio past its room |
| OraclePool.CurveRateAntitone | src/primedelta/dex/handlers.py:1267-1269 | through three floors and the clamp, a smaller remaining share never lowers the fee |
| OraclePool.CurveRateBounds | src/primedelta/dex/handlers.py:1267-1269 | the rate lies between min(WAD, base + coefficient) and WAD |
| OraclePool.FeeGrowsWithSize | src/primedelta/dex/handlers.py:1257-1284 | both fees lie in their bounds and never fall with the trade's size; once a size is refused every larger one is |
| OraclePool.NetAntitone | src/primedelta/dex/handlers.py:1391 | a higher fee never pays more, and no fee pays more than the gross |
| OraclePool.QuoteIsAFloor | src/primedelta/primedelta.py:2637-2642 | a quoted net amount is a floor of the same gross with the fee taken at any smaller size |
| OraclePool.QuotedBuyFitsTheReserve | src/primedelta/dex/handlers.py:1263-1266 | a quoted buy asks for strictly less gross stock than the reserve |
| OraclePool.QuotedSellFitsTheReserve | src/primedelta/dex/handlers.py:1278-1281 | a quoted sell's gross dUSD exceeds the reserve by rounding only: by less than the pool's value over WAD |
| OraclePool.RoundTripNeverGains | src/primedelta/dex/handlers.py:1381-1393 | buying with x dUSD and selling what was quoted never quotes more than x, for any reserves and curve in each leg |
| ExactQuotes.QuoteIsExact | src/primedelta/dex/handlers.py:1379-1393 | for both sides the quoted net is the one whole amount with net * unit <= gross * (1 - fee) < (net + 1) * unit, the gross fixed likewise; no quote exactly when there is no fee or not one unit is left |
| ExactQuotes.RefusedBeforeTheFee | src/primedelta/dex/handlers.py:1361-1380 | no usable price and a bad amount are reported exactly for a price of zero and an amount that is not positive |
| ExactQuotes.FeeIsExact | src/primedelta/dex/handlers.py:1249-1284 | the fee is the only one that fits the pool's share, the moved share, their product, its inverse and the dynamic part, each given by two inequalities |
| ExactQuotes.FeeHasWorkings | src/primedelta/dex/handlers.py:1249-1284 | every fee has such workings |
| ExactQuotes.NoFeeExactly | src/primedelta/dex/handlers.py:1249-1281 | there is no fee if and only if the pool is worth nothing or the trade moves the share by all that is left on its side |
| OraclePool.QuoteIsNotMonotone | src/primedelta/dex/handlers.py:1381-1391 | a concrete pool where 90 dUSD are quoted less stock than 80 |
| LargerQuotes.NeverFallsExactly | src/primedelta/dex/handlers.py:1257-1284 | a fee curve never quotes a larger amount less, on any pool, at any price and on either side, if and only if its coefficient is zero or base + coefficient is at least WAD - 1 |
| LargerQuotes.OnlyTheFeeLowersAQuote | src/primedelta/dex/handlers.py:1381-1391 | of two quoted amounts the larger one is quoted less only when its fee is strictly higher |
| LargerQuotes.StepOfFee | src/primedelta/dex/handlers.py:1267-1269 | for every other curve, the remaining ratio at which the floored fee first rises above its least value, and that it rises there by exactly one |
| LiquidityQuote.WithinBudget | src/primedelta/dex/handlers.py:710-718 | an LP amount's dUSD is within a budget exactly when the amount is at most the floored quotient, through the nested ceilings |
| LiquidityQuote.DusdSizingIsLargest | src/primedelta/dex/handlers.py:707-718 | sizing by dUSD gives the largest affordable mint, and refuses exactly when one raw unit is not affordable |
| LiquidityQuote.RefusedExactly | src/primedelta/dex/handlers.py:693-716 | each refusal of an add has its exact condition on supply, reserves and size |
| LiquidityQuote.QuotedAmountsAreLeast | src/primedelta/dex/handlers.py:717-718 | quoted stock and dUSD are the least whole amounts worth the share of the LP |
| LiquidityQuote.PayoutIsLargest | src/primedelta/dex/handlers.py:898-899 | paid-out stock and dUSD are the largest whole amounts within the share |
| LiquidityQuote.PayoutsConserve | src/primedelta/dex/handlers.py:896-899 | holders owning at most the supply are never paid more than either reserve together |
| LiquidityQuote.ShareOfPayouts | src/primedelta/dex/handlers.py:898-899 | summed payouts never exceed the holders' exact share |
| LiquidityQuote.AddThenRedeem | src/primedelta/dex/handlers.py:717-718 | after adding the quoted amounts, redeeming the minted LP pays the quoted stock and dUSD or one unit less of each; the stock comes back whole exactly when the quote did not round up |
| LiquidityQuote.StockComesBack | src/primedelta/dex/handlers.py:898 | the same for stock alone, for any supply and reserve |
| LiquidityQuote.DusdComesBack | src/primedelta/dex/handlers.py:899 | the same for dUSD, through the nested ceilings and floors |
| SharePrice.SharePriceIsTheFloor | src/primedelta/dex/handlers.py:1238-1246 | in both branches the price is price * 10^18 / 10^decimals, rounded down |
| SharePrice.ReadsUpdate | src/primedelta/dex/handlers.py:1238-1246 | an update that carries a signed 64-bit price and a signed 32-bit exponent after a 32-byte identifier gives that price at 18 decimals rounded down, and none exactly for a negative price or an exponent outside [-255, 0] |
| SharePrice.Rescale | src/primedelta/dex/handlers.py:1244-1246 | multiplying or dividing by the difference of the exponents equals one floored quotient |
| Bytes.ToBytesRoundTrip | src/primedelta/signer.py:148 | reading the shortest big-endian bytes of a number gives it back |
| SymbolCache.ScanOneByOne | src/primedelta/dex/handlers.py:218-228 | the one-by-one scan finds the first token with the symbol, unreadable ones skipped |
| SymbolCache.FirstMatchIsFirst | src/primedelta/dex/handlers.py:218-228 | the match has the symbol and no earlier token does; no match means that no token has it |
| SymbolCache.Resolver.ScanBatched | src/primedelta/dex/handlers.py:206-217 | the batched scan finds the same token, memoizes the first match of every symbol it read for 600 seconds, and leaves every other key as it was |
| SymbolCache.Resolver.ResolveViaRouter | src/primedelta/dex/handlers.py:193-228 | whichever scan ran, the answer is the first match of the list it scanned; only a batched scan memoizes |
| SymbolCache.Resolver.Resolve | src/primedelta/dex/handlers.py:163-190 | after any calls the memo holds, under every key, exactly what those calls leave there; the answer is a live memo, a configured pool or the first match, in this order |
| SymbolCache.RunAnyCalls | src/primedelta/dex/handlers.py:163-228 | any calls on a fresh memo give the answers and the memo of their history |
| SymbolCache.EveryEntryHasItsCall | src/primedelta/dex/handlers.py:163-228 | in any run every cached address was configured in, or found first by the scan of, an actual call that was not answered from the memo, and expires 600 seconds after that call read the clock; a one-by-one scan caches its own symbol only |
| SymbolCache.AnswersAreFresh | src/primedelta/dex/handlers.py:163-190 | in any run with a clock that never goes back, every answer has such a call, on the same chain, less than 600 seconds before it was asked for |
| SymbolCache.AnswerFollowsItsSources | src/primedelta/dex/handlers.py:163-190 | the answer is an unexpired entry, else the configured pool, else the first token with the symbol of the searched list, and nothing exactly when there is none |
| SymbolCache.FoundIsMemoized | src/primedelta/dex/handlers.py:163-217 | whatever a consulted call gave for a key is in the memo afterwards, for 600 seconds |
| SymbolCache.KeptUntilReplaced | src/primedelta/dex/handlers.py:163-217 | it stays there until another consulted call gives something for that key |
| SymbolCache.ShadowedExactlyByLiveMemo | src/primedelta/dex/handlers.py:166-182 | a configured pool is not the answer if and only if a live memo names another address, and then an earlier call less than 600 seconds ago put it there |
| SymbolCache.ConfiguredPoolIsShadowed | src/primedelta/dex/handlers.py:166-182 | a run in which a scanned address shadows a configured pool |
| SymbolCache.SeeNext | src/primedelta/dex/handlers.py:210-214 | the symbols seen so far are those of the tokens so far, and only an unseen symbol changes the first matches |
| Relogin.StepKeepsInv | src/primedelta/primedelta_client.py:198-206 | every read, write and lock operation of every thread keeps the invariant of lock depth, login owner and counter |
| Relogin.RunKeepsInv | src/primedelta/primedelta_client.py:317-336 | the invariant holds in every state of every run |
| Relogin.OneReloginPerCounterValue | src/primedelta/primedelta_client.py:324-335 | each value of the login counter starts at most one automatic re-login, with any number of threads |
| Relogin.LoginThreadIsExact | src/primedelta/primedelta_client.py:198-206 | the login owner names a thread exactly while that thread is inside a login, and no two threads are |
| Relogin.ReloginNeverRecurses | src/primedelta/primedelta_client.py:326-335 | an automatic re-login stands on an outermost call only; a call inside a login returns its 401 |
| ReloginCalls.ResendFollowsALogin | src/primedelta/primedelta_client.py:324-336 | each second send of a call follows a 401 to its first and a login counted since it began; it is an outermost call, no re-login of its own failed, and it then returns |
| ReloginCalls.RelogsExactly | src/primedelta/primedelta_client.py:326-331 | a call goes for the lock if and only if its response was a 401, re-login is armed and nothing encloses it; otherwise it returns at once |
| ReloginCalls.UnmovedCounterStartsARelogin | src/primedelta/primedelta_client.py:332-335 | with the lock held, a call whose counter has not moved since it began starts exactly one re-login, and one whose counter has moved goes on without |
| ReloginCalls.SuccessIsResent | src/primedelta/primedelta_client.py:334-336 | after a re-login that worked the second send is the only thing the thread can do |
| ReloginCalls.HolderCanGoOn | src/primedelta/primedelta_client.py:198-206 | the protocol never deadlocks: the lock's owner can always go on without starting anything new |
| ReloginCalls.StoryOf | src/primedelta/primedelta_client.py:317-336 | every call on a stack has its beginning, the counter it saw and the response it got, in the events of the run |
| Relogin.FitsAt | src/primedelta/primedelta_client.py:317-336 | every frame of a well-formed stack fits what is below it |
| Relogin.SendUnsafe | src/primedelta/primedelta_client.py:345-354 | at most two requests, the first of two rejected with a 403 that is no business refusal |
| Relogin.Unsafe | src/primedelta/primedelta_client.py:317-356 | `send` runs at most twice, at most four requests carry the mutation, and all but the last were rejected before executing; a 401 is retried whenever a re-login is allowed |
| DerSignature.ParseDerSignature | src/primedelta/signer.py:139-156 | the index walk reads a SEQUENCE of two INTEGERs, with its malformed and past-the-end errors |
| DerSignature.ReadsExactly | src/primedelta/signer.py:139-156 | two numbers are read if and only if the tags are there, and they are the big-endian numbers of the bytes that the lengths name |
| DerSignature.RefusesExactly | src/primedelta/signer.py:139-156 | a signature is malformed if and only if a tag that is present is another one, or there are no bytes |
| DerSignature.DerRoundTrip | src/primedelta/signer.py:139-156 | parsing the ECDSA-Sig-Value of section 2.2.3 of RFC 3279 of any two 256-bit numbers gives exactly them back |
| DerSignature.ReadsEncodedInteger | src/primedelta/signer.py:143-149 | an INTEGER of section 8.3 of X.690, with its zero sign byte, is read back anywhere in a buffer |
| DerSignature.ContentsOf256Bits | src/primedelta/signer.py:146-148 | such an INTEGER has at most 33 bytes of contents |
| DerSignature.LowSIsCanonical | src/primedelta/signer.py:159-160 | low-s lies in the lower half, is idempotent, and agrees for exactly s and N-s (EIP-2) |

## Left out

- HTTP, sockets, sessions, page HTML and JavaScript: page requests are events that may come at any time.
- Opening and re-opening the page, the polling counters, `tab_ready` and `_tab_busy`: they choose when a page is opened and never what a request reports.
- Clocks and delays: waits end at any moment; only loop bounds are kept. The 600 seconds of the symbol memo are modelled.
- The early refusals of `request` before it registers a job, and the `_report_late` hook: single branches.
- Bridge dispatch order of jobs that were put back: a requeued job goes to the front, so first come, first served holds for the others only.
- `_RemoteBridge` and browser-wallet sends: weaker versions of what is modelled.
- Crafting, preflight calls, the kill switch and the chain check of `_sending`: single branches before a send.
- The chain id that a contract call reads while it is built (src/primedelta/primedelta.py:2179): one read that may raise before anything else is asked; the one of `clear_stuck_transactions` is modelled.
- Sender locking: sends of one client are serialized by its transaction lock, so calls come one after another.
- web3, ABI encoding, keccak, ECDSA and KMS calls: their results are arbitrary. Error texts are reduced to what the code looks for in them.
- Decimal conversion of human amounts: amounts are whole units, so an amount below one unit, which the source truncates to zero and then refuses for lack of liquidity, is refused here as not positive.
- The token multiplier: a quote starts from the token price it gives.
- Symbols and addresses: numbers, since only their equality matters.
- Uniswap V3 pools, REST endpoints, JSON parsing and price streams: not part of this model.
- The CSRF token fetch that may precede each unsafe request: a GET that carries no mutation; its failure is a request that raises.
- LoopbackBridge.Bridge.NextJob: one attempt under the lock; between attempts the poll waits, which the protocol models as another poll.
- BridgeProtocol.AnswerReachesItsRequest: does not promise that a correct answer is accepted; `BridgeService.AnswerIsLostExactly` says when one is not.
