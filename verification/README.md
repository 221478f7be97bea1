# A Dafny model of go-aoa

go-aoa is the Go client of the Aurora chain. This project models the parts of it whose correctness rests on
state kept in step: the transaction pool and its lists, the header and block chains with their databases, the
section indexer, the event feed, votes and their tallies, gas, the light client's pool, the delegates'
signatures on a block, and derivation paths. Each part is one module, with the source's own loops and field
updates as methods and classes, and with the functions they are proved against beside them.

| module | source | main results |
|---|---|---|
| `NonceHeap`, `TxSortedMap` | `core/tx_list.go` | the nonce heap and the cached, sorted nonce map refine a plain map |
| `TxList` | `core/tx_list.go` | cost and gas caps bound the list, so the early exit of `Filter` is a full scan; strict lists stay intervals; every run of operations refines a plain nonce map |
| `PendingLevels`, `QueueShed`, `TxPool` | `core/tx_pool.go` | pending equalisation is water-filling to one level; the queue limit removes exactly the overflow |
| `Ancestry`, `HeaderChain`, `TxLookup`, `BlockChain` | `core/database_util.go`, `core/headerchain.go`, `core/blockchain.go` | the canonical map is exactly the head's chain and the lookup table exactly its transactions, through every reorganisation |
| `ChainIndexer` | `core/chain_indexer.go` | in every interleaving with notices the stored section heads are exact and linked, unless a failed reset overlaps a dropping notice, and exactly when that does harm; only confirmed sections are taken up |
| `Feed` | `event/feed.go` | in every interleaving each subscriber gets a value once |
| `Votes`, `VoteSlice`, `VoteLedger` | `core/evm.go`, `core/vote_util.go`, `core/state_processor.go` | locks back vote lists after every run, tallies are what the lists say plus exactly what uncast batches added, and who is live is who registered last |
| `Gas` | `core/state_transition.go`, `core/gaspool.go`, `core/state_processor.go` | exactly which messages and blocks are accepted; gas used plus gas left is the limit; balances are conserved |
| `LightPool` | `light/txpool.go` | through every head change, also one that breaks off, each tracked transaction is in one place, and pending exactly if the chain does not hold it |
| `Signs` | `aoa/dpos_lock.go`, `consensus/dpos/dpos_consensus.go` | one hand-off, at the right signature, that other nodes accept; quorums overlap |
| `DerivationPath` | `accounts/hd.go` | printing and parsing are inverse, in every spelling |

`Base`, `MapSum`, `Transactions` and `GoSort` hold what these share.

Block hashes and addresses are numbers, with 0 for the all-zero value. Two different headers never share a
hash: where a header is added the contract says `Fits`. Maps that the source iterates over are iterated in an
arbitrary order. Random choices, clocks, network answers, the virtual machine, signature recovery and the
coin flip between equal chains are parameters.

Where the source and its own words differ, the model follows the code:

- The queue limit says it drops the oldest transactions (`core/tx_pool.go:1272`). The code sorts accounts by
  heartbeat and takes the last, so the most recently active accounts lose theirs first; within the account
  that is cut, the highest nonces go. `QueueShed.ShedFromTheEnd` states this.
- `removeTx` says it moves later transactions back to the queue. When the pending list becomes empty the code
  drops them from every list and leaves them in `all`; `TxPool.Pool.RemoveTx` states both cases.
- Tallies are meant to count the accounts voting. A vote transaction whose call fails in a way the block accepts
  (`core/state_transition.go:274-290`), for instance because the code at its recipient reverts after the vote
  (`core/vm/evm.go:206-241`), or whose call ends before the vote (`core/vm/evm.go:191-200`), leaves the vote
  list alone, yet `ApplyTransaction` counts its batch (`core/state_processor.go:109-113`). So a tally is its base
  plus the accounts voting plus the net counts of such batches (`VoteLedger.EveryRunKeepsInv`), which is the
  number of accounts voting exactly if they cancel out (`VoteLedger.TallyExactIff`); `VoteLedger.UncastInput`
  gives an input.
- `changeVoteList` works on the account's own slice, which `GetVoteList` hands out (`core/state/statedb.go:219-224`,
  `core/state/state_object.go:459-461`): removals shift it in place, and the journal keeps the shifted slice
  (`core/state/state_object.go:421-427`). A private copy is what `VoteLedger.AccountDb.Vote` works on and the code
  does not make one; `VoteSlice` has the slice as it is, says when a batch that is refused or undone leaves
  the list alone (exactly, if it names no candidate twice), and gives an input where it does not. The run theorem is about runs in which it does.
- A failed `Reset` drops all sections without the lock (`core/chain_indexer.go:291`, `core/chain_indexer.go:341-344`),
  so it can fall inside a notice that holds it. `ChainIndexer.OverlapSafeIff` says exactly when that does no harm
  however the steps of the two drops interleave, a step being a test with its decrement, a removal or the last
  assignment; `ChainIndexer.OverlapInput` gives an input where it does harm.
- `Vote` locks balance without looking at it, so it can leave the balance negative; `VoteLedger.BalanceStaysIff`
  says exactly when it does not.
- `VerifyBlockGenerate` counts signatures whatever they say. `Signs.AcceptedMeansApprovedIff` says exactly when
  acceptance means that a quorum approved, and `Signs.OpposedInput` gives an input where it does not.
- `TransitionDb` overwrites the error of `IntrinsicGas`, so a message whose intrinsic gas does not fit a
  uint64 is charged none of it (`Gas.Intrinsic`).
- Printing the empty derivation path gives `m`, which does not parse back; every other path does.
- Two sets of 2⌊n/3⌋+1 delegates share a delegate outside any group of at most (n−1)/3 exactly when n is not
  two more than a multiple of three (`Signs.SharedOutside`, `Signs.NotSharedOutside`).

## Model

| member | source | states |
|---|---|---|
| `NonceHeap.RootIsMinimum` | core/tx_list.go:34-50 | in an array where no entry is below its parent, the first entry is the least of all |
| `NonceHeap.Heap.Init` | core/tx_list.go:112-121 | any array becomes a heap with the same entries |
| `NonceHeap.Heap.Push` | core/tx_list.go:40-42 | the heap stays one and gains exactly the entry |
| `NonceHeap.Heap.Pop` | core/tx_list.go:44-50 | the heap stays one and loses exactly its least entry, which is returned |
| `NonceHeap.Heap.Remove` | core/tx_list.go:160-166 | removing at any index keeps the heap and loses exactly that entry |
| `TxSortedMap.SortedMap.Put` | core/tx_list.go:75-81 | the map gains the transaction at its nonce; index stays a heap of exactly the keys, cache stays nil or exact |
| `TxSortedMap.SortedMap.Forward` | core/tx_list.go:86-100 | returns exactly the transactions below the threshold in nonce order and keeps exactly the others |
| `TxSortedMap.SortedMap.Filter` | core/tx_list.go:104-125 | returns each matching transaction once and keeps exactly the others |
| `TxSortedMap.SortedMap.Cap` | core/tx_list.go:129-150 | keeps the lowest `threshold` nonces and returns the rest, highest first |
| `TxSortedMap.SortedMap.Remove` | core/tx_list.go:154-171 | removes exactly that nonce and says whether it was there |
| `TxSortedMap.SortedMap.Ready` | core/tx_list.go:180-195 | takes the maximal run of consecutive nonces from the lowest if that is not above `start`, else nothing |
| `TxSortedMap.SortedMap.Flatten` | core/tx_list.go:205-218 | returns and caches the nonce-sorted contents |
| `TxSortedMap.ForwardSplits` | core/tx_list.go:83-100 | what Forward returns followed by what it keeps is the sorted listing of the whole |
| `Transactions.EnumerationIsListing` | core/tx_list.go:202-218 | any ascending sequence of exactly the map's transactions is its listing, so the sorted contents are unique |
| `TxList.List.Add` | core/tx_list.go:253-275 | inserts unless a transaction of that nonce is there and not outbid, which takes a raise that with one more is over the bump percentage of the old price; returns what it replaced; the caps become the larger of old and new and keep bounding |
| `TxList.ReplacesIff` | core/tx_list.go:257-264 | without division: outbid exactly if the price is higher and the raise plus one is over priceBump hundredths of the old price |
| `TxList.List.Forward` | core/tx_list.go:280-282 | returns the transactions below the threshold, keeps the others, keeps the caps |
| `TxList.List.Filter` | core/tx_list.go:293-317 | with or without the early exit: returns exactly the transactions over a limit, then, if strict, exactly the affordable ones above the lowest of those, and keeps the rest; the caps end within the limits |
| `TxList.List.Cap` | core/tx_list.go:321-323 | keeps the lowest `threshold` nonces, returns the rest |
| `TxList.List.Remove` | core/tx_list.go:328-339 | removes the nonce and, if strict, everything above it, which is returned |
| `TxList.List.Ready` | core/tx_list.go:348-350 | takes the maximal consecutive run when its start is not above `start` |
| `TxList.Run` | core/tx_list.go:224-367 | after any sequence of operations the list holds what the same operations do to a plain nonce map, and the caps bound it |
| `TxList.ForwardKeepsInterval` | core/tx_list.go:280-282 | an interval of nonces leaves an interval, and returned plus kept partition it |
| `TxList.FilterKeepsPrefix` | core/tx_list.go:293-317 | a strict interval is cut to the prefix below the first transaction over a limit |
| `TxList.FilterKeepsIff` | core/tx_list.go:293-317 | a transaction stays exactly if its own gas and its fee, with the registration cost or the coin it moves, are within the limits and, in a strict list, those of all below it are |
| `TxList.FilterSplits` | core/tx_list.go:293-317 | removed, invalidated and kept partition the list |
| `TxList.RemoveKeepsPrefix` | core/tx_list.go:328-339 | a strict interval is cut to the prefix below the removed nonce, and kept, removed and orphaned partition it |
| `TxList.RemoveIff` | core/tx_list.go:328-339 | nonce by nonce, strict or not: what a removal keeps and what it orphans |
| `TxList.CapKeepsPrefix` | core/tx_list.go:321-323 | an interval capped to k is its first k nonces |
| `PendingLevels.RoundLowersLevel` | core/tx_pool.go:1226-1243 | one round over the large senders takes the lists from one level to the next lower |
| `PendingLevels.WaterLevelUnique` | core/tx_pool.go:1197-1271 | two levels that both meet the limit tightly give the same lists |
| `PendingLevels.WaterLevelOutcome` | core/tx_pool.go:1197-1271 | at the level, locals are untouched, every other list is the prefix of length min(original, level) and not below min(original, AccountSlots), and the total is within GlobalSlots or every non-local list within AccountSlots |
| `TxPool.Pool.Count` | core/tx_pool.go:1197-1201 | the counting loop gives the sum of the list lengths |
| `TxPool.Pool.TrimRound` | core/tx_pool.go:1226-1243 | each listed sender loses its highest nonce, from `all` too and with the pending nonce lowered to it, the counter stays the sum of lengths, and queue and heartbeats are untouched |
| `TxPool.Pool.LevelTo` | core/tx_pool.go:1222-1244 | the group is lowered together, ending at the limit or at the threshold; queue and heartbeats are untouched |
| `TxPool.Pool.Gather` | core/tx_pool.go:1202-1246 | popping the largest sender again and again keeps every list at one level; queue and heartbeats are untouched |
| `TxPool.Pool.EqualizePending` | core/tx_pool.go:1197-1271 | the lists end exactly at a water level, only dropped hashes leave `all`, pending nonces follow the dropped transactions, and queue and heartbeats are untouched |
| `QueueShed.InsertIsPut` | core/tx_list.go:253-275 | inserting into a sorted list is the listing of the map with the transaction put |
| `QueueShed.DropNonceIsRemove` | core/tx_list.go:328-339 | dropping a nonce from a sorted list is the listing of the map without it |
| `QueueShed.PartsAreRemove` | core/tx_list.go:328-339 | the lower and upper part of a sorted list are the listings of what a strict Remove keeps and returns |
| `QueueShed.EnqueuedAllOutcome` | core/tx_pool.go:906-927 | transactions of one account with different nonces, enqueued in any order, each take their place exactly if the queue as it was takes them, and only what is outbid goes |
| `QueueShed.EnqueuedAllKnown` | core/tx_pool.go:906-927 | in whatever order they are put there, exactly those that took a place become known and exactly those outbid unknown; one not taken stays known if it was |
| `QueueShed.ShedTotal` | core/tx_pool.go:1287-1312 | shedding takes exactly the overflow, or everything on the list of accounts if that is less |
| `QueueShed.ShedFromTheEnd` | core/tx_pool.go:1278-1312 | an account later in heartbeat order keeps anything only if all earlier ones keep everything |
| `QueueShed.QueueLimitOutcome` | core/tx_pool.go:1272-1312 | exactly min(overflow, all non-local) transactions go; the total ends within GlobalQueue or only locals are left; locals are untouched; what stays of a list is its lowest nonces |
| `TxPool.Pool.EnqueueTx` | core/tx_pool.go:906-927 | the sender's queue takes the transaction, saying whether one was replaced, unless its nonce is there and not outbid, which is the error; the outbid one leaves `all` |
| `TxPool.Pool.RemoveTx` | core/tx_pool.go:1092-1134 | nothing for an unknown hash; a queued one leaves its list; a pending one cuts its list there, lowers the nonce, and the later ones are enqueued again in some order, or dropped if the list became empty |
| `TxPool.Pool.ByHeartbeat` | core/tx_pool.go:1278-1285 | the non-local accounts with queued transactions, each once, none before one that has been silent for longer, where no sign of life counts as time zero |
| `TxPool.Pool.ShedQueue` | core/tx_pool.go:1287-1312 | the dropping loop, through removeTx, leaves exactly the shed queue and removes exactly the dropped hashes from `all` |
| `TxPool.Pool.LimitQueue` | core/tx_pool.go:1272-1312 | the queue ends as Shed by the overflow in heartbeat order: of two non-local accounts the one silent for longer loses nothing while the other has anything left; pending, beats and nonces unchanged |
| `TxPool.ShedBusyFirst` | core/tx_pool.go:1278-1312 | shedding in that order never takes from an account while one active since has anything left |
| `TxPool.EqualizedConsistent` | core/tx_pool.go:1197-1271 | levelling the pending lists keeps pending and queued transactions sorted, owned, known under their hash and apart |
| `TxPool.ShedConsistent` | core/tx_pool.go:1272-1312 | shedding the queue keeps the same |
| `TxPool.Pool.EnforceLimits` | core/tx_pool.go:1197-1312 | both limits in turn: the lists end at a water level, the queue is shed by its own overflow alone and from the recently active first, of `all` exactly what either dropped is gone, and the maps stay consistent |
| `Ancestry.FindCommonAncestor` | core/database_util.go:628-652 | terminates; finds a header exactly when the two have a common ancestor, and then one whose ancestors are exactly the common ones, so the highest |
| `Ancestry.LowerTo` | core/database_util.go:629-640 | walking back from the higher header keeps exactly the common ancestors, or finds there are none |
| `Ancestry.LowerBoth` | core/database_util.go:641-651 | walking back from both at one height ends at a header with exactly their common ancestors, or finds there are none |
| `HeaderChain.Headers.constructor` | core/headerchain.go:71-107 | a chain of the genesis alone is valid |
| `HeaderChain.Headers.DeleteAbove` | core/headerchain.go:156-163 | the delete loop leaves exactly the numbers up to the new head |
| `HeaderChain.Headers.Reroute` | core/headerchain.go:164-180 | the rewrite loop ends with the canonical map exactly the new head's chain |
| `HeaderChain.Headers.WriteHeader` | core/headerchain.go:131-195 | keeps: the canonical map is exactly the head's ancestors, every difficulty is number+1, the head's is maximal; becomes head exactly if higher or equal with the coin; unknown parent changes nothing |
| `HeaderChain.Headers.Import` | core/headerchain.go:259-285 | any run of headers, interrupted anywhere, keeps the invariant, stores exactly those before the interrupt or the first without a parent, and never lowers the head |
| `TxLookup.LookupExact` | core/database_util.go:467-484 | on a chain without repeated transactions each has exactly its block and index in the table |
| `TxLookup.LookupReorg` | core/blockchain.go:1330-1347 | adding the new branch's entries and deleting those of the difference turns the old chain's table into the new one's |
| `BlockChain.Fork` | core/blockchain.go:1278-1318 | the walk ends at the last shared block with the new branch and the old branch's transactions |
| `BlockChain.Chains.Insert` | core/blockchain.go:499-521 | the block becomes canonical at its number and head; header and fast head follow when its hash was not there |
| `BlockChain.Chains.InsertAll` | core/blockchain.go:1330-1340 | inserting the new branch in order overlays the canonical map and adds exactly its lookup entries |
| `BlockChain.Chains.Reorg` | core/blockchain.go:1255-1360 | never fails on stored parents; afterwards map, heads and lookup table are exactly the new block's chain |
| `BlockChain.Chains.WriteBlockAndState` | core/blockchain.go:829-904 | keeps: the number map is exactly the head's chain, the table exactly its transactions at their positions, the head highest; becomes head exactly if higher or equal with the coin; unknown parent changes nothing |
| `BlockChain.Chains.CanonicalAt` | core/blockchain.go:829-904 | in a valid state a number up to the head's leads to the head's ancestor there, a transaction of that block leads to exactly that block and index, and nothing else is in either map |
| `ChainIndexer.NoticeKeepsInv` | core/chain_indexer.go:216-255 | a whole notice, at any point of the worker but a reset, keeps the heads exact and linked |
| `ChainIndexer.CheckMeansUntouched` | core/chain_indexer.go:298-300 | the worker's old head equals the recorded one exactly if no section was dropped meanwhile |
| `ChainIndexer.NoticeDecides` | core/chain_indexer.go:216-330 | a section in work when a reorg notice comes is accepted exactly if the notice's section is not below it |
| `ChainIndexer.NoticeOutcome` | core/chain_indexer.go:216-255 | a reorg at a head of section k cuts known, stored and cascaded down to where k starts and drops exactly the heads from k on; another notice changes only what is known, which becomes the larger of the old and the greatest number of sections that end confirmsReq blocks before the head |
| `ChainIndexer.EveryRunIsConfirmed` | core/chain_indexer.go:216-330 | in every interleaving, whatever overlaps, a section is known, taken up or stored only after a head was announced that lies its confirmations above its end |
| `ChainIndexer.FinishOutcome` | core/chain_indexer.go:296-318 | a finished section is recorded with its own head and nothing else touched, and the cascaded head moves to its last block, exactly if no section was dropped meanwhile; else only the known count falls back to the stored one |
| `ChainIndexer.EveryRunIsLinked` | core/chain_indexer.go:216-365 | in every interleaving in which a failed reset never overlaps a dropping notice, or only harmlessly: whenever no drop is in progress, exactly the sections below the stored count have a head, each reached from the one before by sectionSize parent-linked headers |
| `ChainIndexer.OverlapOpens` | core/chain_indexer.go:226-230 | how every overlap starts: one drop may be under way, with at most one head still to be removed |
| `ChainIndexer.OverlapSafeIff` | core/chain_indexer.go:341-344 | an overlap leaves exact heads in every interleaving of the steps of the two drops exactly if the notice is to drop everything and at most the head of section 0 is recorded when it starts |
| `ChainIndexer.OverlapInput` | core/chain_indexer.go:400-412 | a notice for section 1 passes its test, the reset fails and drops everything, the notice sets the count to 1: no head is left for section 0 |
| `ChainIndexer.Indexer.SetValidSections` | core/chain_indexer.go:400-412 | the loop drops exactly the heads from the new count on |
| `ChainIndexer.Indexer.OnNewHead` | core/chain_indexer.go:216-255 | does the notice step, whose outcome NoticeOutcome states, and keeps the invariant |
| `ChainIndexer.Indexer.TakeUp` | core/chain_indexer.go:284-291 | the worker takes up the first section not stored, from the recorded head before it, and keeps the invariant |
| `ChainIndexer.Indexer.ProcessSection` | core/chain_indexer.go:336-365 | with notices before each header and after the last: succeeds exactly if the reset and the commit do and every header is there, each the child of the one before; it is a run of the machine and leaves the worker where Complete or giving up takes it on |
| `ChainIndexer.Indexer.TakeNotices` | core/chain_indexer.go:216-255 | notices while the lock is free leave the worker alone, keep the invariant and are steps of the machine; the count stays at the section exactly if none is a reorg below it |
| `ChainIndexer.Indexer.UpdateSection` | core/chain_indexer.go:275-318 | one whole turn of the update loop with its notices is a run of the machine that ends idle with exact, linked heads; the section is recorded exactly if processing succeeds and no notice is a reorg below it, and else given up |
| `ChainIndexer.Indexer.Complete` | core/chain_indexer.go:296-318 | records the section with its head and moves the cascaded head to its end exactly if no section was dropped meanwhile, else gives the work up and changes no head |
| `Feed.RemovalsAreFound` | event/feed.go:104-125 | a removal waiting for the send lock always finds its channel in the send list |
| `Feed.EveryRunKeepsInv` | event/feed.go:73-187 | in every interleaving of Subscribe, Unsubscribe and Send, cases plus inbox are the live subscriptions plus waiting removals, and a Send accounts for every channel it began with |
| `Feed.SendOutcome` | event/feed.go:129-187 | when a Send ends each channel got the value once per subscription unless removed meanwhile, then at most that often; nsent is the number of deliveries; the list is what Send began with less the removed |
| `Feed.StepStarted` | event/feed.go:129-143 | a Send takes over every subscription, live or waiting to be removed, and empties the inbox; what it started with then stands until it ends |
| `Feed.SendReachesAll` | event/feed.go:129-187 | from the state in which a Send began to the one in which it ends: a channel with nothing cancelled has got the value once for each of its subscriptions then, and no channel more often than that |
| `Feed.EventFeed.SubscribeTo` | event/feed.go:73-94 | the channel goes to the inbox; the invariant stays |
| `Feed.EventFeed.LeaveInbox` | event/feed.go:104-114 | the channel leaves the inbox if it is there, else the removal goes on to wait |
| `Feed.EventFeed.RemoveNow` | event/feed.go:120-123 | with no Send in progress the channel's case is deleted, and it is there |
| `Feed.EventFeed.TakeInbox` | event/feed.go:133-147 | the inbox is appended and emptied, all cases are active, and what is started is every live subscription and waiting removal |
| `Feed.EventFeed.TryAll` | event/feed.go:150-158 | the fast path tries each active case exactly once, whatever the answers; exactly those that take the value are delivered to, and exactly the others stay active |
| `Feed.EventFeed.TakeRemoval` | event/feed.go:166-175 | a removal during Send deletes the case and shrinks the active part exactly if it was in it |
| `Votes.AcceptedIffLegal` | core/evm.go:142-173 | a batch is accepted exactly if each candidate's additions and removals alternate from its standing and only pool members are added; the new list holds exactly those whose last vote says so, without repetition |
| `Votes.NetIsChange` | core/vote_util.go:116-132 | a candidate's net count in an accepted batch is the change of its standing: -1, 0 or 1 |
| `Votes.NetCounts` | core/vote_util.go:116-132 | in any batch, legal or not, the net count is the number of votes for the candidate less the number taken back |
| `Votes.SliceContains` | core/evm.go:175-182 | the first position and whether there is one |
| `Votes.ChangeVoteList` | core/evm.go:142-173 | the loop gives the folded list, or the refusal, and the vote unit times the growth of the list |
| `Votes.ValidateVote` | core/tx_pool.go:770-794 | accepts exactly the batches changeVoteList accepts |
| `Votes.CountVotes` | core/vote_util.go:116-132 | the map holds exactly the candidates voted on, each with votes for less votes taken back |
| `VoteSlice.SharingKeepsResult` | core/evm.go:142-173 | working on the account's own slice does not change the list a batch comes to |
| `VoteSlice.ChangeInPlace` | core/evm.go:142-173 | the loop on the backing array: the same list as on a copy, and exactly what is left in the array |
| `VoteSlice.GentleKeeps` | core/evm.go:142-173 | additions up to the one that no longer fits, or removals of last entries alone, leave the account's list as it was even if refused or undone |
| `VoteSlice.UntouchedIff` | core/evm.go:142-173 | a batch naming no candidate twice leaves it so exactly if it is of that kind |
| `VoteSlice.SharedSliceInput` | core/state/state_object.go:421-427 | taking back the first of two votes, refused later or undone, leaves the other one twice |
| `VoteLedger.CountTrxVote` | core/vote_util.go:106-157 | one entry per candidate voted on, in some order, or the registration; last a cancellation if the sender is a live delegate below the registration cost |
| `VoteLedger.DelegateDb.CountAll` | core/state_processor.go:172-178 | all entries succeed exactly if every tally can take its change, and then every tally moved by its net count; else the failure of one that cannot |
| `VoteLedger.DelegateDb.VoteChange` | core/state_processor.go:155-183 | the whole effect of a transaction on the delegates, exactly when the block is refused, and with which failure |
| `VoteLedger.BatchOutcome` | core/state_processor.go:195-211 | a batch is counted exactly if who gains is a live delegate and who loses has the votes; then every tally moves by its net count and no record comes or goes |
| `VoteLedger.RegisterOutcome` | core/state_processor.go:188-194 | a registration is accepted exactly from who is no live delegate; it makes a live one that keeps the votes of an earlier record, and touches nobody else |
| `VoteLedger.CancelOutcome` | core/vote_util.go:147-156 | any other accepted transaction cancels its sender exactly if below the registration cost, nobody else, and takes no votes from who is cancelled |
| `VoteLedger.FailureIsTrue` | core/state_processor.go:195-211 | the failure names what is wrong: a gain for no live delegate, a loss without a record, or a loss of more than there is |
| `VoteLedger.LiveIff` | core/state_processor.go:155-221 | at any point of any run a delegate is live exactly if it has registered and not been cancelled since, or was live at the start and not cancelled |
| `VoteLedger.AccountDb.Vote` | core/evm.go:120-140 | on a copy of the list, accepted: balance, lock and list change by the batch; refused: nothing changes |
| `VoteLedger.VoteAcceptsIff` | core/evm.go:120-140 | with locks backing lists, Vote accepts exactly the legal batches whose list stays within maxElectDelegate |
| `VoteLedger.VoteConserves` | core/evm.go:120-140 | an accepted vote leaves everyone's balance plus lock alone and keeps the lock equal to the unit times the list length |
| `VoteLedger.BalanceStaysIff` | core/evm.go:120-140 | an accepted vote leaves the balance non-negative exactly if it covered the vote unit times the growth of the list |
| `VoteLedger.BalanceInput` | core/evm.go:120-140 | an account with nothing has a vote accepted and ends one unit below zero |
| `VoteLedger.VoteRunConserves` | core/evm.go:120-173 | over any run of votes balance plus lock of every account is unchanged |
| `VoteLedger.TallyShortIff` | core/state_processor.go:199-211 | for a batch the list accepts, a candidate losing a vote has a record, and its tally is short exactly if base, votes and uncast batches together leave nothing |
| `VoteLedger.TallyNeverShort` | core/state_processor.go:199-211 | with no uncast batch to its loss, counting an accepted batch never finds a tally short or a record missing on a removal; only an addition to a delegate not live fails |
| `VoteLedger.CountSucceedsIff` | core/state_processor.go:155-221 | if the pool's candidates are live delegates, counting an accepted batch succeeds exactly if no tally losing a vote was left short by uncast batches |
| `VoteLedger.EveryRunKeepsInv` | core/state_processor.go:97-221 | over every run of votes, of vote transactions whose call did not keep its vote, registrations, cancellations and other transactions, in which undone votes leave their lists alone: lists duplicate-free, within the maximum and backed by locks; each tally is its base plus the number of accounts voting for it plus the net counts of the uncast batches |
| `VoteLedger.LeavesListsIff` | core/state/journal.go:134-136 | an undone vote that names no candidate twice leaves its list alone exactly if it was not reached or is of that kind |
| `VoteLedger.MarredListInput` | core/vm/evm.go:206-241 | a vote taken back in a call that reverts leaves a list with a candidate twice |
| `VoteLedger.TallyExactIff` | core/state_processor.go:97-221 | at any point of such a run a tally is its base plus the accounts voting exactly if the uncast batches before it cancel out for that delegate |
| `VoteLedger.UncastKeepsInvIff` | core/state_processor.go:105-113 | one uncast batch that leaves the list alone keeps lists and tallies in step exactly if its net count is zero for every candidate |
| `VoteLedger.UncastInput` | core/vm/evm.go:202-241 | a vote taken back in a call that reverts stays in the list and leaves the tally; the next removal is refused as not enough |
| `Gas.IntrinsicGas` | core/state_transition.go:87-128 | base gas by action, one for each byte and three more for each that is not zero; fails exactly when that does not fit a uint64 |
| `Gas.ChargeBounds` | core/state_transition.go:293-315 | the refund is the smaller of half of the gas used and the counter, so the charge is within what was bought |
| `Gas.FeesGoTo` | core/state_transition.go:287-306 | the sender gets the price of the gas not charged, the coinbase that of the gas charged, nobody else anything; locks and nonces stay |
| `Gas.MessageConserves` | core/state_transition.go:187-291 | total balance, locked and not, is the same after an accepted message |
| `Gas.GasPool.AddGas` | core/gaspool.go:29-35 | adds, or panics exactly when the sum does not fit |
| `Gas.GasPool.SubGas` | core/gaspool.go:39-45 | subtracts exactly if there is enough |
| `Gas.Transition.PreCheck` | core/state_transition.go:187-225 | accepted exactly if the action is known, a checked nonce is the account's, the balance covers all the gas and the pool has it; then that gas is bought and paid for, else nothing changes |
| `Gas.AcceptedIff` | core/state_transition.go:187-291 | a message is accepted exactly if its action is known, a checked nonce is the next, the balance covers gas times price, the pool has the gas, the gas covers the intrinsic gas, a contract has code, and the machine, started from a balance lower by exactly that and, for calls, the next nonce, does not end in an error that refuses; that balance is then not negative |
| `Gas.RefusalIsTrue` | core/state_transition.go:187-291 | each error is returned only where what it names is the case |
| `Gas.ExecutedIs` | core/state_transition.go:250-275 | the machine gets the gas intrinsic gas left over, starts from that state, and what it leaves is what the message leaves; publishing an asset uses none of it |
| `Gas.IntrinsicIs` | core/state_transition.go:87-128 | the up-front charge in numbers, zero for a sum that does not fit |
| `Gas.Transition.RefundGas` | core/state_transition.go:293-310 | returns the unused gas and the capped refund to sender and pool; nothing wraps and the pool does not panic |
| `Gas.Transition.TransitionDb` | core/state_transition.go:230-291 | the charge, the settled state, the pool less the charge and the total conserved; refused exactly as AcceptedIff says |
| `Gas.BlockConserves` | core/state_processor.go:59-132 | however far a block gets, gas used plus gas left is the limit, gas used never falls, and the total balance is the start's |
| `Gas.BlockAcceptedIff` | core/state_processor.go:59-132 | a block is accepted exactly if each transaction in turn has a message, that is accepted where the block then stands, and its votes can be counted |
| `Gas.ApplyTransaction` | core/state_processor.go:97-132 | one accepted transaction moves the same gas from pool to used, without wrapping |
| `Gas.Process` | core/state_processor.go:59-91 | the block is refused at the first transaction with a verdict against it; else all take effect, receipts carry the running total, used plus left is the limit |
| `LightPool.DiffMined` | light/txpool.go:140-147 | setState on a transaction that becomes mined keeps the report exact |
| `LightPool.DiffRolledBack` | light/txpool.go:140-147 | setState on a transaction that becomes pending again keeps the report exact |
| `LightPool.Pool.RollbackTxs` | light/txpool.go:201-211 | the block's transactions become pending, its list goes, the report follows |
| `LightPool.Pool.CheckMinedTxs` | light/txpool.go:164-197 | the block's pending transactions become mined, all of them; it breaks off, changing nothing, exactly if something is pending and the block, or for a block with any of it the receipts, cannot be had |
| `LightPool.Pool.Walk` | light/txpool.go:221-238 | ends where the chains part, whose ancestors are exactly the common ones, with exactly the hashes above it on either side |
| `LightPool.Pool.ClearOld` | light/txpool.go:256-273 | forgets exactly the canonical blocks from clearIdx to txPermanent below the head |
| `LightPool.Pool.ReorgOnNewHead` | light/txpool.go:219-276 | completed or broken off: the head is on the way to the new one, every tracked transaction is pending or in one mined list of an ancestor of the head, the report is exactly the change; no transaction of a block new below the head is pending; it breaks off only before a block that cannot be had; clearIdx and what is cleared are exact, only transactions of blocks past txPermanent are lost, and no list is left below clearIdx if none was and the canonical map follows the new head in the cleared range |
| `LightPool.PendingIff` | light/txpool.go:160-276 | in a clean pool, which head changes and new headers keep clean, a tracked transaction is pending exactly if no block of the head's chain holds it, and else listed under the first that does |
| `LightPool.PlacedGrows` | light/txpool.go:219-276 | a new header in the database moves no transaction |
| `LightPool.Pool.Follow` | light/txpool.go:219-311 | over any run of new headers and head changes, completed or not, every transaction tracked at the start is in one place at the end or was forgotten past txPermanent by a change that completed, none is new, and a clean pool stays clean |
| `Signs.Collect` | aoa/dpos_lock.go:230-242 | takes one signature each of different approving delegates, up to one more than the amount |
| `Signs.Manager.AddSign` | aoa/dpos_lock.go:134-164 | queues a signature exactly if its signer is a delegate of the round not yet in the block's map: a submission of the machine |
| `Signs.Manager.DealBlockSign` | aoa/dpos_lock.go:199-246 | is a dealing step of the machine: stored unless the quorum is there already, handed on exactly when that makes amount plus one approvals; the invariant stays |
| `Signs.Manager.Expire` | aoa/dpos_lock.go:211-215 | is an expiry of the machine: the block's approvals and hand-offs count from zero again, every other block's map stands, and the invariant stays |
| `Signs.HandsOffExactly` | aoa/dpos_lock.go:219-245 | the signatures are handed on exactly by the approval of a new delegate after the amount-th |
| `Signs.DealStores` | aoa/dpos_lock.go:219-226 | a signature is stored, approving or not, exactly if its block has no quorum yet and its delegate no signature there; nothing else changes |
| `Signs.EveryRunKeepsSigns` | aoa/dpos_lock.go:344-353 | in every run a signature stands as long as its block's map does, so a delegate that did not approve never counts as approving |
| `Signs.EveryRunKeepsInv` | aoa/dpos_lock.go:134-246 | in every interleaving of submissions, dealing and expiry each map hands on at most once, and what is handed on are approvals of 2⌊n/3⌋+1 different delegates of the round |
| `Signs.VerifySigns` | consensus/dpos/dpos_consensus.go:159-189 | panics exactly on a signature that recovers to nobody; else accepts exactly if more than the amount of different delegates of the round signed |
| `Signs.CertifiedVerifies` | consensus/dpos/dpos_consensus.go:159-189 | what is handed on recovers throughout and passes that count, with exactly one to spare over the amount |
| `Signs.AcceptedMeansApprovedIff` | consensus/dpos/dpos_consensus.go:174-184 | with a given pool of signatures, every list from it that passes the count has a quorum of approvals exactly if no delegate signed anything but an approval, or no more than the amount signed at all |
| `Signs.OpposedInput` | consensus/dpos/dpos_consensus.go:174-184 | three signatures that all oppose pass the count |
| `Signs.CertificatesMeet` | aoa/dpos_taskManager.go:76 | two hand-offs from one round share at least 4⌊n/3⌋+2−n signers |
| `Signs.QuorumBoundTight` | aoa/dpos_taskManager.go:76 | for every n some two sets of that size share no more than that |
| `Signs.SharedOutside` | aoa/dpos_taskManager.go:76 | unless n is two more than a multiple of three, two hand-offs share a signer outside any group of (n−1)/3 |
| `Signs.NotSharedOutside` | aoa/dpos_taskManager.go:76 | when it is, some two sets of that size share no more than such a group |
| `DerivationPath.ParseDerivationPath` | accounts/hd.go:67-117 | the loop gives the path or the first error |
| `DerivationPath.String` | accounts/hd.go:121-135 | the loop gives the printed form |
| `DerivationPath.RoundTrip` | accounts/hd.go:67-135 | every path but the empty one parses back from its printed form, hardened or not in any place |
| `DerivationPath.Canonical` | accounts/hd.go:67-135 | whatever spelling was accepted, printing and parsing again gives the same path |
| `DerivationPath.ComponentSpelled` | accounts/hd.go:91-113 | a component in decimal, hexadecimal, octal or binary, in either case, with or without sign, hardening quote and blanks, reads as its number, or is out of range exactly if negative or over the limit |
| `DerivationPath.NumberIff` | accounts/hd.go:103-106 | a text is a number in a base exactly if it has digits and all of them are good in it |
| `DerivationPath.RelativePath` | accounts/hd.go:67-90 | a path without the m means what it does after m/, appended to the default root 44'/60'/0'/0, or the same error |
| `DerivationPath.PathErrors` | accounts/hd.go:70-88 | ambiguous exactly if blank before the first slash, empty exactly if m alone |

## Left out

- Networking, peers, codecs, RPC, the console, key files, logging and metrics: no invariant of the kind modelled here.
- LevelDB, caches, RLP, hashing and signatures: finite maps, collision-free identifiers and a recovered-signer function.
- The virtual machine, the state trie and journals: a machine that returns no more gas than it gets and conserves the total balance. What it does inside a call is open; that it may undo a vote is a step of `VoteLedger`.
- `txPricedList`, `txTypeList` and price ordering: the pool's `priced` only mirrors `all` here and would add bookkeeping, not a harder property.
- The first part of `promoteExecutables`, `promoteTx`, `demoteUnexecutables` and `add`: each is a use of the list operations proved in `TxList`.
- Lists inside the pool are nonce-sorted sequences, tied to the list objects by `InsertIsPut`, `DropNonceIsRemove` and `PartsAreRemove`; sharing of list objects is not modelled.
- The priority queue of large senders works on exact lengths: rounding of lengths to float32 above 2^24 is not modelled.
- Block numbers are unbounded, so number arithmetic does not wrap.
- HeaderChain.Headers.constructor: starts from the genesis; resuming from a stored head header is not modelled.
- A database write that fails half way, fast sync, `SetHead` and the receipts of `WriteBlockAndState`.
- Child indexers, `AddKnownSectionHead`, and the section count kept in the database.
- ChainIndexer.OverlapSafeIff: takes the loop test and the decrement of setValidSections as one step, so a decrement by the other drop between them, which can wrap a count of one below zero, is not modelled.
- ChainIndexer.EveryRunIsLinked: is over the same steps.
- The delegate database's own journal and trie; tallies are unbounded rather than cut to int64 for comparison.
- `CountBlockVote`, `Transfer`, `GetHashFn`: short, with nothing across operations.
- Block rewards in `Finalize`.
- VoteSlice.UntouchedIff: for a batch that names a candidate twice only the safe direction is proved (`GentleKeeps`).
- VoteLedger.EveryRunKeepsInv: is about processing a block, where a refused vote ends the run; a block being made goes on after it, with the list as `VoteSlice` says.
- VoteLedger.AccountDb.Vote: works on a private copy of the vote list, which the code does not make; `VoteSlice` has the shared slice.
- LightPool.Pool.Walk: every ancestor of both heads is stored, as for ReorgOnNewHead.
- ReorgOnNewHead: every ancestor of the old and the new head is stored; the case where a parent of the new head is missing during header-trie sync is left out, and so are `add` and `RemoveTx` of the light pool.
- Locking and expiry of the pending block itself (`addPendingBlock`, `unlock`).
- `big.Int.SetString` in base 0 follows Go 1.10, the version of the build file: no digit separators and no `0o` prefix.
