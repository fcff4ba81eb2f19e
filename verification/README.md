# Espresso rollup node proxy: a verified model

The proxy keeps one number, the L2 block finalized by Espresso. A verifier advances it on evidence, a store
persists it, and an interceptor puts it into JSON-RPC requests in place of the Espresso tag. The system promises two
things: the number never moves backwards, and it only advances over blocks on which the full node and Espresso agree
or that are already final. This project models the code that keeps these promises and proves them over every run, with
reorgs, failed disk writes, cancellations, crashes, restarts and concurrent goroutines as inputs nobody controls.

Each part comes in two layers. Where the code updates an object in place, a class has the same fields and methods, and
each method is proved equal to a function on values. The functions are then composed into machines whose runs the
main theorems quantify over. A crash can fall anywhere: between rename and memory update it is an outcome of the write,
and in the middle of a drain it is a cancelled tick followed by a restart.

| file | part of the system |
|---|---|
| `Common.dfy` | value types shared by the rest |
| `Store.dfy` | the persisted state, its readers, the readiness handler; the machine of update phases, crashes and restarts |
| `Json.dfy` | decoded JSON, nodes by path, substitution of the tag, the hexadecimal number |
| `Interceptor.dfy`, `InterceptorProcess.dfy` | what becomes of a request or a batch; the lazily copying, depth-bounded rewrite of shared slices and maps |
| `Codec.dfy` | decoding and encoding of requests; decode, intercept, encode as one |
| `OpBlocks.dfy` | comparing an Espresso batch with the full node's block |
| `OpVerifier.dfy`, `OpProcess.dfy` | the OP verifier's tick as a function, its runs; its object |
| `OpTick.dfy` | what a tick takes, where it leaves the verifier and what it persists, said without those functions |
| `Feed.dfy` | the Nitro sequencer feed client |
| `DelayedFetcher.dfy`, `DelayedProcess.dfy` | the delayed-message fetcher's actions and scan windows; its object |
| `DelayedReorgs.dfy` | the fetcher's two goroutines and L1 reorgs, interleaved in every way |
| `NitroVerifier.dfy`, `NitroProcess.dfy` | the Nitro verifier's tick as a function, its runs; its object |
| `NitroTick.dfy` | when a message is verified, what a match leaves in the delayed-message cache, what is persisted |
| `NitroMismatch.dfy` | what happens at a position where Espresso and the feed differ |
| `EndToEnd.dfy` | what clients see: codec, interceptor, store and a verifier's run together |

## Assumptions

They appear as `requires` clauses or as the shape of the inputs.

- Header hashes do not collide and are never zero; block and message RLP are injective (`OpBlocks.Ideal`, `Common.Injective`).
  Keccak-256 is any function.
- Among the headers that batches and finalized blocks carry, a child's number is its parent's plus one
  (`OpVerifier.WellNumbered`). A batch's number and hash are those of its header.
- When a process has no tip yet, the first batch its streamer offers leaves no gap above the stored number
  (`OpVerifier.Anchored`). The code does not check it, and `OpVerifier.FirstBatchIsCoveredIff` shows that coverage needs
  just that. The results on tip and store ask for exactly the next number.
- The Nitro streamer has one fixed message a position and peeks at its cursor. Whether `AdvanceTo` may lower the
  cursor, and whether `Peek` hands out the streamer's own buffer (so that a payload written into it is seen again), is
  chosen anew by the input each time: every result holds for both.
- L1 blocks that were final stay as they are, message indices grow with block numbers, and an Inbox log belongs to a
  Bridge event of the same block on the chain that answered the query (`DelayedReorgs.Evolves`, `DelayedReorgs.Allowed`).
  A reorg may fall between any two steps of a poll or of a lookup.
- Replacing the state file is atomic and survives the crash of the process. There is one writer.
- The clock, RPC answers, streamer contents, poll results and disk failures are inputs.

## Where the code departs from what one would expect

- `UpdateIfGreater` relies on its single writer: `Store.TwoWritersRegressIffNumbersDiffer`.
- A `--max-batch-size` of 0 is described as "no limit" in config.go:129, but rejects every non-empty batch:
  `Interceptor.ZeroMaximumRejects`.
- Re-encoding drops an explicit null `params` and may add or change a field for a key that is a known one in other
  letters. `Codec.ReEncodesIff` and `Codec.SingleRequestIsTransparentIff` say exactly when an object comes through;
  `Codec.NullParamsAreDropped` and `Codec.VariantKeyAddsAnId` are two that do not.
- The Nitro cursor is not always the stored number plus one: `NitroVerifier.CursorFollowsStoreIff`.
- The compare-and-set that protects a rewind from a poll in flight does not see a rewind to the block that poll
  started from; a message can then stay behind the scan for good: `DelayedReorgs.RewindSurvivesPollIff`,
  `DelayedReorgs.MessageIsLostIff`, `DelayedReorgs.RewindCanBeOverwritten`.
- A mismatch does not always hold the Nitro verifier until finality. With the store already at or beyond the position,
  as after a lowered cursor, a tick that verifies an earlier message catches up with the store and steps over the
  mismatch: `NitroMismatch.MismatchIsPassedIff`, `NitroMismatch.CatchingUpPassesAMismatch`.
- The OP verifier takes the first batch after a start whatever its number: `OpVerifier.FirstBatchIsCoveredIff`.
- A delayed count of 0 makes the pruned index wrap around and empties the cache: `DelayedFetcher.PruningSparesLaterMessagesIff`.
- A scan window spans up to `maxBlocksPerScan` beyond its start, so up to one block more than that: `DelayedFetcher.WindowIsPlain`.

## Model

| member | source | states |
|---|---|---|
| `Store.ServedTagNeverDecreases` | store/espresso_store.go:34-103 | over every interleaving of requests, update phases, failed writes, crashes (also between rename and memory update) and restarts, from any file, the numbers put into requests never decrease, and memory and file are never below one of them, nor the file below memory |
| `Store.RestartResumes` | main.go:97-110 | with nonzero heights and clock a restart after any such history comes up with exactly the file's state, at or above every number served |
| `Store.ReadinessAgreesWithStore` | main.go:147-166 | every answer of the handler that swaps itself equals the answer of one that rereads the store |
| `Store.UpdateRunsThePhases` | store/espresso_store.go:66-86 | a call of UpdateIfGreater is the sequence check, rename, memory update of the machine, cut short by a failed write or a crash |
| `Store.TwoWritersRegressIffNumbersDiffer` | store/espresso_store.go:66-86 | two overlapping calls past their check have an order that takes memory backwards exactly when their numbers differ |
| `Store.EspressoStore.Open` | store/espresso_store.go:34-57 | start-up loads a valid file, refuses an invalid one, and writes a first state only when a height is given and the write succeeds |
| `Store.EspressoStore.UpdateIfGreater` | store/espresso_store.go:66-86 | new memory, file and verdict in every case: not greater, failed write, crash after the rename, success |
| `Store.EspressoStore.FinalizedBlockNumber` | proxy/interceptor.go:82-91 | a number exactly when height, number and time are all set |
| `Store.Disk.Replace` | store/espresso_store.go:111-133 | the file is the old or the new state, never anything else |
| `Store.ReadinessHandler.Probe` | main.go:147-166 | the answer and whether the handler has swapped itself |
| `Json.SubstReplacesTheTag` | proxy/interceptor.go:163-238 | at every path: the tag becomes the string with the number, any other scalar is the same scalar, an array has its length, an object its keys, and a path that led nowhere still does |
| `Json.SubstIsDetermined` | proxy/interceptor.go:163-238 | no other value is like that at every path |
| `Json.SubstAtEveryPath` | proxy/interceptor.go:163-238 | substitution keeps every path and no other, and what a path leads to is the old node substituted |
| `Json.SubstWithoutTag` | proxy/interceptor.go:202-205 | a value in which the tag does not occur is returned as it was |
| `Json.SubstLeavesNoTag` | proxy/interceptor.go:178-180 | one pass leaves no tag unless the tag is the replacement, and then it changes nothing |
| `Json.SubstIdempotent` | proxy/interceptor.go:163-238 | substituting twice is substituting once |
| `Json.HasTagIffSomePath` | proxy/interceptor.go:174-180 | the tag occurs exactly when some path leads to it as a value |
| `Json.DeeperThanIffLongPath` | proxy/interceptor.go:164-172 | the depth limit is exceeded exactly when some path is longer than it |
| `Json.HexReadsBack` | proxy/interceptor.go:179 | the substituted text is "0x" and lower-case hexadecimal digits without leading zeros, and reads back as the block number |
| `InterceptorProcess.ReplaceTagInParams` | proxy/interceptor.go:163-238 | the caller's tree is as it was; it fails exactly when some node is deeper than 32; otherwise the result, made of old and new objects, holds the plain substitution; a change is reported exactly when the tag occurs, and without one the result is the very same reference |
| `InterceptorProcess.ReplaceTagInObject` | proxy/interceptor.go:184-206 | the same for a map, whatever order the keys come in, with a copy made on the first change |
| `InterceptorProcess.TurnField` | proxy/interceptor.go:186-201 | one key of that loop: the keys done hold their substituted values, in the copy or, while no tag was found, in the map itself |
| `InterceptorProcess.ReplaceTagInArray` | proxy/interceptor.go:210-233 | the same for a slice, with the elements before the first change copied |
| `InterceptorProcess.TurnItem` | proxy/interceptor.go:212-228 | one element of that loop |
| `InterceptorProcess.InterceptRequest` | proxy/interceptor.go:100-108 | the request passed in is as it was; the result is unchanged while the state is empty, refused when too deep, otherwise has only params substituted |
| `InterceptorProcess.InterceptOne` | proxy/interceptor.go:143-159 | id, method and extra fields are kept whether or not params change, and a request without the tag is returned as it is |
| `InterceptorProcess.InterceptBatchRequests` | proxy/interceptor.go:112-141 | the requests passed in are as they were; the result is mapped element by element with one number, or rejected whole for size or depth |
| `Interceptor.ZeroMaximumRejects` | proxy/interceptor.go:113-122 | a batch is rejected for size exactly when it is longer than the maximum; at 0 every non-empty one is |
| `Codec.LastMemberWins` | jsonrpcv2/types_json_extensions.go:44-52 | the value of a key in the catch-all map is that of its last member |
| `Codec.MapHasOnlyMembers` | jsonrpcv2/types_json_extensions.go:44-52 | and a key is in that map only if some member has it |
| `Codec.LastValueIs` | jsonrpcv2/types_json_extensions.go:34-42 | the last value, or last string, of a name is that of the last member whose key is the name in whatever letters |
| `Codec.NoValueIsNull` | jsonrpcv2/types_json_extensions.go:34-42 | with no such member the value is null and the string empty |
| `Codec.FieldsByFolding` | jsonrpcv2/types_json_extensions.go:31-75 | for every object, each decoded field is the last value, for the two strings the last string, among the members whose key is its name in whatever letters |
| `Codec.DecodesIff` | jsonrpcv2/types_json_extensions.go:63-105 | an object decodes exactly when version and method, in whatever letters, are strings or null and the last version is "2.0"; it is a notification exactly when there is no "id" and no id in other letters but null |
| `Codec.WellFormedDecodes` | jsonrpcv2/types_json_extensions.go:63-105 | a standard object without repeated keys or case variants decodes, with the id absent, null or given and the params as they stand in it |
| `Codec.DecodedPresents` | jsonrpcv2/types_json_extensions.go:63-105 | such an object that presents a request, field by field, decodes to exactly that request |
| `Codec.MarshalRequest` | jsonrpcv2/types_json_extensions.go:111-131 | extra fields cannot override the four known ones; no id for a notification; no params when nil |
| `Codec.CopyExtraFields` | jsonrpcv2/types_json_extensions.go:112-119 | exactly the extra fields without a known name are copied, in whatever order they come |
| `Codec.FieldsAreLastMembers` | jsonrpcv2/types_json_extensions.go:31-56 | without case variants each struct field is the last member of exactly its key |
| `Codec.ReEncodesIff` | jsonrpcv2/types_json_extensions.go:63-131 | for every object that decodes: decode then encode with new params gives the object with only params replaced exactly when version and method under their exact keys are the decoded ones, the decoded id is the one under "id" or null without one, and "params" is there exactly when the decoded params are not null |
| `Codec.ReEncodesIffStandard` | jsonrpcv2/types_json_extensions.go:63-131 | without case variants that is: version and method are proper strings and params, if any, are not null |
| `Codec.DecodeInvertsEncodeIff` | jsonrpcv2/types_json_extensions.go:63-131 | decoding an encoded request gives it back exactly when the last values its known keys have, in whatever letters, are its own: extra fields may carry any name |
| `Codec.DecodeInvertsEncode` | jsonrpcv2/types_json_extensions.go:63-131 | so it does, in any order of members, if no extra field is a known key in other letters |
| `Codec.NullParamsAreDropped` | jsonrpcv2/types_json_extensions.go:125-127 | an object with null params comes out without params |
| `Codec.VariantKeyAddsAnId` | jsonrpcv2/types_json_extensions.go:81-89 | an object with "ID" and no "id" comes out with an id |
| `Codec.SingleRequestIsTransparentIff` | adapters/helpers_interceptor_glue.go:60-107 | for every object that decodes: refused exactly when the number is known and the decoded params are too deep; otherwise forwarded as the same object with only params substituted exactly when it re-encodes faithfully and its params under the exact key come out as the decoded ones |
| `Codec.SingleRequestIsTransparent` | adapters/helpers_interceptor_glue.go:60-107 | a well-formed request, repeated keys allowed, is forwarded as the same object with only params substituted, ids included, or refused exactly when the number is known and params are too deep |
| `Codec.BatchIsTransparent` | adapters/helpers_interceptor_glue.go:60-113 | a batch of well-formed requests is forwarded element by element with one number, or refused whole, exactly for size or depth |
| `Codec.OneBadElementRefusesTheBatch` | adapters/helpers_interceptor_glue.go:60-67 | one element that does not decode refuses the whole batch |
| `OpBlocks.FilterUserDeposits` | verifier/op/utils.go:56-81 | the first transaction, then those at exactly the positions after it that hold no deposit, in increasing order; everything else of the block unchanged |
| `OpBlocks.EspressoBatchToBlock` | verifier/op/utils.go:98-114 | fails exactly when a transaction does not decode; otherwise batch header, L1-info deposit, decoded transactions in order, the node's uncles and withdrawals |
| `OpBlocks.CompareWithNode` | verifier/op/op_verifier.go:365-396 | accepted exactly when headers are equal, the node's first transaction is the L1-info deposit, and the batch's transactions decode, one by one, to those at the increasing positions of the block that hold no deposit |
| `OpBlocks.AgreesIffByPosition` | verifier/op/op_verifier.go:365-418 | agreement through the filtered list and agreement by position are the same |
| `OpBlocks.MatchIffAgrees` | verifier/op/op_verifier.go:401-418 | equality of hash and RLP of the two blocks is that agreement |
| `OpBlocks.AcceptedBatchCarriesNoDeposit` | verifier/op/utils.go:64-72 | no transaction of an accepted batch is a deposit |
| `OpBlocks.NodeBlockDeterminesBatch` | verifier/op/op_verifier.go:365-418 | two batches accepted against one block have the same header, deposit and decoded transactions |
| `OpVerifier.EveryStoredNumberIsCovered` | verifier/op/op_verifier.go:232-345 | in every run each number above the first start's and at most the stored one, in memory or on disk, has an entry in the verifier's log: a batch of that number that agrees with the full node's block and that some tick offered, or a jump at or above it to a finalized L2 block that some tick was told of |
| `OpTick.StoredStateHasASource` | verifier/op/op_verifier.go:302-345 | in every run, in memory and on disk, the whole persisted state is the first file's, or one tick's last verified number with that tick's own fallback position and clock, or its finalized number with the position and clock of the fast-forward |
| `OpTick.DrainTakesLongestPrefix` | verifier/op/op_verifier.go:232-280 | a drain takes exactly the longest run of offered batches that agree with the full node and have the one before, or the tip, as parent; tip and L1 origin are then the last one's; a cancellation makes it report none |
| `OpTick.TickThatDrains` | verifier/op/op_verifier.go:284-345 | in a tick that gets that far: the fast-forward to newer finality with its tip, origin and state, then the drain from there, then at most one write, for the last batch, with every way it can end |
| `OpTick.TickThatDoesNotDrain` | verifier/op/op_verifier.go:432-459 | exactly when a tick ends for lack of a snapshot, a failed fast-forward or a failed refresh, and that it verified nothing |
| `OpTick.AdvancingStores` | verifier/op/op_verifier.go:302-315 | after a tick that advanced, memory and file hold the last batch's number with this tick's position and clock, and tip and origin are that batch's |
| `OpVerifier.VerifiedHeadersChain` | verifier/op/op_verifier.go:469-503 | each verified batch agrees with the full node and has as parent the header verified or jumped to right before it, and the next number; only the first after a start has no parent to check, and it leaves no gap |
| `OpVerifier.StoredNumberNeverDecreases` | verifier/op/op_verifier.go:284-345 | between any two points of any run, restarts included and with nothing assumed of the inputs, neither the number in memory nor the one on disk gets lower |
| `OpVerifier.TipIsNeverBehindStore` | verifier/op/op_verifier.go:302-314 | the tip's number is at least the stored one in every reachable state, and no tick from there takes the "not updating" branch |
| `OpVerifier.CleanRunsStayInStep` | verifier/op/op_verifier.go:284-345 | while no write fails and nothing is cancelled, tip number and stored number stay equal |
| `OpVerifier.AdvancingComesIntoStep` | verifier/op/op_verifier.go:302-315 | a tick that stores a batch makes them equal again whatever failed before |
| `OpVerifier.TickComputesMaximum` | verifier/op/op_verifier.go:284-316 | a tick without error or cancellation leaves the maximum of the old number, the finalized one and the last verified one |
| `OpVerifier.FirstBatchIsCoveredIff` | verifier/op/op_verifier.go:483-487 | after a fresh process stored a first batch, every stored number is covered exactly when the batch was numbered at most the old stored number plus one; otherwise nothing covers any number in between |
| `OpProcess.OPEspressoBatchVerifier.PeekNextBatch` | verifier/op/op_verifier.go:469-503 | a batch is handed out exactly when there is one and it chains onto the tip or there is no tip; a fork exactly when it does not |
| `OpProcess.OPEspressoBatchVerifier.VerifyNextBatch` | verifier/op/op_verifier.go:353-397 | verified exactly when it chains, the node has the block and the two agree |
| `OpProcess.OPEspressoBatchVerifier.DrainAndVerifyBatches` | verifier/op/op_verifier.go:232-280 | tip, origin, evidence and last batch after draining, for every script of answers |
| `OpProcess.OPEspressoBatchVerifier.SyncEspressoStateWithEthereumFinality` | verifier/op/op_verifier.go:322-345 | store, tip and origin after the fast-forward, for every way the write can end |
| `OpProcess.OPEspressoBatchVerifier.VerifyAndAdvance` | verifier/op/op_verifier.go:284-316 | the object's whole new state and the tick's outcome; after an advance the file holds this tick's fallback position and clock |
| `OpProcess.OPEspressoBatchVerifier.constructor` | verifier/op/op_verifier.go:110-147 | a new process has no tip and starts from the stored number |
| `Feed.ArrivalsKeepTheCache` | verifier/nitro/feed_client/client.go:163-176 | what arrives never replaces what is cached and nothing below the cursor gets in |
| `Feed.FirstOfItsNumberArrives` | verifier/nitro/feed_client/client.go:163-176 | every message at or above the cursor, first of its number in the broadcast and not cached before, ends up in the cache |
| `Feed.ArrivalsWereSent` | verifier/nitro/feed_client/client.go:163-176 | and whatever is new in the cache is such a message |
| `Feed.FeedClient.AdvanceTo` | verifier/nitro/feed_client/client.go:56-63 | exactly the numbers from the old cursor up to the new one are dropped |
| `Feed.FeedClient.Advance` | verifier/nitro/feed_client/client.go:65-70 | the cursor's own entry is dropped and the cursor moves by one |
| `Feed.FeedClient.Receive` | verifier/nitro/feed_client/client.go:163-176 | the cache after a broadcast: null items, numbers below the cursor and numbers already cached are skipped |
| `DelayedReorgs.RewindLosesNothing` | verifier/nitro/delayed_message_fetcher/delayed_message_fetcher.go:179-211 | under every interleaving of polls, lookups, prunings and reorgs, also between a log query and the storing of its logs and between the check and the rewind: when the fetcher rewinds for a message it found missing, every message canonical by then with that index or higher lies at or after the new scan position |
| `DelayedFetcher.DelayedMessageIsVouched` | verifier/nitro/delayed_message_fetcher/delayed_message_fetcher.go:179-293 | data handed out for an index hashes to that index's Bridge event in the recorded block at check time, and the block is final when waiting is on, whatever the poller did meanwhile |
| `DelayedFetcher.GetDelayedExactly` | verifier/nitro/delayed_message_fetcher/delayed_message_fetcher.go:179-293 | data is handed out exactly when the index is cached, L1 answered, its Bridge event is in the recorded block with the data's hash, and, if waiting is on, finality was answered and is at or above that block; exact conditions also for not final, RPC error and not found; the cache is emptied and the cursor set back exactly when L1 lost the message |
| `DelayedReorgs.GetDelayedIsTheMoves` | verifier/nitro/delayed_message_fetcher/delayed_message_fetcher.go:179-222 | for any index and any answer of L1, an error included, the call's effect on the fetcher is the machine's lookup, check and rewind with the poller's actions in between, and it replies not found exactly for an uncached index or a missing message |
| `DelayedReorgs.RewindSurvivesPollIff` | verifier/nitro/delayed_message_fetcher/delayed_message_fetcher.go:296-346 | for every run from a rewind during a poll to that poll's commit, with stores, reorgs, lookups and prunings in between: the cursor is still the rewind's target exactly when that is not the block the poll started from; otherwise it is right after the window |
| `DelayedReorgs.MessageIsLostIff` | verifier/nitro/delayed_message_fetcher/delayed_message_fetcher.go:296-346 | after such a run a canonical message with that index or higher is behind the cursor and not cached exactly when the target is the poll's start, its block is in the window, and the poll did not store it after the rewind or somebody pruned it since |
| `DelayedReorgs.RewindCanBeOverwritten` | verifier/nitro/delayed_message_fetcher/delayed_message_fetcher.go:339-346 | a run from the start in which a message ends up behind the scan and out of the cache |
| `DelayedFetcher.WindowIsPlain` | verifier/nitro/delayed_message_fetcher/delayed_message_fetcher.go:561-573 | a window starts at the cursor, ends at or before the latest block, spans at most the range beyond its start, and its 64-bit arithmetic never wraps |
| `DelayedFetcher.PollExactly` | verifier/nitro/delayed_message_fetcher/delayed_message_fetcher.go:311-337 | a whole poll stores the logs before the first bad one, the later of two with one index winning, each with its own block and the finalized block of the poll, changes nothing else in the cache, and moves the cursor to right after the window only if no log was bad |
| `DelayedFetcher.EntriesWerePut` | verifier/nitro/delayed_message_fetcher/delayed_message_fetcher.go:483-490 | over every sequence of the poller's actions an entry of the cache was there before or is the data, block and index of a log that was stored, with the finalized block given to a poll begun before |
| `DelayedFetcher.StartLooksBack` | verifier/nitro/delayed_message_fetcher/delayed_message_fetcher.go:111-162 | a new fetcher's scan starts exactly 5000 blocks behind finality, and whatever the poller does before a rewind, a block from there on was in a committed window or is still ahead |
| `DelayedFetcher.PollsTileTheChain` | verifier/nitro/delayed_message_fetcher/delayed_message_fetcher.go:546-577 | for every sequence of the poller's actions without a rewind, failed and aborted polls included, the windows it commits have no gap and no overlap from its first cursor to its last, and none is wider than the range |
| `DelayedFetcher.CatchUpIsBounded` | verifier/nitro/delayed_message_fetcher/delayed_message_fetcher.go:546-577 | polls whose logs check out, run one after the other, pass any target block after as many polls as it takes at range plus one blocks each |
| `DelayedFetcher.PruningSparesLaterMessagesIff` | verifier/nitro/nitro_verifier.go:254 | along a stream in which each delayed message raises the count by one, pruning keeps what later messages need exactly when the count is not 0 or nothing delayed follows |
| `DelayedProcess.DelayedMessageFetcher.constructor` | verifier/nitro/delayed_message_fetcher/delayed_message_fetcher.go:111-162 | starts 5000 blocks behind finality, or at 0; a range of 0 is 10000 |
| `DelayedProcess.DelayedMessageFetcher.GetDelayedMessage` | verifier/nitro/delayed_message_fetcher/delayed_message_fetcher.go:179-222 | the fetcher afterwards, the reply with the exact condition of each of its four kinds, and that data is vouched for by L1 |
| `DelayedProcess.DelayedMessageFetcher.Rewind` | verifier/nitro/delayed_message_fetcher/delayed_message_fetcher.go:296-307 | an empty cache and the cursor at the entry's finalized block |
| `DelayedProcess.DelayedMessageFetcher.Advance` | verifier/nitro/delayed_message_fetcher/delayed_message_fetcher.go:224-242 | exactly the entries above the index remain, despite the zeros in the list of deletions |
| `DelayedProcess.DelayedMessageFetcher.BeginPoll` | verifier/nitro/delayed_message_fetcher/delayed_message_fetcher.go:561-573 | a poll begins exactly when the cursor is not past the latest block, at the cursor, remembering the finalized block it was given |
| `DelayedProcess.DelayedMessageFetcher.StoreInboxLog` | verifier/nitro/delayed_message_fetcher/delayed_message_fetcher.go:446-491 | an entry under its own index exactly when the data hashes to the Bridge event's hash; otherwise the poll ends |
| `DelayedProcess.DelayedMessageFetcher.ExtractInboxData` | verifier/nitro/delayed_message_fetcher/delayed_message_fetcher.go:439-493 | all logs in turn, then the commit, or a stop at the first bad one with what came before kept |
| `DelayedProcess.DelayedMessageFetcher.Poll` | verifier/nitro/delayed_message_fetcher/delayed_message_fetcher.go:546-577 | a whole poll is its actions in order |
| `NitroVerifier.EveryPositionIsVerifiedOrFinal` | verifier/nitro/nitro_verifier.go:218-372 | in every run each position above the first start and below the streamer cursor or up to the stored number, in memory or on disk, was matched with a message the feed sent for it, or lies at or below a finalized block that a tick was told of and the process jumped to |
| `NitroVerifier.StoredNumberNeverDecreases` | verifier/nitro/nitro_verifier.go:300-372 | between any two points of any run, restarts included, neither the number in memory nor the one on disk gets lower |
| `NitroVerifier.MatchesAreGenuine` | verifier/nitro/nitro_verifier.go:261-296 | every match is Espresso's message against one the feed sent; a delayed one carries a payload fetched earlier for that position, for the index its count names, and vouched for by L1 |
| `NitroTick.TurnVerifiesIff` | verifier/nitro/nitro_verifier.go:218-296 | from every reachable state a message is verified exactly when the feed has it with the payload that the peek shows or, if that is empty, with the cached data that L1 vouches for under the index its count names |
| `NitroTick.PayloadIsWritten` | verifier/nitro/nitro_verifier.go:279-292 | a payload handed out by L1 is left in the peeked message whether or not the comparison succeeds, and nothing else is |
| `NitroTick.MatchKeepsFromCount` | verifier/nitro/nitro_verifier.go:254 | when a position with delayed count c is matched, exactly the entries cached at that moment with index c or higher are left, unchanged; with count 0 none are |
| `NitroTick.MatchesSpareWhatIsNeeded` | verifier/nitro/nitro_verifier.go:218-259 | from every reachable state, over every run without a restart, an entry that the delayed message at a position needs stays cached while only earlier positions are matched, unless the fetcher rewinds or a position with count 0 is matched |
| `NitroTick.DrainVerifiesInTurn` | verifier/nitro/nitro_verifier.go:218-259 | a drain verifies one message after the other and ends only with its script, at a cancellation or at a message that cannot be verified |
| `NitroTick.TickStores` | verifier/nitro/nitro_verifier.go:300-372 | outcome and store of a tick in every case of cancellation, newer finality and either write |
| `NitroTick.StoredStateHasASource` | verifier/nitro/nitro_verifier.go:310-372 | in every run, in memory and on disk, the whole persisted state is the first file's, or the position one tick matched last with that position's own HotShot height and the tick's clock, or its finalized number with what was read for the sync |
| `NitroVerifier.FeedCursorStaysBehind` | verifier/nitro/nitro_verifier.go:339-348 | the feed cursor never passes the streamer cursor and every cached key is at or above it |
| `NitroVerifier.CachedMessagesWaitToBeSettled` | verifier/nitro/feed_client/client.go:40-70 | a cached feed message is neither replaced nor dropped before its position is verified or final |
| `NitroMismatch.MismatchBlocks` | verifier/nitro/nitro_verifier.go:228-252 | an attempt that finds Espresso's message different from the cached one does not verify it and blocks the position |
| `NitroMismatch.MismatchIsSticky` | verifier/nitro/nitro_verifier.go:218-259 | no later step of the process verifies a blocked position, whatever the feed sends |
| `NitroMismatch.TickPassesIff` | verifier/nitro/nitro_verifier.go:300-337 | for every sound and blocked state: a tick takes the cursor past the position without a jump to it or beyond exactly when the stored number is at or beyond it, the drain verified something, the tick was not cancelled, and no finality above the stored number was reported |
| `NitroMismatch.MismatchIsPassedIff` | verifier/nitro/nitro_verifier.go:300-372 | over every run without a restart that leaves the process up: a blocked position is passed exactly when the run jumped to finality at or beyond it, or the stored number was at or beyond it from the beginning and some tick caught up with it |
| `NitroMismatch.OnlyFinalityPassesAMismatch` | verifier/nitro/nitro_verifier.go:350-372 | so while the stored number is below it, only a jump to finality at or beyond it takes cursor or store past a blocked position |
| `NitroMismatch.CatchingUpPassesAMismatch` | verifier/nitro/nitro_verifier.go:321-329 | a run from the start, with no restart, after which a tick passes a blocked position with no jump to it or beyond and without verifying it |
| `NitroVerifier.JumpsAreReported` | verifier/nitro/nitro_verifier.go:350-372 | every jump of a run is to a finalized block that was reported to one of its ticks |
| `NitroVerifier.TickComputesMaximum` | verifier/nitro/nitro_verifier.go:300-337 | a tick without error or cancellation leaves the maximum of the old number, the finalized one and the last verified one |
| `NitroVerifier.CursorFollowsStoreIff` | verifier/nitro/nitro_verifier.go:302-316 | after a tick that stored what it verified the cursor is the stored number plus one exactly when finality did not move the store first or the cursor cannot be lowered |
| `NitroProcess.NitroEspressoBatchVerifier.constructor` | verifier/nitro/nitro_verifier.go:122-158 | streamer at the stored number plus one, feed at the stored number |
| `NitroProcess.NitroEspressoBatchVerifier.EnsureMessagesMatch` | verifier/nitro/nitro_verifier.go:374-387 | equal encodings exactly when the messages are equal |
| `NitroProcess.NitroEspressoBatchVerifier.VerifyDelayedMessage` | verifier/nitro/nitro_verifier.go:268-296 | the payload is written into the peeked message before the comparison and stays there if it fails |
| `NitroProcess.NitroEspressoBatchVerifier.VerifyMessage` | verifier/nitro/nitro_verifier.go:261-266 | a message without payload goes through L1, any other is compared as it is |
| `NitroProcess.NitroEspressoBatchVerifier.Advance` | verifier/nitro/nitro_verifier.go:339-343 | all three cursors after a match; with a count above 0 exactly the cached entries from that index on remain |
| `NitroProcess.NitroEspressoBatchVerifier.AdvanceTo` | verifier/nitro/nitro_verifier.go:345-348 | streamer and feed cursor after a jump |
| `NitroProcess.NitroEspressoBatchVerifier.DrainAndVerifyMessages` | verifier/nitro/nitro_verifier.go:218-259 | the whole state, last position and cancellation, for every script of answers and background activity |
| `NitroProcess.NitroEspressoBatchVerifier.SyncEspressoStateWithNitroFinality` | verifier/nitro/nitro_verifier.go:350-372 | store and cursors after the sync, for every way the write can end |
| `NitroProcess.NitroEspressoBatchVerifier.StoreVerified` | verifier/nitro/nitro_verifier.go:310-337 | the final write, and the catch-up of the cursors when the store is already ahead |
| `NitroProcess.NitroEspressoBatchVerifier.VerifyAndAdvance` | verifier/nitro/nitro_verifier.go:300-337 | the object's whole new state and the tick's outcome |
| `EndToEnd.OpClientsSeeSettledNumbers` | README.md:9 | at any point of any run of the OP verifier a well-formed request is forwarded with the same members, in its params, at every path, just the tag replaced, by a string that reads back as the stored number; that number is at least the one at any earlier point, and every number up to it had by then been verified against the full node or lay at or below a finalized block the verifier jumped to |
| `EndToEnd.NitroClientsSeeSettledNumbers` | README.md:264 | the same for the Nitro verifier, with nothing assumed of feed, poller, disk or L1 |

## Left out

- The HTTP and WebSocket servers, middlewares and reverse proxies: plumbing over libraries.
- Byte-level JSON: payloads start as parsed values; only a request's own members keep their order and duplicates. Responses and error objects are not modelled.
- `l1OriginFromL2Block` and the polling of finality: an L1 origin is a number and a poll result an input. They would only add easy members.
- The internals of the streamers, of RLP, Keccak-256 and transaction decoding, of ABI unpacking and of the RPC clients: functions and inputs.
- Start and stop of the goroutines, tickers, contexts beyond cancellation, batch latency tracking, logging, configuration.
- InterceptorProcess.ReplaceTagInArray: a slice is an object with a sequence of references, so the copy grows by appending where the code fills a slice made at its full length.
- NitroVerifier.EveryPositionIsVerifiedOrFinal: block numbers and positions are unbounded, so a wrap-around at 2^64 of the cursors is not modelled; 64-bit arithmetic is explicit in the scan window and in the pruned index only.
- NitroVerifier.CachedMessagesWaitToBeSettled: a step of the tick between two locks is one step; arrivals between the two halves of one advance of cursors commute with it.
- Store.ServedTagNeverDecreases: does not model a file changed or removed from outside, nor a power loss that undoes a rename.
- DelayedReorgs.RewindLosesNothing: does not say that a message moved by a reorg into a block already scanned is found again when no cached message went missing; the code does not look back for it.
- OpTick.TickThatDrains: does not say which arguments the streamer is refreshed with, because the streamer is an input.
