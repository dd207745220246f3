# A verified model of the fuzzer's engines

This project models the concurrent and stateful engines around the EVM of a
parallel, snapshot-based smart-contract fuzzer, and proves what they keep over
every input, every run and every interleaving. One EVM call is an abstract
deterministic step; random draws, clocks and timeouts are arbitrary inputs.

| part | modules |
|---|---|
| coverage inspector and concurrent merging | `CoverageInspector`, `SharedCoverage`, `MergeSchedules`, `MergePrograms`, `MergeResults`, `CoverageMap` |
| multi-fork database | `ForkDatabase`, `ForkReads`, `MultiForkDatabase` |
| token-bucket rate limiter | `RateLimiter`, `RateLimiterRace` |
| parallel shrinkers | `Shrinking`, `Shrinkers` |
| max search | `MaxSearch`, `MaxOffers`, `MaxRetention`, `BestReach`, `Corpus`, `BestTracker`, `DeltaRecords` |
| findings and their ids | `Findings`, `StopFilters`, `Hex` |
| reference closure and override dispatch | `References` |
| bytecode index, PC map, source maps | `BytecodeIndex`, `PcMap`, `SourceMap` |

Code that updates objects in place is modelled by classes and methods with
loops; each method is tied to a specification function, and the results are
lemmas about those functions. Concurrency is modelled as state machines whose
steps are the atomic operations of the code (a `fetch_max`, a `fetch_or`, a
`get_or_insert`, a compare-and-swap, a critical section), run in any order by
any number of threads.

## Main results

- **Coverage.** `MergeResults.DiscoveriesAddUp`: for every schedule of any number
  of merges into an empty map, the edges and jump edges reported as new add up to
  exactly the map's counts, and the depths and reverts lie between the cells and
  the bits set. `MergeResults.SchedulesConfluent` and `MergedMapIsUnion`: all
  schedules end in the same map, the union of the local maps with raw counts
  summed modulo 2^64. The local maps are those the inspector builds
  (`InspectorFeedsMerge`), whose sparse lists agree with its dense arrays after
  any hooks (`CoverageInspector.RunIsValid`) and whose contents are exactly the
  hooks' history (`RunTalliesHistory`).
- **Forks.** `ForkDatabase.HarnessStateSurvives`: through any run of reads, writes,
  commits and switches a local account reads as last written, as if there were one
  database, exactly when no switch moves to a fork holding something stale about it.
  `TameMeetsStaleIff` says when that is for an account registered early, and
  `ForksAreIsolated` is the opposite promise for remote accounts; `ForkReads.RemoteReadsAreServed`
  says that those read as their endpoint serves them.
- **Rate.** `RateLimiterRace.RateHoldsIff`: the rate holds in real time in every run that
  ends by time t exactly when there is at most one thread or the 32-bit clock has not
  wrapped. `RaceIsBounded` holds past wrap-around and truncation for every interleaving in
  which no compare-and-swap succeeds on a word that was overwritten and came back, and
  `StaleIffLapped` says exactly when that happens. Windows are over the times at which tokens
  are handed out; `StrictWindowsIff` says when they need no extra token.
- **Shrinking.** `Shrinking.ShrinkIsSafe`, `BudgetIsKept`, `EveryScheduleEnds` and
  `ResultIsShortestAccepted` cover safety, budget, termination and outcome in every
  interleaving. `Shrinkers.BrokenInvariantShrunkToShortest`, `RevertShrunkToShortest` and
  `MaxShrunkToShortest` say of replays what that outcome is; `WrapBreaksBudget` and `MaxShrinkerMaySpin` show where the code has
  no such guarantee.
- **Max search.** `MaxSearch.SearchKeepsMemo`, `BestIsMaximum` and `WinsReachTheCorpus`;
  `MaxRetention.NoMeasuredValueIsLost`, `MaxOffers.NovelPrefixesAreOffered` and
  `BestReach.BestCoversMeasuredIff`;
  `Corpus.CorpusKeepsTheHighest`, `FullCorpusOnlyStrengthens` and `DrawsPerEntry`;
  `DeltaRecords.RecordsAreExtremes`.
- **Findings.** `Findings.CollectionIsDetermined`; `StopFilters.RevertIdIdentifies` and
  `PanicIdIdentifiesIff`.
- **Analyses.** `References.ResolvedIffReferred`, `References.RedirectedIff`,
  `BytecodeIndex.FindMeansFirstMatch`, `PcMap.InstructionsPartition`,
  `SourceMap.ElisionIsTransparent`.

## Where the code differs from its documentation, or from what one expects

- `src/evm/forkdb/limiter.rs:71-94`: the clock is read before the exchange, so a thread that stalls
  in between hands out a token late: a window can hold one token more than the rate and the
  bucket allow (`RateLimiterRace.InstantBurst`; `StrictWindowsIff` says exactly when).
- `src/evm/forkdb/limiter.rs`: the packed stamp repeats every 2^32 ms, so a thread
  stalled between reading the clock and its exchange can succeed on a stale word
  (`RateLimiterRace.LapBreaksTheRate`, for every rate).
- `src/evm/database.rs:248-249` promises that local accounts survive switches. A created
  fork seeds its block's coinbase with a huge balance (lines 463-473), which stays when the
  active fork has not cached that account (`ForkDatabase.CoinbaseIsSeeded`), and slots
  dropped by a destroying commit come back from an older fork
  (`ForkDatabase.ClearedSlotReturns`).
- `src/maxer/corpus.rs:295-301`: a non-improving entry joins a full corpus only when
  strictly stronger; the comments say "at least as strong" and "at least as many".
- `src/maxer/shrinker.rs:335-337`: an empty candidate takes no ticket, so the loop has
  no bound (`Shrinking.EndsIffCannotSpin` says exactly when).
- `src/tester/shrinker.rs:338-373`: the comment speaks of the reverting last call; an
  ordinary broken invariant is accepted when any transaction reports its id
  (`Shrinkers.AcceptedByLastCallIff`).
- `src/tester/shrinker.rs:302-305`: the ticket counter is a wrapping 64-bit word, so the
  budget holds exactly when it leaves room for one ticket of every other worker
  (`Shrinking.BudgetHoldsIff`).
- `src/tester/stop.rs:228-234`: the id `PANIC:unknown` matches every decodable panic and no
  other failure, the opposite of having the same id; the filter never records it.
- `src/maxer/corpus.rs:187-190`: the fallback of the weighted draw is never reached.
- `src/evm/coverage/source_map.rs:26-28`: a single entry with every field left out is written as
  the empty text, which parses to no entries.
- `src/maxer/fuzzer.rs:489-683`: only the last prefix of a run is offered to the best tracker, so
  the best value is the maximum of what was offered, not of everything measured
  (`MaxRetention.BestMissesPrefix`). `BestReach.BestCoversMeasuredIff` says exactly when it covers
  all that was measured; what the corpus keeps in any case is `MaxRetention.NoMeasuredValueIsLost`.
- `src/maxer/fuzzer.rs:566-580`: an execution error leaves the worker before its prefixes are
  kept, so a failed run loses what it measured (`MaxRetention.FailedRunLosesValue`).
- `src/maxer/fuzzer.rs:392-402`: the stop flag is stored after the tracker's lock is released, so
  the best can be at the target before the flag is set (`BestReach.FlagLagsTarget`).

## Model

| member | source | states |
|---|---|---|
| CoverageInspector.Inspector.OnStep | src/evm/coverage/inspector.rs:137-183 | edge counter, depth bit, both hit lists and the jump marker change as the hook's specification says; without a current contract only the last PC moves |
| CoverageInspector.Inspector.OnInitializeInterp | src/evm/coverage/inspector.rs:113-135 | consumes the initcode flag, selects the id and creates its map only when absent |
| CoverageInspector.Inspector.OnRevert | src/evm/coverage/inspector.rs:87-103 | sets the bit of the last PC and lists its word once |
| CoverageInspector.Inspector.OnCall | src/evm/coverage/inspector.rs:185-203 | records the call marker in the caller and pushes the caller |
| CoverageInspector.Inspector.OnCallEnd | src/evm/coverage/inspector.rs:205-216 | records the revert before the frame is popped |
| CoverageInspector.Inspector.OnCreate | src/evm/coverage/inspector.rs:218-227 | pushes the creator and marks the next code as initcode |
| CoverageInspector.Inspector.OnCreateEnd | src/evm/coverage/inspector.rs:229-241 | as a call's end, and clears the initcode mark |
| CoverageInspector.HookKeepsValid | src/evm/coverage/inspector.rs:87-241 | every hook keeps each contract's sparse lists in agreement with its dense arrays |
| CoverageInspector.NewIsConsistent | src/evm/coverage/exec.rs:55-69 | a new contract map agrees with its empty lists |
| CoverageInspector.RunIsValid | src/evm/coverage/inspector.rs:87-159 | after any hooks each non-zero edge and revert word is listed exactly once, and each PC once per depth bit |
| CoverageInspector.RunTalliesHistory | src/evm/coverage/inspector.rs:87-203 | counts, depth sets, revert bits and jump counts are exactly what the hooks' history says, saturating at 255 |
| CoverageInspector.FrameRestoresCaller | src/evm/coverage/inspector.rs:185-241 | whatever happens inside a call or create, its end restores the caller's contract, depth and stack |
| CoverageInspector.StepRecordsJump | src/evm/coverage/inspector.rs:161-182 | with two words on the stack the jump map changes only at the edge to the top word, and only when it fits 64 bits and the opcode is JUMP, or JUMPI with a non-zero second word; it then counts one more, up to 255 |
| CoverageInspector.ShortStackJump | src/evm/coverage/inspector.rs:161-182 | with one word JUMPI takes the destination for its condition; with none no edge is recorded |
| CoverageInspector.CodeEntered | src/evm/coverage/inspector.rs:113-135 | code after a create is filed under its hash alone and flagged as initcode, other code under address and hash; a new map is blank with the sizes the code length gives, and no other map changes |
| CoverageInspector.ContextFollowsHooks | src/evm/coverage/inspector.rs:113-241 | after any hooks the last PC is that of the last step, and initcode is awaited exactly when a create has not met its code or its end |
| CoverageInspector.StepRecordsVisit | src/evm/coverage/inspector.rs:137-159 | a step counts its own PC, up to 255, and adds the bit of the call depth, capped at 63, in the first 1024 PCs; all else in those arrays stays |
| CoverageInspector.EndRecordsRevert | src/evm/coverage/inspector.rs:87-103 | a reverting end sets the bit of the last PC in the contract that was executing and nothing else; any other end records nothing |
| CoverageInspector.CallRecordsEdge | src/evm/coverage/inspector.rs:185-203 | a call counts its marker, from the last PC, in the calling contract alone |
| SharedCoverage.ExecFact | src/evm/coverage/shared.rs:105-174 | an atomic operation makes exactly its own facts true and forgets none |
| SharedCoverage.EdgeGain | src/evm/coverage/shared.rs:124-131 | `fetch_max` reports a new edge exactly when the number of hit edges grows |
| SharedCoverage.JumpGain | src/evm/coverage/shared.rs:159-170 | the same for jump edges, whoever inserted the entry |
| SharedCoverage.DepthGainAtMost | src/evm/coverage/shared.rs:134-141 | a reported depth adds at least one bit |
| SharedCoverage.DepthGainAtLeast | src/evm/coverage/shared.rs:134-141 | a PC's first depth is always reported |
| SharedCoverage.RevertGainAtMost | src/evm/coverage/shared.rs:144-157 | a reported revert adds at least one bit |
| SharedCoverage.RevertGainAtLeast | src/evm/coverage/shared.rs:144-157 | a word's first revert is always reported |
| MergeSchedules.RunKeepsInvariant | src/evm/coverage/shared.rs:105-174 | along every schedule the map stays well shaped, pending operations stay safe, and the returned counts balance the map's growth |
| MergeSchedules.RunConserves | src/evm/coverage/shared.rs:123-170 | every fact said by a merge is in the map or still pending, and raw count plus what is owed is constant modulo 2^64 |
| MergeSchedules.SomeScheduleFinishes | src/evm/coverage/shared.rs:105-174 | every partial schedule can be completed |
| MergePrograms.ProgramSays | src/evm/coverage/shared.rs:110-171 | a merge's operations, which visit only the sparse lists, say exactly the facts of its dense local map |
| MergePrograms.ProgramOwes | src/evm/coverage/shared.rs:124-127 | the raw counts a merge adds are those of its dense local map |
| MergePrograms.ProgramIsOrderly | src/evm/coverage/shared.rs:110-171 | each contract and jump entry is inserted before it is indexed |
| MergeResults.InspectorFeedsMerge | src/evm/coverage/inspector.rs:113-159 | what an inspector collects satisfies everything the merge relies on, when code length and content follow from the code hash |
| MergeResults.MergeNeverPanics | src/evm/coverage/shared.rs:105-174 | in no interleaving does an operation index out of bounds or miss its entry |
| MergeResults.MergedMapIsUnion | src/evm/coverage/shared.rs:123-170 | flags and bitsets end as the pointwise union and raw counts as the sum modulo 2^64 of the local maps |
| MergeResults.SchedulesConfluent | src/evm/coverage/shared.rs:105-174 | any two complete schedules end in the same map |
| MergeResults.DiscoveriesAddUp | src/evm/coverage/shared.rs:105-266 | new edges and new jump edges add up to the map's counts; depths and reverts lie between cells and bits |
| CoverageMap.SharedCoverageMap.Merge | src/evm/coverage/shared.rs:105-174 | the loops perform exactly the merge's program of atomic operations and return its update |
| CoverageMap.SharedCoverageMap.EdgeCount | src/evm/coverage/shared.rs:211-223 | the number of non-zero edges of runtime contracts, in any iteration order |
| CoverageMap.SharedCoverageMap.DepthCount | src/evm/coverage/shared.rs:227-239 | the number of depth bits of runtime contracts |
| CoverageMap.SharedCoverageMap.JumpCount | src/evm/coverage/shared.rs:259-266 | the number of jump entries of runtime contracts |
| CoverageMap.AloneIsOneThread | src/evm/coverage/shared.rs:105-174 | a merge running alone is the one-thread schedule of the concurrent model |
| CoverageMap.ThreadInterestingIffTaught | src/evm/coverage/shared.rs:105-174 | among any concurrent merges, one merge's update is interesting exactly when one of its own atomic steps taught the map a runtime edge, depth, revert or jump |
| ForkDatabase.SwitchPreservesIff | src/evm/database.rs:305-324 | a switch keeps every read of a local account exactly when the target caches no non-zero slot, and no info, that the active fork lacks |
| ForkDatabase.TameStep | src/evm/database.rs:305-409 | the slots inactive forks cache for a local account stay among those of the active fork |
| ForkDatabase.EverySwitchPreservesIff | src/evm/database.rs:250-287 | over any run at all, every switch keeps all reads of a local account exactly when none moves to a fork holding a stale slot or info of it |
| ForkDatabase.HarnessStateSurvives | src/evm/database.rs:246-287 | over any run at all, a local account reads as last written at every point, absent counted as empty, exactly when no switch moves to a fork holding something stale about it |
| ForkDatabase.TameMeetsStaleIff | src/evm/database.rs:352-473 | an account registered early and not destroyed or re-created under another fork's slots meets something stale exactly when a created fork seeds it as coinbase |
| ForkDatabase.QuietRunsSurvive | src/evm/database.rs:246-287 | so such an account, never seeded, reads as last written after every run |
| ForkDatabase.RegisteredEarly | src/evm/forkdb/local_registry.rs:44-56 | an account registered before any fork caches it meets the invariant |
| ForkDatabase.ReadsAreTransparent | src/evm/database.rs:493-521 | caching what an endpoint serves changes no read of any account |
| ForkDatabase.ForksAreIsolated | src/evm/database.rs:352-409 | a remote account of a fork reads back unchanged whatever was written on other forks |
| ForkDatabase.CoinbaseIsSeeded | src/evm/database.rs:463-473 | exactly the excluded case: an empty local account becomes the seeded coinbase |
| ForkDatabase.ClearedSlotReturns | src/evm/database.rs:352-409 | a slot destroyed on one fork reads its old value after returning to another |
| ForkReads.RemoteReadsAreServed | src/evm/forkdb/db.rs:118-177 | after any run from its creation, a fork reads an account that is not local, was not written while the fork was active and is not its coinbase exactly as its endpoint serves that account and those slots |
| ForkReads.ReadsAreCached | src/evm/forkdb/db.rs:118-177 | an answered request leaves that account, and that slot, cached as served; an unanswered one leaves nothing |
| ForkReads.LocalReadsAreEmpty | src/evm/forkdb/db.rs:119-160 | where nothing is cached, local addresses and everything in the sandbox read as empty |
| ForkReads.InfoReadsBack | src/evm/database.rs:184-193 | setting an account's info changes the reading of that info and of nothing else |
| ForkReads.SlotReadsBack | src/evm/database.rs:199-214 | setting a slot changes the reading of that slot and of nothing else; nothing at all when the account cannot be loaded |
| ForkReads.CommitReadsBack | src/evm/database.rs:534-548 | a commit writes the info and the slots it names, a creation clears the other slots, a destruction clears everything; no other account changes |
| ForkReads.SwitchOutcome | src/evm/database.rs:250-350 | a switch ends in the active fork, a known one with the environment it had, or a new one with the environment of the served block; without that block nothing changes, and other forks never do |
| ForkReads.SwitchCarries | src/evm/database.rs:352-409 | the info and every cached slot of a persistent account are carried into the fork switched to |
| ForkReads.SwitchLeavesOthers | src/evm/database.rs:352-473 | any other account is in a known fork as it was there; in a new fork there is only the seeded coinbase |
| ForkReads.FirstForkTakesAll | src/evm/database.rs:273-285 | the first fork takes over every account cached in the sandbox, with its slots |
| ForkReads.EnvironmentsStay | src/evm/database.rs:250-350 | through any run forks stay, each with the environment it was created with, whose block is the one in its key |
| MultiForkDatabase.ApplyPersistent | src/evm/database.rs:401-409 | the two loops overlay the carried accounts, whatever order the list is in, and delete no slot |
| MultiForkDatabase.CollectPersistent | src/evm/database.rs:352-367 | exactly the cached persistent accounts of the active fork with all their slots, each once |
| MultiForkDatabase.CollectCached | src/evm/database.rs:388-399 | every cached account of the sandbox with all its slots, each once |
| MultiForkDatabase.Database.constructor | src/evm/chain/empty.rs:55-93 | the deployer and the cheatcode contract are cached and registered local from the start, and the state satisfies the invariants of the fork results |
| MultiForkDatabase.Database.Fork | src/evm/database.rs:250-287 | the new state is the specified switch; on error nothing changes; the environment is the active fork's |
| MultiForkDatabase.Database.SelectOrCreate | src/evm/database.rs:305-324 | selects an existing fork or creates one, succeeding exactly when the switch moves |
| MultiForkDatabase.Database.CreateFork | src/evm/database.rs:326-350 | a new fork holds the seeded coinbase under the carried accounts; a wrong block number is an error |
| MultiForkDatabase.Database.ReadInfo | src/evm/forkdb/db.rs:118-143 | an uncached local address reads as empty without a request; any other uncached account of a fork is what the endpoint serves for it, cached from then on, or an error when it is down |
| MultiForkDatabase.Database.ReadSlot | src/evm/forkdb/db.rs:156-177 | returns the current value of the slot; an uncached slot of an account of a fork that is not local is what the endpoint serves for that account and slot, and fails exactly when it is down |
| MultiForkDatabase.Database.InsertInfo | src/evm/database.rs:184-193 | the account reads back as written on the active fork only |
| MultiForkDatabase.Database.InsertStorage | src/evm/database.rs:199-214 | the slot reads back as written; fails exactly when the account itself cannot be loaded |
| MultiForkDatabase.Database.MarkLocal | src/evm/forkdb/local_registry.rs:48-50 | adds just that address to the registry |
| RateLimiter.UnpackPack | src/evm/forkdb/limiter.rs:24-36 | packing two 32-bit words fits 64 bits and is undone by unpacking |
| RateLimiter.Limiter.constructor | src/evm/forkdb/limiter.rs:39-57 | zero means unlimited; the bucket starts full, capped at 32 bits |
| RateLimiter.Limiter.Acquire | src/evm/forkdb/limiter.rs:63-121 | grants at the first clock reading whose closure finds a token, and changes nothing at the others |
| RateLimiter.SleepIsLeast | src/evm/forkdb/limiter.rs:109-117 | the computed sleep is the least number of milliseconds after which the refill has grown |
| RateLimiter.SleepSuffices | src/evm/forkdb/limiter.rs:74-117 | after that sleep an unchanged bucket has a token, before any wrap or truncation |
| RateLimiter.GrantIsTake | src/evm/forkdb/limiter.rs:74-94 | the word-level closure, with wrapping clock and truncating casts, computes the bucket step on real time |
| RateLimiter.AddedIsEarned | src/evm/forkdb/limiter.rs:59-61 | no wrap or truncation ever adds more tokens than the real elapsed time earns |
| RateLimiter.GrantExactly | src/evm/forkdb/limiter.rs:74-94 | the closure in real time: what the wrapped elapsed time earns is added, up to the rate, and stamped; when that is nothing, the stamp and the other tokens stay |
| RateLimiter.RefusedIff | src/evm/forkdb/limiter.rs:74-94 | before any wrap a thread is refused exactly when the bucket is empty and the time since the stamp has earned no token |
| RateLimiter.EarnedTimeIsKept | src/evm/forkdb/limiter.rs:74-94 | lower bound: while no refill is cut off, granted plus remaining tokens make up all that was earned by the stamp, short of less than one token per refill |
| RateLimiter.RateIsBounded | src/evm/forkdb/limiter.rs:59-107 | 1000·n ≤ 1000·max + t·max for the n tokens granted by time t |
| RateLimiterRace.StepKeepsFaithful | src/evm/forkdb/limiter.rs:71-94 | a step that is no stale exchange keeps the word equal to the sequential replay of the grants, each read after every earlier exchange |
| RateLimiterRace.FailureMeansProgress | src/evm/forkdb/limiter.rs:71-94 | an exchange that is neither stale nor spurious fails exactly when another succeeded since its load, and then changes nothing but the thread |
| RateLimiterRace.RefusalLeaves | src/evm/forkdb/limiter.rs:71-121 | a refused thread leaves the word and all logs as they are |
| RateLimiterRace.RaceIsBounded | src/evm/forkdb/limiter.rs:63-121 | in real time, for every interleaving without a stale exchange: 1000·n ≤ 1000·max + t·max tokens handed out by any time t, and the window bound below |
| RateLimiterRace.WindowBound | src/evm/forkdb/limiter.rs:59-107 | tokens handed out in a window of length d satisfy 1000·n < 1000·max + d·max + 1000, or 1000·(n-1) when the first of them was decided on a reading taken before the window |
| RateLimiterRace.InstantBurst | src/evm/forkdb/limiter.rs:71-94 | at every rate, as soon as a token is earned, a thread that stalls between reading and exchange makes max + 1 tokens come out in one instant |
| RateLimiterRace.StrictWindowsIff | src/evm/forkdb/limiter.rs:59-107 | all windows of all runs ending by time t meet the bound without the extra token exactly when t·max < 1000, or there is no thread |
| RateLimiterRace.LoneThreadIsNeverStale | src/evm/forkdb/limiter.rs:71-94 | a single thread never makes a stale exchange, however long it runs |
| RateLimiterRace.StaleIffLapped | src/evm/forkdb/limiter.rs:71-94 | a successful exchange is stale exactly when the refill stamp moved on by 2^32 ms or more since the load |
| RateLimiterRace.RateHoldsBeforeWrap | src/evm/forkdb/limiter.rs:63-121 | the real-time bounds for every interleaving of any number of threads during the first 2^32 ms |
| RateLimiterRace.LapBreaksTheRate | src/evm/forkdb/limiter.rs:71-94 | at every rate and with any two or more threads some run ending at 2^32 ms hands out more than the bound |
| RateLimiterRace.RateHoldsIff | src/evm/forkdb/limiter.rs:63-121 | every run of the threads ending by time t respects the rate exactly when there is at most one thread or t < 2^32 ms |
| Shrinking.WithoutIsSubsequence | src/maxer/sequence.rs:82-86 | deleting a range keeps exactly the calls outside it, in order |
| Shrinking.PickDeletesChunk | src/tester/shrinker.rs:389-394 | a candidate is the current sequence without exactly the calls of its chunk, cut off at the end; only the max shrinker drops an empty one |
| Shrinking.ReplayDecides | src/tester/shrinker.rs:399-405 | the verdict alone decides whether a validated candidate goes on to its update, is given up, or ends the worker; an update replaces exactly a longer sequence |
| Shrinking.StopsIff | src/tester/shrinker.rs:381-387 | a worker stops exactly when the budget is used up, time is out, or the sequence is short enough |
| Shrinking.ShrinkIsSafe | src/tester/shrinker.rs:378-408 | in every interleaving the shared sequence is the seed or a non-empty, strictly shorter, validated and accepted subsequence of it |
| Shrinking.LengthNeverGrows | src/tester/shrinker.rs:291-299 | continuing a run never lengthens the shared sequence |
| Shrinking.ResultIsShortestAccepted | src/maxer/shrinker.rs:280-368 | when all workers are done no accepted candidate is shorter than the result |
| Shrinking.BudgetIsKept | src/tester/shrinker.rs:302-315 | at most `max_runs` candidates are validated, and the tester begins at most `max_runs` + threads iterations |
| Shrinking.WrapBreaksBudget | src/tester/shrinker.rs:302-305 | when budget plus threads exceed 2^64 some run validates more than the budget |
| Shrinking.BudgetHoldsIff | src/tester/shrinker.rs:302-315 | a budget and thread count are kept by every run of every shrinker exactly when the budget is zero or budget plus threads fit 2^64 |
| Shrinking.ProgressIff | src/maxer/shrinker.rs:335-340 | every step lowers a finite measure except exactly the skip of an empty candidate |
| Shrinking.EveryScheduleEnds | src/tester/shrinker.rs:378-408 | the tester's workers take at most 6·max_runs + 3·threads steps in any schedule |
| Shrinking.NeverStuck | src/tester/shrinker.rs:378-408 | a worker can take a step exactly until it is done |
| Shrinking.MaxShrinkerMaySpin | src/maxer/shrinker.rs:323-337 | the max shrinker can repeat any number of iterations without taking a ticket |
| Shrinking.EndsIffCannotSpin | src/maxer/shrinker.rs:317-340 | the schedules of a shrinker have a common bound exactly when it does not skip empty candidates, or has no worker, no budget, or a seed too short to shrink |
| Shrinkers.EmptyNeverReproduces | src/tester/shrinker.rs:327-374 | no finding reproduces on the empty sequence |
| Shrinkers.TesterShrinkKeepsFinding | src/tester/shrinker.rs:341-408 | a shrunk sequence still shows the finding: in its last result for stop findings, in any for broken invariants |
| Shrinkers.AcceptedByLastCallIff | src/tester/shrinker.rs:338-374 | acceptance implies that the last call shows the finding, for every replay, exactly when the id is a revert or panic finding's |
| Shrinkers.ReproducedRevertHasSameId | src/tester/shrinker.rs:346-357 | a sequence is accepted for a recorded revert exactly when its last result fails with the same id |
| Shrinkers.ReproducedPanicHasSameId | src/tester/shrinker.rs:359-364 | the same for a recorded panic |
| Shrinkers.BrokenInvariantVerdict | src/tester/shrinker.rs:365-373 | a candidate is accepted for a broken invariant exactly when its replay reports the id at any call, and ends the worker exactly on an execution error |
| Shrinkers.StopFindingVerdict | src/tester/shrinker.rs:346-363 | for a stop finding only the last result counts, and the empty sequence is turned away unexecuted |
| Shrinkers.BrokenInvariantShrunkToShortest | src/tester/shrinker.rs:341-408 | in every interleaving, once all workers are done no validated sequence whose replay reports the id at any call is shorter than the result |
| Shrinkers.RevertShrunkToShortest | src/tester/shrinker.rs:341-408 | the same for a recorded revert and sequences whose last result fails with the same id |
| Shrinkers.WhereShrinkersStop | src/maxer/shrinker.rs:323-337 | the tester shrinks down to the empty sequence and replays empty candidates; the max shrinker stops at one call and skips them |
| Shrinkers.MaxShrinkKeepsValue | src/maxer/shrinker.rs:317-368 | a shrunk sequence still measures at least the target value |
| Shrinkers.MaxVerdict | src/maxer/shrinker.rs:342-360 | a candidate is accepted exactly when it can be measured and reads the target or more, and ends the worker exactly on an error |
| Shrinkers.MaxShrunkToShortest | src/maxer/shrinker.rs:317-368 | in every interleaving, once all workers are done no validated sequence measuring the target or more is shorter than the result |
| Shrinkers.SharedShrink.Update | src/maxer/shrinker.rs:280-288 | replaces the shared sequence exactly when the candidate is strictly shorter |
| Shrinkers.SharedShrink.RecordAttempt | src/maxer/shrinker.rs:291-294 | takes the next ticket of a wrapping counter and says whether it is within the budget |
| Shrinkers.SharedShrink.ShrinkWorker | src/tester/shrinker.rs:378-408 | the loop is a run of the machine with one worker |
| Shrinkers.ShrunkIsSafe | src/tester/shrinker.rs:171-237 | for any number of workers: at most one call is returned as it is; otherwise the seed or a validated shorter subsequence, with nothing accepted shorter once all have stopped |
| MaxSearch.SearchKeepsMemo | src/maxer/fuzzer.rs:489-683 | in every interleaving each replayed corpus entry and the best hold the state and value of replaying their sequence, within the call limit |
| MaxSearch.BestIsMaximum | src/maxer/fuzzer.rs:392-402 | the best is the maximum of the seed and everything considered; the stop flag is set only at the target, and the two agree exactly when it is set or no worker is between tracker and flag |
| BestReach.FlagLagsTarget | src/maxer/fuzzer.rs:392-402 | a call reading at the target puts the tracker there while the stop flag is still unset, and the next step sets it |
| MaxRetention.NoMeasuredValueIsLost | src/maxer/fuzzer.rs:566-683 | in every interleaving a value above the initial one and above the whole corpus was measured by a worker exactly when it still holds it in an unfinished or failed run; an idle worker has lost none |
| MaxRetention.BestMissesPrefix | src/maxer/fuzzer.rs:630-646 | a run whose first call measures high and whose second measures low leaves the best below a measured value |
| BestReach.BestCoversMeasuredIff | src/maxer/fuzzer.rs:489-683 | in all interleavings the best is at least every value an idle worker has measured, exactly when no call sequence within the limit measures above the seed's value at an inner prefix and ends below that |
| MaxRetention.FailedRunLosesValue | src/maxer/fuzzer.rs:566-580 | a run that fails at its second call loses the first call's value, above the corpus and the best |
| MaxSearch.WinsReachTheCorpus | src/maxer/fuzzer.rs:634-680 | in every interleaving a new best ends up in the corpus: once no worker is signalling or keeping prefixes, the best is the seed or the corpus holds a value at least as high |
| MaxSearch.BaseIsMemo | src/maxer/fuzzer.rs:445-453 | whatever base is drawn, its chain is the replay of its sequence |
| MaxSearch.ExecutePending | src/maxer/fuzzer.rs:565-629 | one prefix per call, each the base plus that many calls, with its state, reading, new edges and activity; it is interesting exactly when its signal was novel or its value exceeds the worker's mark and every earlier value of the run; the mark ends as the maximum, and a run fails exactly at the first call that fails |
| MaxOffers.NovelPrefixesAreOffered | src/maxer/fuzzer.rs:566-683 | in every interleaving, once a worker is idle every prefix it measured with a novel signal has been offered to the corpus as measured; the corpus is the loaded one after exactly the offers made, each of a tried prefix |
| MaxOffers.KeepOffersIff | src/maxer/fuzzer.rs:648-683 | after a run a prefix is offered exactly when measured, and interesting or part of a win, with its own calls, value, new edges, activity and state |
| MaxOffers.ConsiderOffersLast | src/maxer/fuzzer.rs:630-646 | the last prefix of a run is offered to the tracker as it was measured, and wins by a higher value, or an equal one with fewer calls than a non-empty best |
| MaxOffers.FreshRunStarts | src/maxer/fuzzer.rs:516-519 | a fresh run executes its calls from the initial state |
| MaxOffers.BestRunStarts | src/maxer/fuzzer.rs:445-453 | a run on the best extends its snapshot by the call, or replaces one call at the limit; it starts at the initial state while the best has no calls or no snapshot |
| MaxOffers.CorpusRunStarts | src/maxer/corpus.rs:158-191 | a run on the corpus starts at the snapshot of the entry whose weight interval holds the draw |
| MaxOffers.WeightlessRunStarts | src/maxer/corpus.rs:158-171 | a corpus without any replayed entry starts the run at the initial state |
| MaxSearch.SplitIsFair | src/maxer/fuzzer.rs:714-721 | the budgets add up to the runs and differ by at most one, the larger first |
| BestTracker.Best.Consider | src/maxer/best.rs:66-78 | replaces all three fields together, exactly when better |
| BestTracker.BestIsTheWinner | src/maxer/best.rs:59-78 | after any offers the tracker holds the earliest of the shortest among the highest |
| BestTracker.WinnerIsUnique | src/maxer/best.rs:59-78 | that candidate is unique |
| Corpus.CorpusEntries.Add | src/maxer/corpus.rs:234-312 | the loops find the best value and the first weakest entry, and evict and insert as specified |
| Corpus.WeakestIsLeast | src/maxer/corpus.rs:266-278 | the victim is the first entry of least strength, then value, among those below the best value |
| Corpus.AddKeepsBestValue | src/maxer/corpus.rs:234-312 | an offer changes the highest value held only by raising it to its own |
| Corpus.CorpusKeepsTheHighest | src/maxer/corpus.rs:242-311 | from empty, at most 256 entries, one of which is at least as high as any value ever offered, and none of which is higher than all of them |
| Corpus.RoomTakesAll | src/maxer/corpus.rs:243-253 | while there is room every offer joins at the end |
| Corpus.FullCorpusEvictsWeakest | src/maxer/corpus.rs:260-311 | whenever an offer joins a full corpus it takes the place of the weakest entry below the best, or, improving and with none below the best, of the last; the others keep their order |
| Corpus.FullCorpusOnlyStrengthens | src/maxer/corpus.rs:280-302 | a non-improving offer joins exactly when its new edges plus activity exceed those of some entry below the best; total strength then grows and no best entry is lost |
| Corpus.ImprovingAlwaysJoins | src/maxer/corpus.rs:260-279 | an improving offer always joins a full corpus |
| Corpus.CorpusEntries.RandomBase | src/maxer/corpus.rs:158-191 | walks the weights to the entry the draw belongs to, never off the end |
| Corpus.DrawnIff | src/maxer/corpus.rs:172-186 | an entry is returned exactly for the draws in its own weight interval, which is empty without a snapshot |
| Corpus.WeightIs | src/maxer/corpus.rs:416-423 | the weight is one, plus the new edges, plus one more than the binary digits of the value, plus the activity, cut to 64 bits |
| Corpus.DrawsPerEntry | src/maxer/corpus.rs:158-191 | without overflow the number of draws that return an entry is exactly its weight, written out, and zero without a snapshot |
| Corpus.CorpusEntries.BestEntry | src/maxer/corpus.rs:197-207 | the last of the replayed entries with the highest value |
| DeltaRecords.BetweenIsDifference | src/maxer/delta.rs:33-54 | a delta is the exact signed difference, in one normal form |
| DeltaRecords.CmpIsIntegerOrder | src/maxer/delta.rs:103-112 | the order and equality of deltas are those of the integers |
| DeltaRecords.ActivityFollowsSize | src/maxer/delta.rs:86-94 | the weight grows with the size of the move and is zero only for a flat call |
| DeltaRecords.ActivityIs | src/maxer/delta.rs:86-94 | eight times one more than the binary digits of the size of the move; nothing for a flat call |
| DeltaRecords.Records.Observe | src/maxer/records.rs:92-144 | updates the class's extremes and returns the flags as specified |
| DeltaRecords.RecordsAreExtremes | src/maxer/records.rs:92-144 | after any run a class's min and max are the least and greatest of its non-zero deltas, and absent without any |
| DeltaRecords.FlagsMeanNewExtreme | src/maxer/records.rs:100-143 | a flag is raised exactly when the delta has the sign and beats every earlier non-zero delta of its class |
| Findings.SharedBrokenInvariants.TryAdd | src/tester/broken_invariant.rs:133-157 | shortens a known id in place, rejects a new one when full, otherwise appends it; true exactly for a new id with room |
| Findings.CollectionIsDetermined | src/tester/broken_invariant.rs:133-157 | the collection is the first `max` distinct ids in first-offer order, each with the earliest of its shortest sequences, and the key set is theirs |
| Findings.SharedBrokenInvariants.IsFull | src/tester/broken_invariant.rs:160-162 | full exactly when offering any id that is not held leaves the collection as it is |
| StopFilters.RevertIdIdentifies | src/tester/stop.rs:76-126 | for failing results, matching a recorded id means having the same id |
| StopFilters.SelectorFilterMeansId | src/tester/stop.rs:51-90 | a selector filter halts on exactly the failures whose id is its printed form |
| StopFilters.RevertFilterRoundTrip | src/tester/stop.rs:129-160 | parsing a printed revert filter gives it back |
| StopFilters.RevertIdText | src/tester/stop.rs:76-89 | the text of a revert id: halt, empty, or the hex of the first four bytes or of a shorter output |
| StopFilters.RevertFilterIs | src/tester/stop.rs:141-160 | exactly `any`, `*` and `0x` with eight hex digits are revert filters, and which each is |
| StopFilters.AnyFiltersMatch | src/tester/stop.rs:51-59 | `any` halts on exactly the failures that report no broken invariant, and for panics on exactly the decodable ones |
| StopFilters.NoMatch | src/tester/stop.rs:97-104 | a successful result, or an id without the prefix, reproduces nothing |
| StopFilters.PanicIdIdentifiesIff | src/tester/stop.rs:201-250 | matching means the same id exactly when the recorded result was a decodable panic |
| StopFilters.CodeFilterMeansId | src/tester/stop.rs:174-211 | a code filter halts on exactly the failures whose id is its printed form |
| StopFilters.PanicFilterRoundTrip | src/tester/stop.rs:253-280 | parsing a printed panic filter gives it back, for every 256-bit code |
| StopFilters.PanicFilterRadixes | src/tester/stop.rs:265-280 | a code in decimal, in hexadecimal after either prefix, in octal or in binary is read as that code |
| References.ResolveRecursive | src/inspectors/function_source.rs:400-435 | terminates on every graph with the root first and each reachable declaration exactly once, contracts not expanded |
| References.ResolvedIffReferred | src/inspectors/function_source.rs:400-435 | what is listed: exactly the declarations some chain of references from the root leads to, no contract on the chain being expanded |
| References.Ancestors | src/inspectors/function_source.rs:866-882 | exactly the transitive bases, each once, the contract first, each after a contract that names it |
| References.BuildOverrides | src/inspectors/function_source.rs:457-492 | the table of the inheritance chain: first body per signature, and the overridable functions |
| References.MostDerivedIsFirst | src/inspectors/function_source.rs:483-489 | the most-derived entry is the first body along the chain |
| References.DispatchableIff | src/inspectors/function_source.rs:468-482 | a contract and signature are dispatchable exactly when an overridable member of it has that signature |
| References.RedirectReachesMostDerived | src/inspectors/function_source.rs:495-519 | a redirect reaches the first body with the same signature, and redirecting again changes nothing |
| References.RedirectIff | src/inspectors/function_source.rs:495-519 | an overridable member of the chain is redirected to the first body, unless it is that body or there is none |
| References.RedirectedIff | src/inspectors/function_source.rs:495-519 | for any reference: redirected exactly when it is a function of a chain contract that declares an overridable function of that signature, and the first body along the chain is another declaration |
| BytecodeIndex.ZeroOutPositions | src/evm/coverage/reporter.rs:103-111 | exactly the covered bytes become zero, whatever ranges overlap or overrun |
| BytecodeIndex.RestorePositions | src/evm/coverage/reporter.rs:315-321 | the scratch buffer is the raw bytecode again |
| BytecodeIndex.CollectLinkPositions | src/evm/coverage/reporter.rs:91-101 | the positions of all libraries of all files, in the order the maps yield them |
| BytecodeIndex.LinkPositionsHold | src/evm/coverage/reporter.rs:91-101 | a position is collected exactly when some library of some file lists it |
| BytecodeIndex.CollectEntries | src/evm/coverage/reporter.rs:216-295 | from the compiler's objects: one entry per non-empty deployed code and initcode, in order, with link, immutable and library bytes masked; a missing object gives none |
| BytecodeIndex.NewIndex | src/evm/coverage/reporter.rs:286-304 | an index of exactly those entries, grouped by length, unless parsing panics |
| BytecodeIndex.GroupByLength | src/evm/coverage/reporter.rs:296-303 | per length the indices of exactly the entries of that length, ascending |
| BytecodeIndex.Index.Find | src/evm/coverage/reporter.rs:306-324 | returns what a search masking a fresh copy per entry would |
| BytecodeIndex.FindMeansAgreement | src/evm/coverage/reporter.rs:306-324 | under an injective hash, the first contract that agrees with the bytecode at every unmasked byte, or none |
| BytecodeIndex.FindMeansFirstMatch | src/evm/coverage/reporter.rs:216-324 | from the compiler's objects, under an injective hash: the first contract whose deployed code has the bytecode's length and bytes outside its link ranges, its immutables and, for a library starting with 0x73, bytes 1 to 20, or whose initcode has them outside its link ranges; or none |
| BytecodeIndex.PrefixIsOptional | src/evm/coverage/reporter.rs:113-133 | a leading `0x` makes no difference, and an object without text has no code |
| BytecodeIndex.ParseBytecode | src/evm/coverage/reporter.rs:113-133 | placeholders become zeros before decoding; overlapping or overrunning ones panic, bad digits give no code |
| BytecodeIndex.ParsedIsLinkedMasked | src/evm/coverage/reporter.rs:113-133 | whatever addresses are linked in later, the parsed code is the linked code masked |
| BytecodeIndex.ParsedCodeIsLinked | src/evm/coverage/reporter.rs:113-133 | from an object and its link references: the parsed code is the linked code with exactly the listed bytes zero |
| PcMap.InstructionsPartition | src/evm/coverage/reporter.rs:154-166 | every byte belongs to exactly one instruction, as its opcode or its push data |
| PcMap.StartsFollowOpcodes | src/evm/coverage/reporter.rs:154-166 | each instruction starts after the previous opcode and, for 0x60 to 0x7f, its 1 to 32 bytes of data, until the end of the code |
| PcMap.BuildPcToSourceMap | src/evm/coverage/reporter.rs:147-168 | the k-th entry at the start of the k-th instruction and nothing on push data (section 9.4.3 of the Ethereum Yellow Paper) |
| SourceMap.ParseSourceMap | src/evm/coverage/source_map.rs:22-54 | the loop yields the running entry after each segment |
| SourceMap.SplitJoin | src/evm/coverage/source_map.rs:29-34 | splitting at a separator undoes joining |
| SourceMap.ElisionIsTransparent | src/evm/coverage/source_map.rs:22-54 | entries read back however repeated fields are elided, except exactly a single entry elided to nothing |
| SourceMap.ElisionDoesNotMatter | src/evm/coverage/source_map.rs:22-54 | two renderings of the same entries parse to the same |
| SourceMap.MalformedReadsZero | src/evm/coverage/source_map.rs:34-49 | a written field that is no number reads as zero, the jump type is the first character of its field, and fields past the fifth do not count |
| SourceMap.NumberIsRead | src/evm/coverage/source_map.rs:35-48 | a number is read with or without a plus sign when it is in range; an empty one, or one out of range, is refused |
| SourceMap.NothingWrittenReadsDefault | src/evm/coverage/source_map.rs:27-33 | empty segments at the start repeat the default entry |
| Hex.DecodeEncode | src/tester/stop.rs:76-118 | decoding undoes encoding of any bytes |
| Hex.EncodeDigits | src/tester/stop.rs:80-118 | each byte is its two digits, the high one first, in lower case |
| Hex.ParsePrintU256 | src/tester/stop.rs:240-277 | in every radix parsing undoes printing for 256-bit numbers, and refuses larger ones |
| Hex.ParseLowerHex2 | src/tester/stop.rs:201-237 | parsing undoes printing with at least two hex digits and no other leading zero, for every 256-bit number |

## Left out

- RateLimiterRace.RaceIsBounded: a stale exchange need not break the bound in a given run; the exact condition over all runs is `RateHoldsIff`.
- RateLimiterRace.WindowBound: for a single late window, whether it exceeds the strict bound depends on the run; the exact condition over all runs is `StrictWindowsIff`.
- Shrinking.EveryScheduleEnds: the step count is for the tester; for the max shrinker `EndsIffCannotSpin` says when there is a bound at all.
- MaxSearch.SearchKeepsMemo: assumes that the value call leaves the chain as it is and that a batch of calls is the fold of its calls; `Chain::exec` does not write cheatcode state back, so the latter is an assumption on the chain.
- MergeResults.InspectorFeedsMerge: assumes that code length and content are functions of the code hash.
- EVM execution, journals, ABI decoding and keccak: abstract deterministic functions; hash injectivity only where stated.
- The marker formulas of `src/evm/coverage/edge.rs`: arbitrary functions of their arguments, so nothing is claimed about collisions.
- Memory orderings weaker than interleaving: each operation on one cell is atomic and the model interleaves them.
- The RPC backend, its retries and the `backends` cache: a pinned block serves fixed answers, and a flag says whether the endpoint answers.
- The overlay's block hashes, code store and bytecode; an account's info is its balance, nonce and code identity.
- Accounts a commit does not touch, and the commit of remote journal entries before a switch (`src/evm/cheatcode/calls/fork.rs`).
- Random number generation: draws are arbitrary values in the ranges the code asks for.
- Coverage and record signals in the max search: arbitrary per call, so admission to the corpus is any choice the code could make.
- Loading, saving and replaying the persisted corpus, and `decode_call`.
- Thread joining, progress logs, poisoning and error reporting.
- Building the symbol index and `collect_references`: the reference relation is a given graph; `symbol` and the type formatters render text only.
- `compiled_contracts`, `is_library` and the line and function reports of the coverage reporter; whether a contract is a library is an input.
- `hit_count`, `contract_count`, `revert_count`, `raw_edge_counts` and `clear`: folds and resets without a further property.
- The remaining functions of `src/maxer/sequence.rs`: `prefix` is a plain slice, `random` is any non-empty sequence within the limit.
- `normalize_path`: a second leading `..` pops the first, so it does not preserve path meaning.
