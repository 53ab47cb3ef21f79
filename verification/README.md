# TidePool: a verified model

TidePool keeps KV-cache blocks in DRAM over SSD on each storage node, serves them over a small binary
protocol, and finds the node of a key by consistent hashing. This project models that core in Dafny
and proves what it promises.

- **The storage node** (`storage_node.dfy`, over `dram_tier.dfy`, `ssd_tier.dfy`, `local_index.dfy` and
  `eviction_policy.dfy`) is a class with the code's own methods. Every call that can fail for reasons
  the code cannot foresee (allocation, LevelDB) asks an `Environment` whether it does, so each contract
  holds whatever fails, and says what must succeed when nothing does. A branch whose guard is proved
  false is written as an assertion of the negated guard. A `std::terminate` is a precondition of the
  method that would reach it, so no caller can.
- **The node as values** (`node_model.dfy`) gives the nine steps a node can commit, the agreement of
  index, DRAM, SSD and policy, and the plain map the node stands for. Each public method is proved to
  take a run of these steps, and every database that the SSD tier writes on the way to be the one after
  a prefix of that run. `node_history.dfy` and `node_runs.dfy` prove what follows for whole runs.
- **Room in DRAM** (`node_room.dfy`): which blocks must go for a new one, and the status that making room
  comes to if nothing fails.
- **Where blocks go** (`node_puts.dfy`): where a put or a promotion leaves its block, what it may move out
  for that and why it is refused, in bytes and fields.
- **Eviction** (`lru_eviction.dfy`, `arc_eviction.dfy`, `arc_replace.dfy`, `arc_bounds.dfy`, `arc_rollback.dfy`,
  `arc_growth.dfy`, `policy_runs.dfy`): both policies as classes over specification states, two-phase victim
  selection, which block ARC takes and how its target moves, ARC's bounds and the size of its bookkeeping
  with the exact conditions, and what a rolled-back admission costs.
- **Codecs** (`block_key.dfy`, `block_codec.dfy`, `wire_codec.dfy`, `wire_messages.dfy`) are bijections
  between values and accepted bytes; `wire_layout.dfy` gives the formats byte by byte.
- **Transport** (`tcp_connection.dfy`, `wire_framing.dfy`, `tcp_connector.dfy`): every `recv` and `send` has
  an arbitrary outcome, and the client still never hands an answer to the wrong call.
- **Client and server** (`rpc_server.dfy`, `rpc_runs.dfy`): a server whose store puts change, as the wire
  protocol specifies it, and any sequence of calls of the client against it.
- **Placement** (`hash_ring.dfy`): the ring and minimal movement.

Findings about the code that the proofs make precise:

- ARC's bounds (at most `c` residents, |T1|+|B1| at most `c`, at most `2c` keys in all) hold together in a
  node exactly when DRAM cannot hold more than `c` blocks of the least size (`NodeHistory.ArcBoundedInNode`,
  `NodeHistory.ArcOverflowsInNode`). In particular they fail when the DRAM capacity is zero, which means
  unlimited, and for blocks without bytes. For the policy alone they hold throughout a run exactly when
  every key that enters finds room (`ArcBounds.BoundedIffRoom`).
- The `2c` keys alone are kept throughout a run exactly when every new key that comes at that limit finds a
  ghost to replace (`ArcGrowth.TotalIffPaid`); three insertions into a policy for one block exceed it
  (`ArcGrowth.TotalFails`). The trimming rule compares |T1|+|B1| with `c` for equality, so above `c` nothing is
  ever trimmed: from then on every put of a new key is one key more and no demotion takes one away
  (`ArcGrowth.EveryPutIsKept`). Where DRAM can hold more than `c` blocks of the least size, a node with SSD
  therefore has, for every number of keys up to 2^64, a run after which the policy knows that many
  (`ArcGrowth.ArcGrowsInNode`). Without SSD it knows the DRAM keys only (`ArcGrowth.NoSinkNoGhosts`).
- A rolled-back put leaves a used-up DRAM handle (`StorageNode.HotOutcome`). The LRU order is restored
  exactly (`NodeHistory.AdmitForgetRestores`). ARC is restored if and only if the key was unknown, nothing
  had to be trimmed and the last hit was not in B2 (`ArcRollback.RollbackRestoresIff`); a policy for one
  block forgets its ghost (`ArcRollback.RollbackLosesGhost`). In a node a rollback costs at most one ghost
  and the tie-break flag, and never moves `p` or a resident (`ArcRollback.RollbackInNode`).
- A put that needs room may be refused with InvalidArgument because of other blocks: room is made exactly if
  every victim that must go has metadata that fit its key (`StorageNode.StorageNode.MakeDramRoomForLocked`),
  which under LRU are the oldest blocks (`NodeRuns.LruPutIff`). One put of a block that does not fit its key
  gets there (`NodeRuns.BlockedIsReachable`, `NodeRuns.BlockedExample`). Under LRU such a block, once next in
  line, blocks the node: until it is used or overwritten nothing leaves DRAM, and every put that needs
  room fails and changes nothing (`NodeHistory.BlockedForever`, `NodeRuns.BlockedPutsAreStuck`).
- A database written by the tier reopens unless its bytes reach 2^64 (`NodeRuns.WrittenReopens`), and the
  tier can write one that does (`NodeRuns.HugeDatabase`).
- A put whose connection breaks after its frame went out whole fails for the client and may take effect or
  not; both happen (`RpcRuns.FailedPutTakesEffectOrNot`), and no more than that can happen
  (`RpcRuns.Deployment.Run`).

## Model

| member | source | states |
|---|---|---|
| NodeRuns.Serve | src/store/storage_node.cpp:35-438 | over any sequence of Put, Get, Open and Close on any node, a new one over any database included, every answer is one the plain map allows and the node ends as that map: a read returns the last acknowledged write, and no more bytes than its buffer holds; a failed write changes nothing; a call that met no failure reads with the exact status (NodeRuns.ReadsAreExact), puts with exactly the status that room and sizes determine (NodePuts.OutOfCapacityIff), and opens exactly an acceptable database, with Corruption otherwise (Internal for a node without tiers); the databases written meanwhile are those after the writing steps of the committed run, in order |
| NodeRuns.ServeOne | src/store/storage_node.cpp:35-438 | one call of any kind on any node changes the plain map only if it is an acknowledged put |
| NodeRuns.ReadsAreExact | src/store/storage_node.cpp:409-438 | in every such run each read that succeeds returns the bytes and metadata of the last acknowledged write, no more than the buffer holds; each read on the open node that meets no failure is NotFound exactly for an absent key, else InvalidArgument exactly for a null buffer with a capacity, else OutOfCapacity exactly if the block is larger than the buffer, else OK |
| NodeRuns.QuietPutsSucceed | src/store/storage_node.cpp:199-407 | in every run of a node with SSD, a policy over its DRAM and a capacity below 2^63, given blocks that fit their keys, each put on the open node that meets no failure is acknowledged, whatever failed in other calls |
| NodeRuns.ConsistentRun | src/store/storage_node.cpp:161-407 | over every run whose puts fit their keys, every DRAM block stays acceptable to SSD |
| NodeRuns.BaseInv | src/store/storage_node.cpp:35-107 | a node that was never open starts its runs from what its database encodes, in agreement |
| NodeRuns.BlockedPutsAreStuck | src/store/storage_node.cpp:184-234 | after any run that leaves a blocking victim alone, every put that needs room comes to InvalidArgument |
| NodeRuns.StuckPutCommitsNothing | src/store/storage_node.cpp:199-241 | a put whose first victim SSD refuses commits nothing, whatever else fails |
| NodeRuns.BlockedIsReachable | src/store/storage_node.cpp:340-407 | one put of a block that does not fit its key, into a new LRU node, makes every later put that needs room fail |
| NodeRuns.BlockedExample | src/store/storage_node.cpp:340-407 | a concrete node where a block of one byte for key (1, 128, 5) that says model 6, or 7 tokens, makes the next put fail, and one that says 128 tokens, or 0, does not |
| NodeRuns.OneBlockBlocksIff | src/store/storage_node.cpp:199-241 | after one put into an empty LRU node, a second put that needs its room fails with InvalidArgument if the first block has another model than its key, or a token count that is neither 0 nor the length of the key, and succeeds otherwise |
| NodeRuns.ColdPutIff | src/store/storage_node.cpp:243-303 | a put that bypasses DRAM comes to InvalidArgument under the same condition on the fields, and otherwise to OK |
| NodeRuns.LruPutIff | src/store/storage_node.cpp:199-241 | under LRU a put that meets no failure succeeds if and only if 64 bits count the bytes and, for some n, the n oldest blocks all fit their keys and free enough room |
| NodeRuns.PutRefines | src/store/storage_node.cpp:340-407 | a put writes exactly its key if acknowledged and changes no value otherwise, demotions included |
| NodeRuns.GetRefines | src/store/storage_node.cpp:409-438 | a read changes no value, whatever it promoted or demoted |
| NodeRuns.Reboot | src/store/storage_node.cpp:35-107 | a new process over the database that a crash left, once open, is exactly the restart step of the model from a state with that database: empty DRAM, new policy, index of what SSD holds; without injected failures it opens exactly if the database is acceptable |
| NodeRuns.CrashAnywhere | src/store/storage_node.cpp:64-106 | the j-th database that a call or a sequence of calls writes is the one after the j-th writing step of its committed run, and a restart from it answers exactly what was durable after that prefix |
| NodeRuns.LaterIsLonger | src/store/storage_node.cpp:64-106 | a later database is the one after a longer prefix |
| NodeRuns.WrittenReopens | src/store/tier/ssd/ssd_tier.cpp:88-153 | a database that holds what the tier wrote is accepted if and only if 64 bits can count its bytes |
| NodeRuns.HugeDatabase | src/store/tier/ssd/ssd_tier.cpp:106-139 | a database that the tier could have written and that it refuses |
| NodeModel.RunRefines | src/store/storage_node.cpp:161-438 | over every run of committed steps the node is the plain map, live and durable part |
| NodeModel.RunKeepsInv | src/store/storage_node.cpp:161-438 | over every run index, stores, policy, handles and byte budget agree; used bytes never exceed a non-zero capacity |
| NodeModel.ApplyKeepsInv | src/store/storage_node.cpp:161-407 | every committed step keeps the agreement |
| NodeModel.ApplyRefines | src/store/storage_node.cpp:161-438 | each step has exactly its effect on the plain map: only puts change values, demotion makes a value durable, a restart falls back to the durable part |
| NodeModel.Agreement | src/store/storage_node.cpp:161-407 | key by key: the index says DRAM iff the DRAM store has it iff the policy counts it, SSD entries are stored on SSD, index keys are the union, handles match |
| NodeModel.ReachesIsRun | src/store/storage_node.cpp:161-438 | the runs of the methods' contracts are the runs of the step function |
| NodePuts.PutLands | src/store/storage_node.cpp:340-407 | an acknowledged put leaves its block in DRAM, and the index says so, if there is DRAM and the block is no larger than its capacity; otherwise on SSD and nowhere in DRAM |
| NodePuts.PromotionLands | src/store/storage_node.cpp:305-338 | a read that promotes leaves the same block in DRAM and on SSD, and the index names DRAM |
| NodePuts.PutSparesItsKey | src/store/storage_node.cpp:199-241 | over every run a put commits, it never demotes the block of its own key |
| NodePuts.FittingPut | src/store/storage_node.cpp:199-241 | a put after which the bytes in DRAM are within the capacity comes to OK without policy or SSD, demotes nothing and commits its own write alone |
| NodePuts.OverwriteInPlace | src/store/storage_node.cpp:340-407 | so overwriting a DRAM block by one no larger always comes to OK and moves nothing out |
| NodePuts.OutOfCapacityIff | src/store/storage_node.cpp:199-303 | in bytes: a put that meets no failure is OutOfCapacity if and only if no tier can hold it, or DRAM is short of room and has no policy, no SSD behind it or more bytes than 64 bits count |
| NodePuts.BudgetKept | src/store/storage_node.cpp:199-241 | over every run the bytes in DRAM keep to a capacity that is not zero, and every SSD block has the model of its key and its token count, or 0 |
| NodePuts.UsedIsFirst | src/store/eviction/lru_eviction.cpp:12-47 | under LRU the block that a put, a read or a promotion uses is the most recent afterwards |
| NodeHistory.RestartAnswersDurable | src/store/storage_node.cpp:64-106 | after a crash at the end of any run the agreement holds and the node answers exactly the durable map |
| NodeHistory.CrashLosesOnlyDirty | src/store/storage_node.cpp:64-106 | a crash changes the value of a key only if its last put went to DRAM and no demotion followed |
| NodeHistory.CrashRestoresLastCommit | src/store/storage_node.cpp:64-106 | after a crash a key has the value it had when it was last written to SSD |
| NodeHistory.CrashRestoresOldest | src/store/storage_node.cpp:64-106 | a key never written to SSD in the run has after a crash what SSD held before it |
| NodeHistory.HandlesStayUnique | src/store/tier/dram/dram_tier.cpp:25-60 | no two DRAM blocks ever share a handle, over every run |
| NodeHistory.LruFollowsHistory | src/store/eviction/lru_eviction.cpp:12-98 | over every run, failures included, the LRU list is the DRAM blocks in order of last use |
| NodeHistory.DemotedIsOldest | src/store/eviction/lru_eviction.cpp:61-71 | the demoted block is the resident whose last use is oldest, the block being overwritten aside |
| NodeHistory.BlockedForever | src/store/storage_node.cpp:161-197 | over every run that neither uses nor overwrites it, an oldest block that SSD refuses stays next in line and nothing at all is demoted |
| NodeHistory.AdmitForgetRestores | src/store/eviction/lru_eviction.cpp:20-59 | a rolled-back admission of a new key restores the LRU policy exactly |
| NodeHistory.ArcBoundedInNode | src/store/storage_node.cpp:199-241 | if blocks have at least `least` bytes and a non-zero capacity holds at most `c` of them, ARC stays within its three bounds over every node run |
| NodeHistory.ArcOverflowsInNode | src/store/storage_node.cpp:199-241 | otherwise, blocks without bytes included, some run of a new node with such blocks has more than `c` residents |
| NodeHistory.EntersWithRoom | src/store/storage_node.cpp:199-241 | a block that passed the room check finds fewer than `c` residents |
| ArcBounds.EveryRunBounded | src/store/eviction/arc_eviction.cpp:71-187 | over every run of policy calls in which entering keys find room: lists duplicate-free, disjoint, mirrored by the position map, |T1|+|T2| and |T1|+|B1| at most c, total at most 2c, 0 <= p <= c |
| ArcBounds.BoundedIffRoom | src/store/eviction/arc_eviction.cpp:83-251 | every state of a run is within all three bounds if and only if every key that enters, by insertion or by access to a ghost, finds room |
| ArcBounds.EnteringOverflows | src/store/eviction/arc_eviction.cpp:83-175 | a key that enters without room makes the residents more than `c` at once |
| ArcBounds.StepBounded | src/store/eviction/arc_eviction.cpp:83-251 | every call keeps the bounds if an entering key finds room |
| ArcBounds.StepValid | src/store/eviction/arc_eviction.cpp:83-251 | every call keeps the lists disjoint and mirrored by the position map |
| ArcBounds.AdmitBoundedIff | src/store/eviction/arc_eviction.cpp:118-175 | an insertion keeps the bounds if and only if its key is resident or finds room |
| ArcBounds.OverflowIsNeverTrimmed | src/store/eviction/arc_eviction.cpp:118-137 | once |T1|+|B1| exceeds c, a new key is never paid for by a ghost |
| ArcBounds.BoundFailsWithoutRoom | src/store/eviction/arc_eviction.cpp:118-175 | two insertions into a policy for one block make two residents |
| ArcReplace.ReplaceRule | src/store/eviction/arc_eviction.cpp:189-223 | with both lists in use and nothing excluded, the victim is the oldest of T1 if |T1| is over p, or just p after a hit in B2, and otherwise the oldest of T2 |
| ArcReplace.ReplaceRuleExcluding | src/store/eviction/arc_eviction.cpp:189-223 | with a key excluded, or one list empty, the victim is the oldest other key of the list that the rule prefers, or of the other list if that has none |
| ArcReplace.ArcDemotes | src/store/storage_node.cpp:161-197 | every demotion of a node under ARC takes the block this rule names |
| ArcReplace.T1GoesFirst | src/store/eviction/arc_eviction.cpp:189-243 | while T2 is in use and |T1| is over p, any number of selections and commits takes the keys of T1, oldest first, into B1 in that order, and touches no key of T2 |
| ArcReplace.T1GoesDownToTarget | src/store/eviction/arc_eviction.cpp:189-243 | this goes on until |T1| is at most p, and no further; then the oldest of T2 is next |
| ArcReplace.T2GoesNext | src/store/eviction/arc_eviction.cpp:189-243 | while T1 is at p or below, the keys of T2 go into B2, oldest first, until none is left, and no key of T1 is touched |
| ArcReplace.UseMoves | src/store/eviction/arc_eviction.cpp:83-116 | a used key becomes the first of T2 and every list keeps its order otherwise |
| ArcReplace.HitInB1Raises | src/store/eviction/arc_eviction.cpp:71-75 | a hit in B1 raises p by one, or by |B2|/|B1| if that is more, up to c, and forgets a hit in B2 |
| ArcReplace.HitInB2Lowers | src/store/eviction/arc_eviction.cpp:77-81 | a hit in B2 lowers p by one, or by |B1|/|B2| if that is more, down to 0, and is remembered |
| ArcReplace.HitOnResident | src/store/eviction/arc_eviction.cpp:83-116 | a hit on a resident changes neither p nor what is remembered |
| ArcReplace.NewKeyCosts | src/store/eviction/arc_eviction.cpp:118-175 | an unknown key becomes the first of T1; it costs the oldest of B1 exactly if |T1|+|B1| is c, the oldest of B2 exactly if that is below c and at least 2c keys are known, and nothing else |
| ArcReplace.FlagStep | src/store/eviction/arc_eviction.cpp:83-251 | which calls set the tie-break, which clear it, and that no other changes it |
| ArcReplace.FlagFollowsHistory | src/store/eviction/arc_eviction.cpp:83-251 | over every run of a new policy the tie-break is set if and only if some hit in B2 was followed by no hit in B1, no unknown key and no commit |
| ArcGrowth.TotalIffPaid | src/store/eviction/arc_eviction.cpp:83-251 | over every run the policy knows at most `2c` keys throughout if and only if each new key that comes at that limit finds a ghost to replace |
| ArcGrowth.TotalStep | src/store/eviction/arc_eviction.cpp:83-251 | at the limit only a new key can exceed it, and does so unless it is paid for |
| ArcGrowth.TotalFails | src/store/eviction/arc_eviction.cpp:118-175 | three insertions into a policy for one block make three keys |
| ArcGrowth.EveryPutIsKept | src/store/eviction/arc_eviction.cpp:118-175 | once |T1|+|B1| is over `c`, over every node run of puts of new keys with their demotions, each put is one key more for good |
| ArcGrowth.ArcGrowsInNode | src/store/storage_node.cpp:199-241 | unless DRAM is limited to `c` blocks of the least size, a node with SSD has for every number of keys from `c`+1 to 2^64 a run after which ARC knows that many |
| ArcGrowth.NoSinkNoGhosts | src/store/storage_node.cpp:222-226 | without SSD ARC knows exactly the DRAM keys, over every run |
| ArcGrowth.NoSinkWithin | src/store/storage_node.cpp:199-241 | so it keeps to n keys if DRAM holds no more than n blocks of the least size |
| ArcGrowth.NoSinkExceeds | src/store/storage_node.cpp:199-241 | and otherwise some run of a new node has more |
| ArcRollback.RollbackRestoresIff | src/store/eviction/arc_eviction.cpp:139-187 | inserting a key that is not resident and removing it restores the policy if and only if the key was unknown, no ghost had to be trimmed and the last hit was not in B2 |
| ArcRollback.RollbackIs | src/store/eviction/arc_eviction.cpp:139-187 | for an unknown key it costs exactly the trimmed ghost and the tie-break flag |
| ArcRollback.RollbackLosesGhost | src/store/eviction/arc_eviction.cpp:118-187 | a policy for one block that holds one ghost loses it |
| ArcRollback.GhostsStayOnSsd | src/store/eviction/arc_eviction.cpp:236-243 | over every node run each ghost is a block that SSD holds |
| ArcRollback.RollbackInNode | src/store/storage_node.cpp:395-402 | in every node run a put rolled back after its admission leaves T1, T2 and p as they were and costs at most one ghost |
| ArcPolicy.DemoteKeeps | src/store/eviction/arc_eviction.cpp:236-243 | committing a victim moves exactly that key from T1 to B1 or from T2 to B2 and nothing else |
| ArcPolicy.ChooseVictimIsResident | src/store/eviction/arc_eviction.cpp:189-223 | selection fails only if every resident is the excluded key, and never picks that key |
| ArcPolicy.UseKeeps | src/store/eviction/arc_eviction.cpp:83-116 | a use keeps lists and position map in agreement and p in range; a known key ends in T2 |
| ArcPolicy.AdmitKeeps | src/store/eviction/arc_eviction.cpp:139-175 | an insertion makes its key resident and keeps lists and position map in agreement |
| ArcPolicy.ForgetKeeps | src/store/eviction/arc_eviction.cpp:181-187 | a removal drops its key from every list and nothing else |
| ArcPolicy.ArcEviction.constructor | src/store/eviction/arc_eviction.cpp:15 | a new policy is empty, for at least one block, with p at 0 |
| ArcPolicy.ArcEviction.Relink | src/store/eviction/arc_eviction.cpp:28-41 | the splice is the move of the specification state |
| ArcPolicy.ArcEviction.OnAccess | src/store/eviction/arc_eviction.cpp:83-116 | the class makes the specified transition and stays valid; the reserved key is not touched |
| ArcPolicy.ArcEviction.GhostToTrimForInsert | src/store/eviction/arc_eviction.cpp:118-137 | the trimming rule as specified |
| ArcPolicy.ArcEviction.OnInsert | src/store/eviction/arc_eviction.cpp:139-175 | specified transition, or no change at all on failure or for the reserved key |
| ArcPolicy.ArcEviction.OnRemove | src/store/eviction/arc_eviction.cpp:181-187 | specified transition; a reservation of the key is void |
| ArcPolicy.ArcEviction.SelectVictim | src/store/eviction/arc_eviction.cpp:189-223 | reserves the specified victim (ArcReplace.ReplaceRule; stated here on the fields for two lists in use and nothing excluded), refuses a second reservation, changes no list |
| ArcPolicy.ArcEviction.LooksInT1 | src/store/eviction/arc_eviction.cpp:197-206 | T1 is looked at first exactly if it is over p, or at p after a hit in B2, given two lists in use |
| ArcPolicy.ArcEviction.Reserve | src/store/eviction/arc_eviction.cpp:207-223 | the oldest other key of the first list, or else of the second, is reserved; NotFound changes nothing |
| ArcPolicy.ArcEviction.ValidateVictimCommit | src/store/eviction/arc_eviction.cpp:225-234 | succeeds exactly for the reserved key |
| ArcPolicy.ArcEviction.CommitVictim | src/store/eviction/arc_eviction.cpp:236-243 | the specified demotion, for the reserved key |
| ArcPolicy.ArcEviction.CancelVictim | src/store/eviction/arc_eviction.cpp:245-251 | clears the reservation and changes nothing else |
| LruPolicy.MoveToFrontKeeps | src/store/eviction/lru_eviction.cpp:12-47 | the list stays duplicate-free and its members are as specified |
| LruPolicy.ForgetKeeps | src/store/eviction/lru_eviction.cpp:53-59 | a removal drops exactly its key |
| LruPolicy.LruEviction.OnAccess | src/store/eviction/lru_eviction.cpp:12-18 | the class makes the specified transition |
| LruPolicy.LruEviction.OnInsert | src/store/eviction/lru_eviction.cpp:20-47 | specified transition, or no change on failure or for the reserved key |
| LruPolicy.LruEviction.OnRemove | src/store/eviction/lru_eviction.cpp:53-59 | specified transition; a reservation of the key is void |
| LruPolicy.LruEviction.SelectVictim | src/store/eviction/lru_eviction.cpp:61-71 | reserves the least recent key other than the excluded one |
| LruPolicy.LruEviction.ValidateVictimCommit | src/store/eviction/lru_eviction.cpp:73-82 | succeeds exactly for the reserved key |
| LruPolicy.LruEviction.CommitVictim | src/store/eviction/lru_eviction.cpp:84-90 | the reserved key leaves the list |
| LruPolicy.LruEviction.CancelVictim | src/store/eviction/lru_eviction.cpp:92-98 | clears the reservation and changes nothing else |
| Recency.OldestExceptIsLast | src/store/eviction/lru_eviction.cpp:61-71 | everything behind the chosen victim is the excluded key |
| EvictionPolicy.ReservationSurvives | include/tidepool/store/eviction_policy.h:41-51 | any interleaving of other calls keeps the reserved key resident, in the list it was chosen from |
| EvictionPolicy.CancelRestores | include/tidepool/store/eviction_policy.h:57-61 | cancelling right after selecting restores the exact state |
| EvictionPolicy.ReserveKeeps | include/tidepool/store/eviction_policy.h:41-46 | a victim is found whenever a resident other than the excluded key exists |
| EvictionPolicy.CommittedKeeps | include/tidepool/store/eviction_policy.h:53-55 | after the commit exactly the victim is no longer resident |
| PolicyRuns.DriveLru | src/store/eviction/lru_eviction.cpp:12-98 | any sequence of calls takes the class through the run of the interface that the node relies on; only a failed insertion is skipped |
| PolicyRuns.DriveArc | src/store/eviction/arc_eviction.cpp:83-251 | the same for ARC, and from a new policy the bounds hold whenever entering keys found room |
| EvictionPolicy.EvictionPolicy.SelectVictim | include/tidepool/store/eviction_policy.h:41-46 | the interface a node uses: one reservation at a time |
| EvictionPolicy.EvictionPolicy.OnInsert | include/tidepool/store/eviction_policy.h:29-35 | failure leaves the policy unchanged |
| StorageNode.StorageNode.constructor | src/store/storage_node.cpp:29-31 | a new node is coherent and not open |
| StorageNode.StorageNode.Put | src/store/storage_node.cpp:340-407 | takes demotions and one DRAM write, or one SSD write, or commits no write; its status is the one that the state determines (OK exactly if the block goes to SSD and fits its key, or the room it needs in DRAM can be made: a policy and a sink, 64 bits for the bytes, and every victim that must go fits its key; the code's status for each refusal), unless something failed and so did the call; the databases it writes are those of its own steps, in order |
| StorageNode.StorageNode.Get | src/store/storage_node.cpp:409-438 | answers what the plain map holds, data and metadata, and no more bytes than the buffer holds; without a failure NotFound exactly for an absent key, InvalidArgument exactly for a null buffer with a capacity, OutOfCapacity exactly for a block larger than the buffer, OK in all other cases; a hit on SSD is promoted if and only if room can be made, unless something failed |
| StorageNode.StorageNode.Open | src/store/storage_node.cpp:35-107 | reproduces the index a node had, or builds it on a first open; a failure closes exactly the tiers it opened in reverse and leaves the index untouched; without injected failures it succeeds exactly on acceptable databases and reports Corruption on others |
| StorageNode.StorageNode.Close | src/store/storage_node.cpp:109-123 | closes every tier in reverse order; nothing stored changes |
| StorageNode.StorageNode.OpenTiers | src/store/storage_node.cpp:40-62 | opens in order up to the first failure |
| StorageNode.StorageNode.CloseTiers | src/store/storage_node.cpp:91-99 | closes the given prefix of tiers in reverse order |
| StorageNode.StorageNode.Absorb | src/store/storage_node.cpp:68-77 | a recovery walk adds a tier's blocks unless a hotter tier has the key |
| StorageNode.StorageNode.RecoverIndex | src/store/storage_node.cpp:64-83 | the recovered index names for every stored key its hottest copy and handle, or an injected failure occurred |
| StorageNode.StorageNode.RecoverTiers | src/store/storage_node.cpp:66-83 | the walk over the tiers, hottest first, joins their inventories |
| StorageNode.StorageNode.OpenAndRecover | src/store/storage_node.cpp:40-102 | all tiers open and the index recovered, or what was opened is closed again |
| StorageNode.JoinedIsRecovered | src/store/storage_node.cpp:64-83 | walking the tiers hottest first finds the hottest copy of every key |
| StorageNode.OpenEstablishes | src/store/storage_node.cpp:104-106 | a first open establishes the agreement and a later one finds the same index |
| StorageNode.StorageNode.ReadBlockLocked | src/store/storage_node.cpp:139-159 | the exact block, or an allocation failure |
| StorageNode.StorageNode.MigrateVictim | src/store/storage_node.cpp:167-196 | the victim moves with its exact value, or nothing at all changes and the reservation is cancelled |
| StorageNode.StorageNode.CommitDemotion | src/store/storage_node.cpp:188-196 | after the SSD write nothing can fail |
| StorageNode.StorageNode.DemoteOneVictimLocked | src/store/storage_node.cpp:161-197 | one demotion step of the policy's victim, or no change; without a failure it is refused exactly if that victim does not fit its key |
| StorageNode.StorageNode.MakeDramRoomForLocked | src/store/storage_node.cpp:199-241 | only demotions happen, the replaced block is spared, the bytes fit on success; it ends because the block count falls; its status is exactly what the state determines, unless something failed and so did the call |
| StorageNode.StorageNode.MakeRoomRound | src/store/storage_node.cpp:211-239 | one round: the bytes fit, or a refusal that the state at the call determines and no change, or one enabled demotion that changes nothing about the outcome |
| StorageNode.StorageNode.DemoteForRoom | src/store/storage_node.cpp:228-238 | a demotion leaves the outcome of making room as it was; without a failure it is refused exactly for a victim that SSD does not accept |
| NodeRoom.LruClears | src/store/storage_node.cpp:199-241 | under LRU room can be made if and only if the oldest blocks that must go all fit their keys |
| NodeRoom.ConsistentClears | src/store/storage_node.cpp:199-241 | if every DRAM block fits its key, room can always be made |
| NodeRoom.RoomAfterDemotion | src/store/storage_node.cpp:199-241 | a demotion on the way does not change what making room comes to |
| NodeRoom.VictimExists | src/store/storage_node.cpp:199-241 | a block that fits an empty DRAM always leaves something to demote |
| StorageNode.StorageNode.RoomNeeded | src/store/storage_node.cpp:211-226 | the decision of one round, with 64-bit overflow refused |
| StorageNode.ProjectedBytes | src/store/storage_node.cpp:19-25 | the exact footprint if 64 bits hold it, nothing otherwise |
| StorageNode.RoomKeepsValues | src/store/storage_node.cpp:199-241 | making room changes no value |
| StorageNode.TookAppend | src/store/storage_node.cpp:161-438 | runs of calls compose, and so do the databases written during them, in order |
| StorageNode.LocationStays | src/store/storage_node.cpp:346-372 | making room does not move the key being put |
| StorageNode.HotOutcome | src/store/storage_node.cpp:375-403 | each way a DRAM put can end is a step of the model |
| StorageNode.StorageNode.WriteHot | src/store/storage_node.cpp:375-403 | write, admission and index change together or not at all, a used-up handle and policy bookkeeping aside |
| StorageNode.StorageNode.WriteAndAdmit | src/store/storage_node.cpp:379-389 | a refused admission takes the DRAM write back |
| StorageNode.StorageNode.PublishHot | src/store/storage_node.cpp:391-403 | a refused index entry takes write and admission back |
| StorageNode.StorageNode.UndoWrite | src/store/storage_node.cpp:385-387 | the rollback cannot reach std::terminate |
| StorageNode.StorageNode.PutHotLocked | src/store/storage_node.cpp:370-406 | a put that DRAM can hold: room, then the write, with the status that the state determines |
| StorageNode.StorageNode.MakeRoomToPut | src/store/storage_node.cpp:346-372 | what the index said of the key still holds once there is room, and the block then fits |
| StorageNode.StorageNode.CommitHot | src/store/storage_node.cpp:375-406 | the write is one step of the model, or what a rolled-back one leaves |
| StorageNode.StorageNode.CommitAfterRoom | src/store/storage_node.cpp:370-406 | the write ends the run that made room |
| StorageNode.StorageNode.PutWithoutDramLocked | src/store/storage_node.cpp:243-269 | the SSD write with its index entry, or the index exactly as before |
| StorageNode.StorageNode.PutOversizedLocked | src/store/storage_node.cpp:271-303 | the SSD write, dropping any DRAM copy, or nothing changes |
| StorageNode.StorageNode.PrepareOversized | src/store/storage_node.cpp:274-283 | the preflight leaves only a placeholder entry for a new key |
| StorageNode.StorageNode.PublishOversized | src/store/storage_node.cpp:292-301 | DRAM copy and residency go, the index names SSD |
| StorageNode.StorageNode.PutColdLocked | src/store/storage_node.cpp:243-303 | a put that bypasses DRAM is one step of the model or none |
| StorageNode.StorageNode.TryPromoteToDramLocked | src/store/storage_node.cpp:305-338 | demotions and a promotion, or what a failed attempt leaves; no value changes; without a failure the block is promoted if and only if DRAM can hold it, there is a policy and room can be made |
| StorageNode.StorageNode.PromoteLocked | src/store/storage_node.cpp:322-338 | without a failure a block is promoted if and only if room can be made |
| StorageNode.StorageNode.WritePromoted | src/store/storage_node.cpp:323-335 | the index names DRAM only after write and admission; otherwise nothing but a handle is used up |
| StorageNode.StorageNode.CommitPromotion | src/store/storage_node.cpp:323-335 | the promotion is one step of the model, or what a failed one leaves |
| StorageNode.StillCold | src/store/storage_node.cpp:322 | making room leaves the block being promoted on SSD with its value |
| StorageNode.StorageNode.MakeRoomToPromote | src/store/storage_node.cpp:322 | room for a block that only SSD holds, made exactly when the state allows it; the block keeps its place and value meanwhile |
| StorageNode.StorageNode.GetLocked | src/store/storage_node.cpp:413-437 | the read follows the index to the tier that has the key |
| StorageNode.StorageNode.GetHotLocked | src/store/storage_node.cpp:419-437 | a DRAM hit is recorded in the policy; a failed read is not |
| StorageNode.StorageNode.GetColdLocked | src/store/storage_node.cpp:419-437 | an SSD hit is answered whether or not the promotion succeeds |
| DramTier.DramTier.constructor | src/store/tier/dram/dram_tier.cpp:13 | an empty tier |
| DramTier.DramTier.Put | src/store/tier/dram/dram_tier.cpp:25-60 | stores under a fresh handle with exact counters, or changes nothing |
| DramTier.DramTier.Get | src/store/tier/dram/dram_tier.cpp:62-93 | the exact block, never more bytes than the buffer holds; without a failure, on a stored key, InvalidArgument exactly for a null buffer with a capacity, OutOfCapacity exactly for a block larger than the buffer; an error leaves an empty view |
| DramTier.DramTier.Probe | src/store/tier/dram/dram_tier.cpp:15-20 | metadata, size and handle of the stored block |
| DramTier.DramTier.EraseExisting | src/store/tier/dram/dram_tier.cpp:114-122 | exactly the key goes, counters follow; an absent key would terminate |
| DramTier.DramTier.VisitEntries | src/store/tier/dram/dram_tier.cpp:124-141 | names each stored key once with its own information |
| SsdTier.SsdTier.Open | src/store/tier/ssd/ssd_tier.cpp:88-153 | without a failure accepts exactly the databases whose records Put could have written, and reports Corruption on others; counters are what the scan finds; what it held before it holds again |
| SsdTier.SsdTier.Scan | src/store/tier/ssd/ssd_tier.cpp:106-139 | succeeds if and only if every record is valid and the bytes fit 64 bits, and counts them exactly |
| SsdTier.RecordRefused | src/store/tier/ssd/ssd_tier.cpp:47-75 | a record is refused if and only if its address is no key, its value is no block, the models differ or the token count is neither 0 nor the length of the key |
| SsdTier.BadRecordRefused | src/store/tier/ssd/ssd_tier.cpp:106-139 | one block with the wrong model or token count makes the whole database unacceptable, and one with the right ones is a good record |
| SsdTier.SsdTier.Close | src/store/tier/ssd/ssd_tier.cpp:155-164 | the database is untouched |
| SsdTier.SsdTier.Put | src/store/tier/ssd/ssd_tier.cpp:193-247 | through both codecs the map gains exactly the block, or nothing changes; on an open tier InvalidArgument if and only if the models of key and block differ or the token count is neither 0 nor the length of the key |
| SsdTier.SsdTier.StoreRecord | src/store/tier/ssd/ssd_tier.cpp:225-239 | incremental counters equal a rescan |
| SsdTier.SsdTier.Get | src/store/tier/ssd/ssd_tier.cpp:249-299 | the exact block, never more bytes than the buffer holds; without a failure, on a stored key, InvalidArgument exactly for a null buffer with a capacity, OutOfCapacity exactly for a block larger than the buffer; an error leaves an empty view |
| SsdTier.SsdTier.Probe | src/store/tier/ssd/ssd_tier.cpp:171-191 | metadata, size and stable handle of the stored block |
| SsdTier.SsdTier.Evict | src/store/tier/ssd/ssd_tier.cpp:301-328 | exactly the key goes, or nothing changes; counters equal a rescan |
| SsdTier.SsdTier.EraseRecord | src/store/tier/ssd/ssd_tier.cpp:314-322 | the record goes and the counters follow |
| SsdTier.SsdTier.VisitEntries | src/store/tier/ssd/ssd_tier.cpp:336-368 | names exactly the live keys, each once |
| SsdTier.EncodesUnique | src/store/tier/ssd/ssd_tier.cpp:63-75 | a database stands for one map only |
| SsdTier.EncodesDetermines | src/store/tier/ssd/ssd_tier.cpp:63-75 | a map has one database only |
| SsdTier.DecodedIs | src/store/tier/ssd/ssd_tier.cpp:63-75 | the map a database stands for is the one it was written from |
| SsdTier.EncodesIntact | src/store/tier/ssd/ssd_tier.cpp:88-153 | what Put and Evict write, Open accepts |
| SsdTier.EncodesPut | src/store/tier/ssd/ssd_tier.cpp:193-247 | writing one record adds exactly one key: no two keys share an address |
| SsdTier.EncodesErase | src/store/tier/ssd/ssd_tier.cpp:301-328 | deleting one record removes exactly one key |
| LocalIndex.LocalIndex.Upsert | src/store/index/local_index.cpp:9-23 | sets the entry or changes nothing |
| LocalIndex.LocalIndex.InsertIfAbsent | src/store/index/local_index.cpp:25-33 | never replaces an entry |
| LocalIndex.LocalIndex.ValidateRelocate | src/store/index/local_index.cpp:35-42 | succeeds exactly when the relocation cannot terminate the process |
| LocalIndex.LocalIndex.RelocateExisting | src/store/index/local_index.cpp:44-50 | changes exactly the entry; needs it in the expected tier |
| BlockKeyText.Canonical | src/api/block_key.cpp:25-53 | a text parses to a key if and only if it is that key's text |
| BlockKeyText.FromStringToString | src/api/block_key.cpp:25-53 | every key's text parses to the key |
| BlockKeyText.ToStringInjective | src/api/block_key.cpp:25-31 | no two keys share a text |
| BlockKeyText.NeverTruncated | src/api/block_key.cpp:25-31 | the longest text fits the 48-byte buffer |
| WireLayout.TextLayout | src/api/block_key.cpp:25-31 | the text is the sixteen lower-case hexadecimal digits of the hash, most significant first, a colon, the length, a colon and the model, both in decimal without leading zeros |
| BlockCodec.SerializeBlock | src/api/block_codec.cpp:51-74 | writes the specified blob |
| BlockCodec.DeserializeHeader | src/api/block_codec.cpp:76-115 | accepts exactly the specified headers, with the code's error for each other blob |
| BlockCodec.BlobBijection | src/api/block_codec.cpp:51-115 | a blob parses to a block if and only if it is that block serialized |
| WireLayout.BlobStarts | src/api/block_codec.cpp:57-60 | every blob starts with "TP", version 1 and serde 0 |
| WireLayout.BlobLayout | src/api/block_codec.cpp:61-72 | each field of the metadata is at its offset, least significant byte first, and the payload follows byte 36 |
| WireLayout.BlobLengths | src/api/block_codec.cpp:65-67 | so are the 64-bit time and payload length |
| Words.PutBig | src/protocol/wire_codec.cpp:31-48 | writes the big-endian word and nothing else |
| Words.GetBig | src/protocol/wire_codec.cpp:50-72 | reads the big-endian word |
| Words.PutLittle | src/api/block_codec.cpp:19-30 | appends the little-endian word |
| Words.GetLittle | src/api/block_codec.cpp:35-47 | reads the little-endian word |
| Words.BigRoundTrip | src/protocol/wire_codec.cpp:31-72 | reading a written word gives it back |
| Words.FromBigRoundTrip | src/protocol/wire_codec.cpp:31-72 | writing a read word gives the same bytes |
| Words.LittleRoundTrip | src/api/block_codec.cpp:19-47 | reading a written word gives it back |
| Words.FromLittleRoundTrip | src/api/block_codec.cpp:19-47 | writing a read word gives the same bytes |
| WireCodec.ValidateFrameSizeImpl | src/protocol/wire_codec.cpp:111-138 | accepts exactly the frames that fit the limit and size_t and returns their true size: with each sum taken in its own width nothing wraps, for any word up to 64 bits |
| WireCodec.ValidatePayloadLength | src/protocol/wire_codec.cpp:140-201 | accepts exactly the lengths the message kind allows |
| WireCodec.ValidateHeaderFields | src/protocol/wire_codec.cpp:203-223 | accepts exactly the valid headers |
| WireCodec.EncodeHeader | src/protocol/wire_codec.cpp:275-293 | encodes exactly the valid headers, to the specified bytes |
| WireCodec.DecodeHeader | src/protocol/wire_codec.cpp:295-332 | the specified parse, error codes included |
| WireCodec.HeaderBijection | src/protocol/wire_codec.cpp:275-332 | for all limits, bytes decode to a header if and only if the header is valid and encodes to them |
| WireLayout.HeaderStarts | src/protocol/wire_codec.cpp:283-285 | every header starts with "TPNW", version 1 and its length 32 |
| WireLayout.HeaderLayout | src/protocol/wire_codec.cpp:286-291 | each field is at its offset, most significant byte first |
| WireLayout.KeyLayout | src/protocol/wire_codec.cpp:334-345 | hash, length and model of a key are at bytes 0, 8 and 12, most significant byte first |
| WireLayout.PayloadLayout | src/protocol/wire_codec.cpp:401-500 | a put carries its key and then the blob; an error its length in four bytes and then its text |
| WireLayout.FrameLayout | src/transport/tcp/wire_framing.cpp:58-87 | a frame is its header and then its payload |
| WireLayout.FrameNumbers | include/tidepool/protocol/wire_codec.h:27-36 | requests are kind 1 and responses 2; Get, Put and Ping are 1, 2 and 3; only errors have a status |
| WireMessages.KeyBijection | src/protocol/wire_codec.cpp:334-358 | keys and 16-byte strings correspond one to one |
| WireMessages.PutPayloadBijection | src/protocol/wire_codec.cpp:401-455 | a payload decodes to a key and a blob if and only if they encode to it |
| WireMessages.PutContent | src/protocol/wire_codec.cpp:401-455 | a put request carries a key and a block if and only if its payload is the two encoded |
| WireMessages.ErrorPayloadBijection | src/protocol/wire_codec.cpp:474-522 | a payload decodes to a message if and only if the message encodes to it |
| WireMessages.ValidateRequest | src/protocol/wire_codec.cpp:524-551 | accepts exactly the valid requests; id zero is refused |
| WireMessages.ValidateResponse | src/protocol/wire_codec.cpp:553-582 | accepts exactly the valid responses; id zero is refused |
| WireMessages.SentIsAccepted | src/protocol/wire_codec.cpp:524-582 | every message that may be sent is accepted and read back as itself |
| WireMessages.AcceptedIsSent | src/protocol/wire_codec.cpp:524-582 | every accepted frame is the frame of exactly one message |
| WireMessages.StatusBijection | src/protocol/wire_codec.cpp:584-638 | status codes and wire values 0 to 10 correspond one to one |
| WireMessages.StatusNumbers | src/protocol/wire_codec.cpp:584-610 | each status has its number: NotFound is 2, Corruption 9, and so on for all eleven |
| WireMessages.ValidateBlockSize | src/rpc/tcp_connector.cpp:40-62 | passes exactly when header, key, block header and payload fit the limit and size_t |
| WireMessages.BlockTransfer | src/rpc/tcp_connector.cpp:40-62 | a block that passes is encoded, accepted under the same limits and decoded to the same key and block |
| WireMessages.BlockReturns | src/rpc/tcp_connector.cpp:243-265 | the same for the block in a Get response |
| WireStreams.FramesInStream | src/transport/tcp/wire_framing.cpp:12-87 | frames written back to back are cut into the same frames |
| WireStreams.FramesInPrefix | src/transport/tcp/wire_framing.cpp:12-56 | whatever follows whole frames does not change how they are cut |
| WireStreams.PartialFrame | src/transport/tcp/wire_framing.cpp:12-56 | a frame that did not go out whole is no frame |
| WireStreams.ReplyAt | src/rpc/tcp_connector.cpp:127-196 | the i-th reply answers the requests up to the i-th |
| WireStreams.OneMoreReply | src/rpc/tcp_connector.cpp:127-196 | one more whole request brings exactly one more whole reply, at the end, which may depend on every request so far |
| TcpConnection.TcpConnection.ReadExact | src/transport/tcp/tcp_connection.cpp:386-448 | exactly the next bytes in order, however they are cut, or the connection is not open |
| TcpConnection.TcpConnection.WriteExact | src/transport/tcp/tcp_connection.cpp:450-512 | exactly the bytes in order, or a prefix and the connection is not open |
| WireFraming.ReadWireFrame | src/transport/tcp/wire_framing.cpp:12-56 | the next frame of the stream and not a byte more, or the connection is not open |
| WireFraming.WriteWireFrame | src/transport/tcp/wire_framing.cpp:58-87 | the whole frame; a failure wrote nothing or broke the connection |
| WireFraming.WriteFrames | src/transport/tcp/wire_framing.cpp:58-87 | a sequence of frames is their stream |
| WireFraming.ReadFrames | src/transport/tcp/wire_framing.cpp:12-56 | a stream is read as the frames it was made of, up to the first failure |
| WireFraming.Transfer | src/transport/tcp/wire_framing.cpp:12-87 | frames written and then read under arbitrary short writes and reads are the same sequence |
| TcpConnector.AnswerIsNext | src/rpc/tcp_connector.cpp:127-196 | on a connection that is owed nothing, the next frame answers the request just written and is the only one to come |
| TcpConnector.Exchange | src/rpc/tcp_connector.cpp:148-161 | an in-order peer's reply to this very request, given all requests before it, after which nothing is owed |
| TcpConnector.CheckResponse | src/rpc/tcp_connector.cpp:163-187 | accepts only a well-formed response, of kind 2 and with the opcode and id of the request |
| TcpConnector.ClientIsTold | src/rpc/tcp_connector.cpp:198-211 | in numbers: an accepted error reply with wire status n tells the client NotFound exactly if n is 2, Corruption exactly if n is 9, and likewise for each n from 1 to 10 |
| TcpConnector.IdsAreDistinct | src/rpc/tcp_connector.cpp:118-125 | ids are never zero and repeat only after 2^64 - 1 of them |
| TcpConnector.TcpConnector.constructor | src/rpc/tcp_connector.cpp:66-67 | a new client holds no connection |
| TcpConnector.TcpConnector.ValidateConfiguration | src/rpc/tcp_connector.cpp:71-89 | passes exactly with a host, a port, timeouts that are not negative and room for a header |
| TcpConnector.TcpConnector.EnsureConnected | src/rpc/tcp_connector.cpp:91-110 | reuses only a connection that is open and in step |
| TcpConnector.TcpConnector.DropConnection | src/rpc/tcp_connector.cpp:112-116 | the connection is closed and forgotten |
| TcpConnector.TcpConnector.AllocateRequestId | src/rpc/tcp_connector.cpp:118-125 | wraps from 2^64 - 1 to 1 |
| TcpConnector.TcpConnector.Converse | src/rpc/tcp_connector.cpp:147-195 | on return a held connection is open, at a frame boundary and owed nothing, whatever failed; after a failure it is held only if a local allocation failed once the frame was read; exactly a prefix of the request went out |
| TcpConnector.TcpConnector.Execute | src/rpc/tcp_connector.cpp:127-196 | the answer, of kind 2 and with the opcode and id of the request, is to this call's own request, given the requests before it on that connection; a prefix of its frame goes out, on one connection; with an in-order peer and no injected failure the reply is returned |
| TcpConnector.TcpConnector.DecodeRemoteError | src/rpc/tcp_connector.cpp:198-211 | the remote code, never OK; without a failure NotFound exactly for wire status 2 and Corruption exactly for 9 |
| TcpConnector.TcpConnector.Get | src/rpc/tcp_connector.cpp:213-270 | a success is the block in the answer to this request; without failures it is what the peer replied, with the code of its wire status (TcpConnector.ClientIsTold) |
| TcpConnector.TcpConnector.ReceiveBlock | src/rpc/tcp_connector.cpp:243-265 | a blob that is no block ends the connection |
| TcpConnector.TcpConnector.Put | src/rpc/tcp_connector.cpp:272-310 | the request carries exactly the key and the block; OK if and only if the peer said so to this request; it is sent exactly if configuration and size allow, unless something failed |
| TcpConnector.TcpConnector.Conclude | src/rpc/tcp_connector.cpp:290-310 | OK exactly for an answer that says so |
| TcpConnector.TcpConnector.EncodePut | src/rpc/tcp_connector.cpp:275-288 | a payload exactly if configuration and size allow |
| TcpConnector.TcpConnector.Ping | src/rpc/tcp_connector.cpp:312-342 | OK only if the peer answered this ping |
| TcpConnector.TcpConnector.Close | src/rpc/tcp_connector.cpp:344-347 | no connection is held |
| RpcRuns.Deployment.Run | src/rpc/tcp_connector.cpp:91-347 | over any sequence of gets, puts, pings and closes against a server whose store changes, over connections that stall, break and are made anew: a successful get returns the last acknowledged put of its key or one in doubt, nothing acknowledged is ever not found, a failed put changed nothing or is in doubt; a call that meets no failure is answered and leaves no doubt, and such a put is acknowledged, refused with a status of the server, or too large to be sent |
| RpcRuns.Deployment.One | src/rpc/tcp_connector.cpp:213-347 | the same for one call of any kind |
| RpcRuns.QuietPutsAreAcknowledged | src/rpc/tcp_connector.cpp:272-310 | in every run against a server that refuses no put, each put that can be sent and meets no failure is acknowledged, whatever failed in other calls |
| RpcRuns.FailedPutTakesEffectOrNot | src/rpc/tcp_connector.cpp:127-196 | a put that went out whole and got no answer has taken effect if the server served it and has not otherwise, and is in doubt for the client either way |
| RpcRuns.Deployment.Put | src/rpc/tcp_connector.cpp:272-310 | a put is acknowledged, or refused or not sent without effect, or in doubt; in doubt only if something failed; without a failure a put that can be sent has a status of the server, and one that cannot fails |
| RpcRuns.Deployment.Get | src/rpc/tcp_connector.cpp:213-270 | a block that was acknowledged or is in doubt, NotFound only for a key never acknowledged, or a failure |
| RpcRuns.Deployment.Ping | src/rpc/tcp_connector.cpp:312-342 | answered whenever nothing failed |
| RpcRuns.Deployment.Close | src/rpc/tcp_connector.cpp:344-347 | letting a connection go between two calls loses nothing: every request on it was served |
| RpcRuns.Deployment.Settle | src/rpc/tcp_connector.cpp:127-196 | a connection lost with a request outstanding: served, not served or not yet, the store still bears out what the client knows |
| RpcRuns.PutConcludes | src/rpc/tcp_connector.cpp:272-310 | an answered put took effect exactly if the answer says so; an unanswered one is in doubt exactly if its frame went out whole |
| RpcRuns.GetIsAnswered | src/rpc/tcp_connector.cpp:213-270 | a get meets a store that bears out what the client knows, and is told what that store holds |
| RpcRuns.FramesSent | src/transport/tcp/wire_framing.cpp:58-87 | a server finds the last request among the bytes sent if and only if all of it went out |
| RpcRuns.ServerSettles | src/rpc/tcp_connector.cpp:127-196 | whichever requests of a lost connection the server serves, the ledger of the client covers its store |
| RpcServer.GetResultIs | src/rpc/tcp_connector.cpp:213-270 | what the client makes of the reply to a get is the lookup in the store |
| RpcServer.GetAnswered | src/rpc/tcp_connector.cpp:163-187 | a server with the same limits gives a reply to a get that the client accepts |
| RpcServer.PutAnswered | src/rpc/tcp_connector.cpp:163-187 | the same for a put, stored or refused, and the client is told which |
| RpcServer.LateIsTruthful | src/rpc/tcp_connector.cpp:272-310 | puts in doubt may take effect at any time, in any order and more than once, without making a later answer false |
| RpcServer.StoreAfterMore | src/rpc/tcp_connector.cpp:127-196 | each request meets the store that the earlier ones left, and is answered from it |
| HashRing.HashRing.Rebuild | src/hashring/hash_ring.cpp:15-27 | builds the specified ring: every hash(id, v) with v below the vnode count of a live node is a point, and hash(id, 0) if the count is 0; dead nodes are skipped |
| HashRing.EveryVnodeIsOnRing | src/hashring/hash_ring.cpp:15-27 | every label of a live node is on the ring |
| HashRing.EveryPointIsAVnode | src/hashring/hash_ring.cpp:15-27 | every point of the ring is a label of a live node, which owns it |
| HashRing.PointsAreWeights | src/hashring/hash_ring.cpp:15-27 | with distinct ids and no two labels at one point, a live node owns exactly max(1, vnode count) points |
| HashRing.HashRing.LowerBound | src/hashring/hash_ring.cpp:34 | the least point not below the hash |
| HashRing.HashRing.Owner | src/hashring/hash_ring.cpp:29-37 | the node at the least clockwise distance, wraparound included; Unavailable exactly on an empty ring |
| HashRing.PointBelongsToLast | src/hashring/hash_ring.cpp:15-27 | a point shared by several nodes belongs to the last live one of the list |
| HashRing.NoOtherPoints | src/hashring/hash_ring.cpp:15-27 | the ring has no point but those of live nodes |
| HashRing.OwnerUnique | src/hashring/hash_ring.cpp:29-37 | a key hash has one owner |
| HashRing.OneMoreNode | src/hashring/hash_ring.cpp:15-27 | a joining node adds points or takes some over, and changes nothing else, wherever it is in the list |
| HashRing.MinimalMovement | src/hashring/hash_ring.cpp:15-37 | when a node joins, leaves, dies or comes back, a key keeps its owner or moves to or from that node, collisions and wraparound included |

## Left out

- Message text of statuses, node and tier operation counters, latency statistics and the node id inside a Location.
- Null pointers: null tiers, null out-parameters and null payload pointers with non-zero sizes. Configured tiers are none, DRAM, SSD, or DRAM and SSD.
- The caller's read buffer is its capacity, whether its pointer is null, and the bytes a read leaves at its start; its memory is not an array here.
- Mutexes and atomics: public calls are atomic steps, and a shutdown from another thread is one of the failures of polling.
- Clocks, deadlines, getaddrinfo, connect, poll and fcntl: each socket call has an arbitrary outcome, and a deadline is an arbitrary number of rounds without progress.
- LevelDB internals: the database is a map from strings to byte strings with atomic, possibly failing operations.
- The list iterators inside the position maps of the policies: the maps name the list, or are a set of keys for LRU.
- EvictionPolicy.EvictionPolicy.SelectVictim: the node holds the specification state of its policy behind the interface; LruEviction and ArcEviction are proved to follow the same runs (PolicyRuns) but are not the object the node calls.
- EvictionPolicy.EvictionPolicy.OnInsert: the same object.
- ArcPolicy.UseKeeps: the target size p is a real number; rounding of doubles is not modelled.
- DramTier.DramTier.Put: the 64-bit byte counter and handle counter are unbounded here.
- SsdTier.SsdTier.StoreRecord: the 64-bit counters are unbounded here; Open refuses a database whose bytes do not fit.
- SsdTier.SsdTier.Probe: the stable handle is an arbitrary function of the key, so two SSD blocks may share one.
- NodeRuns.CrashAnywhere: LevelDB writes are atomic and durable once made; torn or lost writes of the database itself are not modelled.
- NodeHistory.ArcOverflowsInNode: for `c` below 2^64 and sizes below 2^63, the values that the code's types can hold.
- ArcGrowth.ArcGrowsInNode: up to 2^64 keys, of which the prefix hashes differ.
- WireMessages.ValidateResponse: failed allocations of the codec are raised by its callers here.
- TcpConnector.TcpConnector.EnsureConnected: resolving the endpoint and trying its addresses is one arbitrary outcome: the socket that the network offers, if any.
- RpcRuns.Deployment.Run: the server is what the protocol specifies, not code of the repository, and it is not tied to StorageNode here; it has one client at a time, and blocks it holds fit the client's limits.
- HashRing.HashRing.Rebuild: the hash of "id#v" is an arbitrary function of the id and v.
- HashRing.HashRing.LowerBound: the search of the ordered map is a scan of its keys.
- DramTier::Evict, StorageNode::Probe, Contains and Locate, LocalIndex::Remove and Contains: easy members that nothing here needs.
- BlockKey::FromTokenPrefix, the cost-aware policy, RDMA, the vLLM integration, the single-node coordinator and the client stubs.
