# Verified models of five algorithmic cores

This project models, in Dafny 4.11, the parts of the code base whose promises are mathematical, and proves these promises for all inputs, all graphs and all interleavings.

- **Cluster linearization** (`src/cluster_linearize.h`). A cluster is a dependency graph of transactions; a linearization is a topological order of it; its quality is the feerate diagram, the concave curve through the cumulative sizes and fees of its chunks. The modules cover the graph and its updates, chunking, the ancestor and the branch-and-bound search for a best subset, `Linearize`, `MergeLinearizations`, `PostLinearize` and `FixLinearization`.
- **The check queue** (`src/checkqueue.h`). A master and any number of workers share a queue under one mutex. It is a state machine whose steps are the critical sections, single executed checks, wake-ups (also spurious ones) and notifications. The object with its fields updated in place simulates this machine.
- **The cuckoo cache** (`src/cuckoocache.h`). A set with eight locations per element, bit-packed collection flags, eviction and two epochs.
- **Base58 and Bech32** (`src/base58.cpp`, `src/bech32.cpp`). Text encoders and decoders; the Bech32 checksum follows BIP 173 (section "Bech32", subsection "Checksum") and BIP 350, and detects up to three errors within 1023 characters.
- **Multi-limb integers** (`src/arith_uint256.*`). In-place arithmetic for any number of 32-bit limbs, and the compact form.

`dafny verify dfyconfig.toml` verifies the whole project.

## How the search is specified

The search for a best subset is a transition system (`SearchSteps.dfy`): its relations say exactly which item is next, when it is dropped, where it is split and what the two halves become. The methods of `Search.dfy` are proved to make runs of this system and to keep the invariants from which optimality follows; that every run is short is proved of the system alone. The ledger of `LinearizeBudget.dfy` does the same for the rounds of `Linearize`.

## How error detection is proved

The Bech32 remainder is a list of six 5-bit values, and GF(1024) is ten bits (`Bech32Field.dfy`). Multiplication by e, multiplication by e^997, multiplication by {2} and squaring are linear maps of these bits, so that laws between them follow from the ten unit vectors. That e has order 1023 follows from e^1023 = 1 and from e^341, e^93 and e^33, computed by squaring, being different from 1; that its powers are all elements but zero follows by counting. The rest is the argument of the BCH bound (`Bech32Errors.dfy`): a list with remainder zero vanishes at three consecutive powers of e, and with at most three values different from zero these three equations have no other solution than zeros.

## How the diagram proofs work

Whether one diagram lies nowhere below another is a statement about real-valued curves (`Diagrams.DiagramAt`). It is proved equivalent to an integer statement (`Diagrams.PeaksDecide`): for every feerate, the best prefix of the first list gains at least as much over that feerate as the best prefix of the second (`Diagrams.Peak`). All improvement results are proved with peaks and stated with curves. `Chunkings.IsChunking` describes a chunking without an algorithm, and `Chunkings.ChunkingUnique` shows that there is only one, so that incremental and rebuilt chunkings can be compared.

## Where code and comments differ

- The first eviction of the cuckoo cache takes the second location, `locs[1]`; the comment in `src/cuckoocache.h:421-423` says `locs[0]`. The model follows the code (`CuckooTables.FirstVictim`).
- The comment in `src/cuckoocache.h:430` says that the choice of the slot to evict from prevents moving the element just put in. That fails when two consecutive hashes of the evicted element coincide: `CuckooTables.VictimRepeats` gives the exact condition and `CuckooTables.EqualHashesRepeat` an instance.
- `src/cuckoocache.h:122` allows all sizes up to 2^32 - 2, and `src/cuckoocache.h:58-61` promises flags for every size. For the seven sizes from 0xFFFFFFF9 on, `size + 7` wraps around and no flag has memory; the constructors of `BitFlags.BitPackedFlags` and `CuckooCaches.Cache` state the exact condition.
- `operator/=` clears the number before it throws on a zero divisor; the model keeps this (`ArithUints.BaseUint.DivAssign`).
- A Base58 text without any digit decodes successfully even with a negative length limit (`Base58s.Fits`).

## Model

| member | source | states |
|---|---|---|
| Diagrams.PeaksDecide | src/util/feefrac.h:223-231 | for a concave list of fee/size pairs, its curve lies nowhere below that of another list of equal totals exactly when at every feerate its best prefix gains at least as much |
| Diagrams.PeakIsBestPrefix | src/util/feefrac.h:223-231 | the recursive peak is the maximum gain over all prefixes and is attained by one |
| Chunkings.ChunksChunking | src/cluster_linearize.h:396-412 | the chunks are consecutive segments that make up the linearization, every proper prefix of a chunk has lower feerate than the chunk, and chunk feerates never increase |
| Chunkings.ChunkingUnique | src/cluster_linearize.h:396-412 | a linearization has only one division with these properties |
| Chunkings.FirstChunkBest | src/cluster_linearize.h:396-412 | no prefix of the linearization has higher feerate than the first chunk |
| Chunkings.ChunksDropFirst | src/cluster_linearize.h:484-504 | without its first chunk, a linearization has exactly the remaining chunks |
| LinearizationChunkings.ChunkLinearization | src/cluster_linearize.h:396-412 | the loop returns the feerates of the unique chunking |
| LinearizationChunkings.ChunksAreLeastMajorant | src/cluster_linearize.h:396-412 | chunk feerates conserve the totals, never increase, lie nowhere below the curve through the prefix sums, and nowhere above any other concave curve with this property |
| LinearizationChunkings.AddFor | src/cluster_linearize.h:377-382 | a set with its feerate stays consistent when overlapping sets are added |
| LinearizationChunkings.LinearizationChunking.constructor | src/cluster_linearize.h:463-471 | starts with the chunks of the whole linearization |
| LinearizationChunkings.LinearizationChunking.BuildChunks | src/cluster_linearize.h:434-459 | the visible chunks are the chunks of what remains |
| LinearizationChunkings.LinearizationChunking.MarkDone | src/cluster_linearize.h:484-504 | skipping exactly the first chunk and rebuilding give the same state: the chunks of the remaining transactions in their old order |
| LinearizationChunkings.StripFirstChunk | src/cluster_linearize.h:484-504 | removing the first chunk from the remaining order leaves the order after it |
| LinearizationChunkings.LinearizationChunking.IntersectPrefixes | src/cluster_linearize.h:506-539 | the result is the intersection with the shortest prefix of chunks whose feerate is not below that of the subset |
| Improvements.SafeIntersection | src/cluster_linearize.h:515-539 | moving the found intersection to the front lowers the diagram nowhere, for every set at least as good as the first chunk |
| Improvements.SafeOptimal | src/cluster_linearize.h:515-539 | moving a best topologically valid set to the front lowers no diagram |
| Improvements.MoveDominates | src/cluster_linearize.h:515-539 | the peaks after such a move are at least the peaks before |
| DepGraphs.DepGraph.AddTransaction | src/cluster_linearize.h:133-146 | the first free position becomes an unrelated transaction, and the relations of the others stay reflexive, transitive and mutually inverse |
| DepGraphs.DepGraph.RemoveTransactions | src/cluster_linearize.h:157-171 | the relations become exactly their restriction to what is left, and stay valid |
| DepGraphs.DepGraph.AddDependencies | src/cluster_linearize.h:177-198 | the two loops produce the linked relation |
| DepGraphs.LinkedValid | src/cluster_linearize.h:177-198 | the linked relation is again reflexive, transitive and mutually inverse |
| DepGraphs.LinkedClosure | src/cluster_linearize.h:177-198 | it is the least transitive relation that contains the old one and the new dependencies |
| DepGraphs.GetReducedParents | src/cluster_linearize.h:200-219 | for any graph, also with cycles, the loop returns the proper ancestors that are above all others, and of those on a common cycle only the first |
| DepGraphs.ReducedAcyclic | src/cluster_linearize.h:200-219 | without cycles these are exactly the maximal proper ancestors |
| DepGraphs.ReducedParentsCover | src/cluster_linearize.h:200-219 | their ancestor sets and the transaction itself make up all its ancestors, and no smaller set of them does, in any graph |
| DepGraphs.DepGraph.Remapped | src/cluster_linearize.h:89-111 | rebuilding from reduced parents alone under an injective renaming gives an isomorphic graph |
| DepGraphs.RemapDone | src/cluster_linearize.h:89-111 | linking every transaction to its renamed reduced parents yields the whole renamed relation |
| Components.GetConnectedComponent | src/cluster_linearize.h:263-279 | the result holds the transaction, is unrelated to the rest of the subset, and cannot be cut in two unrelated parts |
| Components.FindConnectedComponent | src/cluster_linearize.h:288-292 | the component that holds the first transaction of the subset; empty only for an empty subset |
| AppendTopos.AppendTopo | src/cluster_linearize.h:313-323 | the list stays in front, followed by exactly the given set in an order in which ancestors come first |
| AncestorFinders.AncestorCandidateFinder.constructor | src/cluster_linearize.h:566-590 | every stored feerate is that of the remaining ancestor set |
| AncestorFinders.AncestorCandidateFinder.MarkDone | src/cluster_linearize.h:598-609 | after removing a topologically valid set, every stored feerate is that of the remaining ancestor set |
| AncestorFinders.AncestorCandidateFinder.FindCandidateSet | src/cluster_linearize.h:628-641 | returns a remaining ancestor set that no other one beats, with ties towards smaller size |
| SearchItems.PotentialBounds | src/cluster_linearize.h:821-836 | every set between the included and the undecided transactions is no better than the potential set or no better than the best set |
| SearchItems.JumpKeepsOptimal | src/cluster_linearize.h:838-858 | including a topologically valid part of the potential set loses no optimal set |
| SearchItems.NotBeatenIsOptimal | src/cluster_linearize.h:910-917 | if no optimal set beats the best set found, that set is optimal |
| SearchItems.SplitCovers | src/cluster_linearize.h:955-963 | every topologically valid set that fits an item fits one of the two halves of its split |
| SearchItems.NothingImproves | src/cluster_linearize.h:908-910 | an item without improving undecided transactions holds nothing better than the best set |
| CandidateSearch.TrimImproving | src/cluster_linearize.h:805-811 | keeps exactly the transactions whose own feerate exceeds the best |
| CandidateSearch.FindPotential | src/cluster_linearize.h:823-836 | computes a potential set |
| CandidateSearch.JumpAhead | src/cluster_linearize.h:838-858 | includes exactly the transactions of the potential set whose remaining ancestors are all in it, and no others |
| CandidateSearch.AddItem | src/cluster_linearize.h:820-890 | the queue and the best set become exactly what adding the item means: improved by its potential set and the jump ahead, queued unless nothing is left to gain; no optimal set is lost |
| CandidateSearch.ChooseSplit | src/cluster_linearize.h:920-953 | picks an undecided ancestor of the first undecided transaction whose split leaves the fewest undecided, the larger part first, and among equals the first position, that is the highest individual feerate |
| SearchSteps.FewerSubsets | src/cluster_linearize.h:937-941 | comparing the two counts, larger first, is comparing the numbers of subsets 2^I + 2^E that the split leaves |
| CandidateSearch.Split | src/cluster_linearize.h:895-967 | drops the item exactly if it cannot improve on the best set by the tests made, and otherwise splits it at the best place into exactly the two halves; keeps the invariants of the queue, including that index plus undecided count stay within the capacity |
| CandidateSearch.StartQueue | src/cluster_linearize.h:781-800 | the undecided sets of the items are the connected components of what is left, those with the first transactions first, with nothing included; the best set is the given one or the first component; some optimal set fits one of the items |
| CandidateSearch.Step | src/cluster_linearize.h:981-1003 | processing either end of the queue keeps all invariants and never touches the items in front of it |
| CandidateSearch.FindCandidateSet | src/cluster_linearize.h:740-1009 | what it returns is the outcome of a run of the search as a transition system, with as many splits as it reports, that emptied its queue or reached the limit; a topologically valid set no worse than the one given; below the limit no topologically valid set has higher feerate, whatever the random swaps; and a limit of 2^n for n transactions left is never reached |
| SearchSteps.SplitWeighsLess | src/cluster_linearize.h:955-966 | a split replaces an item by two that together leave fewer sets of transactions open |
| SearchSteps.RunWeighsLess | src/cluster_linearize.h:981-1003 | in every run, the splits made and the sets left open are together no more than the sets open at the start |
| SearchSteps.SearchBounded | src/cluster_linearize.h:740-1009 | every search, with any limit and any swaps, makes fewer splits than there are sets of the transactions left |
| SearchSteps.NothingToGain | src/cluster_linearize.h:908-917 | a search from a set that no single transaction beats makes no split and returns that set |
| CandidateSearch.OptimalExists | src/cluster_linearize.h:740-747 | a non-empty subset has a best topologically valid set |
| SearchFinders.SearchCandidateFinder.constructor | src/cluster_linearize.h:692-715 | the internal graph is the given one with positions in decreasing order of feerate |
| SearchFinders.SearchCandidateFinder.FindCandidateSet | src/cluster_linearize.h:740-1009 | the guarantees of the search, in original positions: the reported steps are those of a run on the sorted graph, and 2^n of them always suffice |
| SearchFinders.SearchCandidateFinder.MarkDone | src/cluster_linearize.h:1015-1021 | the transactions left are those not done |
| SearchFinders.ImageOptimal | src/cluster_linearize.h:668-682 | a set is a best one exactly when its renaming is a best one of the renamed graph |
| Linearization.Linearize | src/cluster_linearize.h:1042-1118 | returns a linearization whose diagram lies nowhere below the old one, within the iteration limit; if it reports optimality, no linearization is better anywhere; the iterations reported are those that a ledger of its rounds accounts for; and with more than SetupCost(n) + (n + 1) * (BaseCost(n) + 2^n) iterations it always reports optimality |
| LinearizationBudget.RoundBounded | src/cluster_linearize.h:1078-1093 | the search of a round makes fewer steps than there are sets of the transactions left |
| LinearizationBudget.RoundEnough | src/cluster_linearize.h:1078-1093 | with enough iterations left for the rounds to come, the search of a round is completed, and enough are left after it |
| LinearizationBudget.EnoughIterations | src/cluster_linearize.h:1042-1118 | every way of spending enough iterations ends with an optimal result |
| Linearization.InitialSet | src/cluster_linearize.h:1070-1076 | a topologically valid set that neither a remaining ancestor set nor the first old chunk beats |
| Linearization.ChooseSet | src/cluster_linearize.h:1070-1103 | the set to move first is topologically valid, safe for what remains of the old linearization, and a best one if the search finished; the search starts from a set that no remaining ancestor set and no first old chunk beats, with half of what is left of the iterations |
| Linearization.OutputSet | src/cluster_linearize.h:1069-1106 | moving the chosen set keeps the output topological and at least as good as the old linearization |
| Linearization.KeepingEnd | src/cluster_linearize.h:1034-1036 | an output built from safe sets is at least as good as the old linearization |
| Linearization.AheadEnd | src/cluster_linearize.h:1034-1036 | an output built from best sets is at least as good as every linearization |
| MergeLinearization.SafeInBoth | src/cluster_linearize.h:1341-1352 | the intersected chunk is safe to move first in both linearizations |
| MergeLinearization.MergeLinearizations | src/cluster_linearize.h:1325-1361 | returns a linearization whose diagram lies nowhere below either input |
| Passes.PassRegroups | src/cluster_linearize.h:1148-1158 | the groups of a pass are a topological regrouping whose diagram lies nowhere below the order passed over |
| Passes.PassImproves | src/cluster_linearize.h:1139-1141 | one forward pass gives an equal or better topological order |
| Passes.StepPeak | src/cluster_linearize.h:1267-1293 | neither merging nor swapping a group of higher feerate with the one before it lowers a peak |
| Passes.PassChunksConnected | src/cluster_linearize.h:1142 | after one forward pass, its groups are the chunks, and every chunk is connected |
| TreePasses.TreePassOptimal | src/cluster_linearize.h:1143-1145 | a pass is optimal when any two descendants of a transaction are related |
| PostGuarantees.BackwardImproves | src/cluster_linearize.h:1139-1141 | one backward pass gives an equal or better linearization |
| PostGuarantees.BackwardChunksConnected | src/cluster_linearize.h:1142 | after one backward pass, its groups turned around are the chunks, and every chunk is connected |
| PostGuarantees.PostImproves | src/cluster_linearize.h:1126-1134 | the result is a linearization whose diagram lies nowhere below the input |
| PostGuarantees.PostConnected | src/cluster_linearize.h:1127 | the resulting chunks are connected |
| PostGuarantees.PostOptimalForTrees | src/cluster_linearize.h:1128-1129 | for graphs with at most one parent each, or at most one child each, no linearization is better anywhere |
| MovedLeaf.PostMovedLeaf | src/cluster_linearize.h:1130-1134 | moving a leaf to the end and postlinearizing gives a result at least as good as before |
| MovedLeaf.PostReplacedLeaf | src/cluster_linearize.h:1130-1134 | the same with the fee of the leaf increased |
| PostLinearization.AddTransaction | src/cluster_linearize.h:1243-1256 | the links then describe the groups with the new transaction settled |
| PostLinearization.SettleEntries | src/cluster_linearize.h:1258-1294 | the merge and swap loop ends, and the links describe the settled groups |
| PostLinearization.ChainSwap | src/cluster_linearize.h:1281-1293 | relinking three groups swaps two of them in the circular list |
| PostLinearization.HoldsMerge | src/cluster_linearize.h:1267-1280 | after a merge the links describe the list with the two groups joined |
| PostLinearization.HoldsSwap | src/cluster_linearize.h:1281-1293 | after a swap the links describe the list with the two groups exchanged |
| PostLinearization.WriteBack | src/cluster_linearize.h:1297-1317 | following the links writes exactly the concatenated groups, in the direction of the pass |
| PostLinearization.RunPass | src/cluster_linearize.h:1233-1318 | one pass in place is the pass on lists |
| PostLinearization.PostLinearize | src/cluster_linearize.h:1136-1319 | the array becomes the two passes of its old contents: a linearization at least as good |
| FixLinearizations.FixedTopological | src/cluster_linearize.h:1364-1393 | the result is a topological order of the same transactions |
| FixLinearizations.FixedUnchanged | src/cluster_linearize.h:1364-1393 | the result equals the input exactly for a topological input |
| FixLinearizations.FixedKeepsOrder | src/cluster_linearize.h:1363-1367 | two transactions are only exchanged if an ancestor of the first is, or comes after, the second |
| FixLinearizations.FixLinearization | src/cluster_linearize.h:1364-1393 | the loops in place compute this result |
| CheckQueues.BatchFits | src/checkqueue.h:116-124 | a batch has at least one check and never more than are queued |
| CheckQueues.BatchFair | src/checkqueue.h:116-121 | a batch is one check, or at most `nBatchSize` and the share of each worker, and it is the largest such number |
| CheckQueues.AnnounceWakes | src/checkqueue.h:183-188 | after adding two or more checks no worker stays asleep; after adding one, exactly one that was asleep has been woken, if any was; nothing else changes |
| CheckQueueInvariants.StepInv | src/checkqueue.h:72-189 | every step of every thread keeps the invariant |
| CheckQueueInvariants.AccountJudged | src/checkqueue.h:83-92 | accounting for a batch keeps: a check that is neither queued nor in a batch ran without error, or an error of this round is recorded |
| CheckQueueInvariants.ExecuteInv | src/checkqueue.h:128-134 | executing a check keeps the invariant |
| CheckQueueInvariants.LeaveCore | src/checkqueue.h:99-106 | the invariant holds again for the next round after `Complete` returns |
| CheckQueueRuns.CompleteVerdict | src/checkqueue.h:20-31 | in every run, `Complete` returns none exactly when every check added since it last returned was executed and returned none, and otherwise a value that one of these checks returned |
| CheckQueueRuns.RunAtMostOnce | src/checkqueue.h:116-135 | in every run, no check is executed twice, and each in the round it was added to |
| CheckQueueRuns.EveryCheckHeldOnce | src/checkqueue.h:45-63 | in every reachable state, the counters are exact: unfinished checks are the queued ones and those in batches, each in one place; idle and total threads are counted |
| CheckQueueRuns.BatchInRun | src/checkqueue.h:116-127 | in every run, a batch comes from the back of the queue and is a fair one for the positive number of workers counted |
| CheckQueueRuns.SleepingMasterAwaited | src/checkqueue.h:88-110 | in every reachable state, a master asleep without notification faces an empty queue and a worker that holds a batch |
| CheckQueueRuns.NeverStuck | src/checkqueue.h:72-137 | until `Complete` returns, some step other than a spurious wake-up is possible |
| CheckQueueRuns.CompleteTerminates | src/checkqueue.h:72-137 | a run without spurious wake-ups during `Complete` has a bounded number of steps before it returns |
| CheckQueueLoops.Frame.Run | src/checkqueue.h:128-134 | executes checks up to the first error, as the single steps do; without work to do, the local result is left as it was |
| CheckQueueLoops.CheckQueue.Account | src/checkqueue.h:83-96 | updates the fields as the step of the state machine: the finished checks are no longer to do, and the first error of a round stays recorded |
| CheckQueueLoops.CheckQueue.Continue | src/checkqueue.h:97-126 | takes a fair batch from the back, returns the result and resets it, or waits; nothing is to be executed once an error is recorded |
| CheckQueueLoops.CheckQueue.WakeUp | src/checkqueue.h:107-110 | leaves the idle count as the step of the state machine |
| CheckQueueLoops.CheckQueue.Add | src/checkqueue.h:171-182 | queues the checks and counts them |
| CheckQueueSimulation.Lock | src/checkqueue.h:80-127 | what a thread does from the top of `Loop` until it releases the mutex or waits is one step of the whole state machine, for the shared fields, its own variables and the event |
| CheckQueueSimulation.Wake | src/checkqueue.h:97-127 | the same from the return of the wait on, spurious or not |
| CheckQueueSimulation.Run | src/checkqueue.h:128-134 | executing a batch is a run of steps of the state machine, one per check, after which the thread may take the mutex again |
| CheckQueueSimulation.Add | src/checkqueue.h:171-182 | the critical section of `Add` is a step of the state machine |
| CheckQueueSimulation.ReturnedVerdict | src/checkqueue.h:20-31 | what the object returns from `Complete` after any run is none exactly when every check added since the previous return was executed and returned none, and otherwise what one of them returned |
| BitFlags.BitPackedFlags.constructor | src/cuckoocache.h:63-70 | every flag there is memory for is set; there is memory for all of them exactly when the size is at most 0xFFFFFFF8, and for none otherwise |
| BitFlags.BitPackedFlags.Setup | src/cuckoocache.h:81-85 | the same for the new number of entries |
| BitFlags.BitPackedFlags.BitSet | src/cuckoocache.h:93-96 | sets one flag and changes no other |
| BitFlags.BitPackedFlags.BitUnset | src/cuckoocache.h:104-107 | clears one flag and changes no other |
| CuckooTables.Locations | src/cuckoocache.h:240-250 | eight locations, all inside the table |
| CuckooTables.LocationScaled | src/cuckoocache.h:240-250 | each location is its hash scaled from 32 bits down to the size of the table |
| CuckooTables.FirstVictim | src/cuckoocache.h:435 | the special index is no location, and the first eviction takes the second location |
| CuckooTables.VictimIsNext | src/cuckoocache.h:435 | later evictions take the location after the one evicted from last, with the first after the eighth |
| CuckooTables.VictimRepeats | src/cuckoocache.h:421-435 | the slot evicted from last is evicted from again exactly when its first two places among the locations are neighbours |
| CuckooTables.EqualHashesRepeat | src/cuckoocache.h:421-435 | an instance: with equal hashes the element just put in is moved out again |
| CuckooTables.CuckooConserves | src/cuckoocache.h:411-444 | eviction conserves the kept elements and the new one, but for the dropped one, and keeps every kept element at one of its own locations |
| CuckooTables.CuckooLoad | src/cuckoocache.h:411-444 | inserting a recent element adds at most one recent entry and no old one |
| CuckooTables.OpenSlotLosesNothing | src/cuckoocache.h:397-445 | nothing is dropped exactly when the element is already there or the path of evictions reaches an open location within the depth limit |
| CuckooTables.CuckooFollowsPath | src/cuckoocache.h:411-444 | otherwise the element dropped is the last one on that path, and every one before it is in the slot it was moved to |
| CuckooRuns.InsertedConserves | src/cuckoocache.h:392-445 | an element already there is kept and nothing is lost; otherwise at most one of the old elements and the new one is lost |
| CuckooLaws.CuckooKeepsEpochs | src/cuckoocache.h:411-444 | eviction conserves the kept elements of each epoch and the new one, but for the dropped one: every element moves with its epoch |
| CuckooLaws.InsertedJoins | src/cuckoocache.h:403-444 | an element that is there becomes recent and kept in its first slot and no other slot changes; any other joins the recent ones, at the cost of at most one element |
| CuckooLaws.EpochCheckedLaws | src/cuckoocache.h:286-318 | above zero the counter is decremented and the table left alone; a scan that finds fewer recent elements than an epoch holds only resets the counter; otherwise exactly the recent elements stay, as old ones |
| CuckooLaws.InsertKeeps | src/cuckoocache.h:286-318 | an insertion without ageing loses no kept element of either epoch but the dropped one |
| CuckooLaws.InsertAges | src/cuckoocache.h:286-318 | an insertion with ageing loses exactly the old elements before the new one joins, and restarts the counter |
| CuckooLaws.InsertAgesNew | src/cuckoocache.h:286-318 | with an element not there before, only the recent elements, now old, and that element remain, but for the dropped one |
| CuckooLaws.AgeingApart | src/cuckoocache.h:268-318 | in every run, at least an epoch size of insertions lies between two ageings |
| CuckooRuns.EpochCheckedSound | src/cuckoocache.h:286-318 | after the epoch check there is room for one more recent entry within the bound |
| CuckooRuns.KeptIsFound | src/cuckoocache.h:474-484 | every kept entry is found |
| CuckooRuns.ErasedStillFound | src/cuckoocache.h:450-464 | erasing does not change what is found |
| CuckooLaws.EraseLaws | src/cuckoocache.h:466-484 | erasing an element that is found opens one of its locations; one that is not found changes nothing |
| CuckooLaws.EraseMarksFirst | src/cuckoocache.h:474-484 | the first location that holds the element is no longer kept, no other slot changes, and exactly that copy leaves the kept elements of its epoch |
| CuckooRuns.RunSound | src/cuckoocache.h:397-445 | in every state of every run: kept entries are at their own locations and are found, recent entries plus the counter stay within `epoch_size + max(1, epoch_size / 16)`, and all kept entries within twice that |
| CuckooCaches.Cache.constructor | src/cuckoocache.h:336-349 | an empty table waiting for a whole epoch, whose size is 45% of the table in 32-bit arithmetic; it is sound exactly when the size is at most 0xFFFFFFF8 |
| CuckooCaches.Cache.EpochCheck | src/cuckoocache.h:286-318 | the scans and the ageing loop do what the epoch check means, of which `CuckooLaws.EpochCheckedLaws` gives the laws |
| CuckooCaches.Cache.Insert | src/cuckoocache.h:397-445 | the loops in place compute the insertion, and the cache stays sound |
| CuckooCaches.Cache.Contains | src/cuckoocache.h:474-484 | finds exactly the elements at their locations, and when asked to erase does what `CuckooLaws.EraseMarksFirst` says |
| Positional.Base58Room | src/base58.cpp:98-99 | 256^n < 58^(138n/100 + 1) with floor division |
| Positional.Base256Room | src/base58.cpp:54-55 | 58^n < 256^(733n/1000 + 1) with floor division |
| Positional.ValToDigits | src/base58.cpp:40-127 | a digit string without leading zero is the canonical one of its value |
| Base58s.LetterDigit | src/base58.cpp:19-38 | the table inverts the alphabet |
| Base58s.AlphabetExact | src/base58.cpp:19-20 | the alphabet is exactly the digits and letters without 0, I, O and l |
| Base58s.AlphabetAscending | src/base58.cpp:19-20 | its letters ascend in ASCII |
| Base58s.EncodeMeans | src/base58.cpp:89-127 | an encoding is one `1` per leading zero byte and then the digits of the same number without leading zero |
| Base58s.KnownText | src/base58.cpp:89-127 | an instance |
| Base58s.DecodeIff | src/base58.cpp:40-127 | decoding succeeds with x exactly for the encoding of x between spaces, within the limit |
| Base58s.RoundTrip | src/base58.cpp:40-127 | decoding an encoding gives back every byte string within the limit |
| Base58s.EncodeDecoded | src/base58.cpp:40-127 | a text that decodes is the encoding of the result between spaces |
| Base58Codecs.MultiplyAdd | src/base58.cpp:63-71 | the carry loop multiplies and adds in place; nothing is left to carry when the buffer is exhausted, and the used digits are the canonical ones |
| Base58Codecs.EncodeBase58 | src/base58.cpp:89-127 | the loops compute the encoding |
| Base58Codecs.DecodeCString | src/base58.cpp:40-87 | the loops compute the decoding, including every early failure |
| Base58Codecs.DecodeBase58 | src/base58.cpp:129-135 | the same for every text, also with zero characters in it |
| Base58Codecs.EncodeBase58Check | src/base58.cpp:137-144 | encodes the input followed by four bytes of its hash |
| Base58Codecs.DecodeBase58Check | src/base58.cpp:146-169 | succeeds with x exactly when the text decodes to x followed by four bytes of its hash |
| Base58Codecs.CheckRoundTrip | src/base58.cpp:137-169 | that is exactly for the checked encodings of x between spaces, within the saturated limit |
| Bech32Polys.NextLinear | src/bech32.cpp:177-213 | one step of the reduction is linear |
| Bech32Polys.NextKernel | src/bech32.cpp:177-213 | one step loses no remainder |
| Bech32Polys.RunXor | src/bech32.cpp:130-216 | the remainder of a sum of lists is the sum of their remainders |
| Bech32Polys.WindowDetected | src/bech32.cpp:130-216 | two different lists of equal length that agree outside a window of six consecutive positions never have the same remainder |
| Bech32Field.Primitive | src/bech32.cpp:165-168 | no power of e below 1023 is one |
| Bech32Field.IsPower | src/bech32.cpp:165-173 | every element of GF(1024) but zero is a power of e |
| Bech32Field.PowersApart | src/bech32.cpp:165-175 | multiplication by two powers of e less than 1023 apart agrees on zero only |
| Bech32Errors.StepsAll | src/bech32.cpp:169-175 | the generator vanishes at three roots: a step of the reduction multiplies the value there by the root |
| Bech32Errors.RootsOfGenerator | src/bech32.cpp:169-173 | these roots are e^997, e^998 and e^999 |
| Bech32Errors.RunAtRoot | src/bech32.cpp:130-216 | the remainder of a list has the same value at each root as the list |
| Bech32Errors.ThreePowers | src/bech32.cpp:172-175 | three equations in three different powers of e are solved by zeros only |
| Bech32Errors.ErrorsDetected | src/bech32.cpp:139-141 | two different lists of equal length that differ in at most three positions, all within 1023 consecutive ones, never have the same remainder, whatever precedes them |
| Bech32Errors.AcceptedApart | src/bech32.cpp:139-141 | two different lists of at most 1023 values accepted for the same human-readable part and encoding differ in at least four places |
| Bech32Errors.TextsApart | src/bech32.cpp:311-339 | different human-readable parts and values of equal lengths accepted for the same encoding differ in at least four places, counting characters of the human-readable part twice |
| Bech32Errors.PartsApart | src/bech32.cpp:311-339 | values accepted for one human-readable part are not accepted for another that differs in one character |
| Bech32Polys.ChecksumIff | src/bech32.cpp:341-353 | exactly one list of six values completes a list to a given remainder, namely the unpacked one |
| Bech32s.VerifyIff | src/bech32.cpp:326-353 | values are accepted as an encoding exactly when they end in its checksum |
| Bech32s.DecodeIff | src/bech32.cpp:357-400 | decoding gives an encoding, human-readable part and data exactly for the texts of one case, within the limit, that are their encoding up to case |
| Bech32s.RoundTrip | src/bech32.cpp:357-400 | every non-empty printable human-readable part without upper case and every list of 5-bit values is decoded from its encoding |
| Bech32s.RoundTripIff | src/bech32.cpp:357-400 | for parts without upper case, it is decoded only then |
| Bech32s.EncodeDecoded | src/bech32.cpp:373-400 | a decoded text is, in lower case, the encoding of the result |
| Bech32Texts.SymbolsAreCharacters | src/bech32.cpp:22-23 | the symbols are the characters of the set, in order |
| Bech32Texts.KnownBech32 | src/bech32.cpp:357-371 | an instance, which pins the constant of Bech32: "a12uel5l" (BIP 173) |
| Bech32Texts.KnownBech32m | src/bech32.cpp:357-371 | an instance, which pins the constant of Bech32m: "a1lqfn3a" (BIP 350) |
| Bech32Codecs.Advance | src/bech32.cpp:177-213 | one round of the loop is a step of the reduction plus the value |
| Bech32Codecs.ComputePolyMod | src/bech32.cpp:130-216 | the loop computes the remainder |
| Bech32Codecs.PreparePolynomialCoefficients | src/bech32.cpp:311-324 | position by position: the high bits of the human-readable part, a zero, its low bits, then the values |
| Bech32Codecs.VerifyChecksum | src/bech32.cpp:326-339 | the encoding whose constant the remainder is |
| Bech32Codecs.CreateChecksum | src/bech32.cpp:341-353 | the six values of the checksum |
| Bech32Codecs.CheckCharacters | src/bech32.cpp:286-309 | the errors are exactly the unprintable characters and the letters of another case than the first letter, in order; there are none exactly for printable text of one case |
| Bech32Codecs.EncodeText | src/bech32.cpp:357-371 | the loops compute the encoding |
| Bech32Codecs.DecodeText | src/bech32.cpp:373-400 | the loops compute the decoding, including every failure |
| ArithUints.BaseUint.AddAssign | src/arith_uint256.h:129-139 | the sum modulo 2^BITS |
| ArithUints.BaseUint.SubAssign | src/arith_uint256.h:141-145 | the difference modulo 2^BITS |
| ArithUints.BaseUint.Negate | src/arith_uint256.h:71-78 | the two's complement |
| ArithUints.BaseUint.Increment | src/arith_uint256.h:167-174 | plus one modulo 2^BITS |
| ArithUints.BaseUint.Decrement | src/arith_uint256.h:184-191 | minus one modulo 2^BITS |
| ArithUints.BaseUint.MulAssign32 | src/arith_uint256.cpp:48-57 | the product modulo 2^BITS, with no step leaving 64 bits |
| ArithUints.BaseUint.MulAssign | src/arith_uint256.cpp:60-73 | the product modulo 2^BITS, also with itself, with no step leaving 64 bits |
| ArithUints.BaseUint.CompareTo | src/arith_uint256.cpp:102-111 | the numeric order |
| ArithUints.BaseUint.Bits | src/arith_uint256.cpp:155-168 | the position of the highest bit set plus one |
| ArithUints.BaseUint.ShiftLeft | src/arith_uint256.cpp:14-28 | multiplication by a power of two modulo 2^BITS, for any shift |
| ArithUints.BaseUint.ShiftRight | src/arith_uint256.cpp:31-45 | floor division by a power of two, for any shift |
| ArithUints.BaseUint.DivAssign | src/arith_uint256.cpp:76-99 | the floor quotient, with the remainder left over; an error and zero for a zero divisor |
| ArithUints.BaseUint.DivRound | src/arith_uint256.cpp:89-96 | a round conserves quotient times divisor plus remainder and halves the bound of the remainder |
| ArithUints.BaseUint.DivRounds | src/arith_uint256.cpp:89-97 | all rounds together conserve it too, and the remainder ends below the divisor |
| ArithUints.BitSet | src/arith_uint256.cpp:92 | setting the highest of the clear bits adds its power of two |
| Limbs.CarryStep | src/arith_uint256.h:132-137 | a limb of a carry loop conserves the value |
| Limbs.CompareAt | src/arith_uint256.cpp:102-111 | the highest differing limb decides |
| Compacts.SetCompact | src/arith_uint256.cpp:175-193 | the magnitude modulo 2^256; the overflow flag is set exactly when it does not fit, the sign exactly for a non-zero magnitude |
| Compacts.OverflowExact | src/arith_uint256.cpp:188-191 | the three-way test is exactly that the magnitude reaches 2^256 |
| Compacts.GetCompact | src/arith_uint256.cpp:195-216 | the compact form of the number, with its leading bytes as mantissa: it stands for the number with lower bytes cleared, exactly up to three bytes, and has the sign of a non-zero number |
| Compacts.CompactUnique | src/arith_uint256.cpp:195-216 | a number has only one compact form |
| Compacts.CompactCanonical | src/arith_uint256.cpp:175-216 | a word is the compact form of what it stands for exactly when it has no leading zeros and no bits that stand for nothing |
| Compacts.CompactExactIff | src/arith_uint256.cpp:195-216 | nothing is lost exactly when the bytes below the mantissa are zero |
| Compacts.KnownWords | src/arith_uint256.cpp:175-193 | instances that pin size, mantissa and sign of the compact form |
| Compacts.GetLow64 | src/arith_uint256.h:234-238 | the value modulo 2^64 |

## Left out

- DepGraphs.DepGraph.AddTransaction: position sets are unbounded, so a free position always exists; fees and sizes are unbounded integers throughout, because `int64_t` and `int32_t` overflow is not what the algorithms are about.
- AppendTopos.AppendTopo: `std::sort` is an insertion by the same order; likewise where positions are sorted by feerate.
- CandidateSearch.FindCandidateSet: the random swap of the first two items is an arbitrary choice, and the double-ended queue is a sequence with the reserved capacity as a bound.
- CheckQueueLoops.Frame.Run: what each check would return is a parameter; in the state machine it is an arbitrary choice recorded when the check is executed. Checks are named by number, and moving them is not modelled.
- CheckQueueLoops.CheckQueue.Add: the notification that follows is a step of the state machine only (`CheckQueues.Announce`).
- Thread creation, the stop request and the destructor of the check queue. The master does not call `Add` during `Complete`, as `CCheckQueueControl` ensures.
- CuckooCaches.Cache.constructor: the depth limit is a parameter, because the original takes a floating-point logarithm; `setup_bytes` is left out.
- CuckooCaches.Cache.Contains: concurrent readers are not modelled; every flag operation is a single step.
- CuckooTables.Locations: the eight hashes are an arbitrary function into 32-bit words.
- Base58Codecs.EncodeBase58Check: the hash is an arbitrary function to 32 bytes.
- Base58Codecs.DecodeCString: lengths beyond the range of `int`.
- Bech32Codecs.PreparePolynomialCoefficients: characters are unsigned bytes; where `char` is signed, bytes above 127 in the human-readable part expand differently.
- ArithUints.BaseUint.DivAssign: with a single limb the original's assignment of zero writes a second limb that is not there; the model clears the limbs there are.
- Bech32Errors.ErrorsDetected: not that four errors within 89 characters are detected, which rests on a search among codes and not on the roots of the generator.
- `LocateErrors` and the tables for GF(1024): mainly table computation, with a heuristic choice between the encodings.
- DepGraphs.DepGraph.Remapped: stated for graphs without cycles, because the rebuild uses reduced parents only.
- Sanity checks, memory usage and sharing of linearization pieces in the cluster code.
- Conversion of integers to and from text, bytes and `double`, and bitwise operators on whole numbers.
- The template protocol server itself, networking, keys, serialization, chain parameters and logging.
