# Verified model of RLinf's balancing, packing, replay and transfer algorithms

RLinf trains policies with reinforcement learning. Around the libraries it drives it has a
number of self-contained algorithms and stateful containers, and this project models them in
Dafny and proves what they are for:

- **Length balancing** (`rlinf/utils/data_iter_utils.py`): the k-way largest-differencing
  partitioner with its heap of states of k sorted sets, the best-fit-decreasing packer, and
  the retry loop that data-parallel ranks run in lockstep.
- **Turn packing and loss scaling** (`rlinf/data/io_struct.py`, `rlinf/algorithms/loss_scales.py`):
  turns whose tokens are a prefix of a later turn are folded into one row; masks, log-probs,
  advantages and scales are rewritten so that the training objective stays what it was.
- **Replay buffer and trajectory cache** (`rlinf/data/replay_buffer.py`): a flat buffer cut
  into slots that refines a FIFO map, and chunk sampling over memoised windows, cache hits and
  disk loads that refines a lookup in the concatenated window.
- **Rank-pairing transfer map** (`rlinf/utils/comm_mapping.py`): who sends how much to whom,
  and what arrives.
- **Priority store, batch iterator, group down-sampling, GAE and done-flag masks**
  (`rlinf/data/priority_store.py`, `rlinf/data/io_struct.py`, `rlinf/utils/down_sampling.py`,
  `rlinf/algorithms/advantages.py`, `rlinf/algorithms/utils.py`, `rlinf/data/embodied_io_struct.py`).

Code that changes state is modelled by classes and methods with loops; each is proved against
a specification function, and the theorems are about those functions.

## What to know before reading

- Integers are unbounded (Python), scales, losses, penalties and log-probs are exact reals.
- A failing `assert` or a raised exception is an error result (`None`, `false`, `Err`, `Raised`);
  where the text says that an assert never fires, the body contains it and it is proved.
- `hide F;` at the head of a body only keeps a definition out of one proof; nothing is assumed.
- Ties in the heap: two states never compare equal as long as they hold different items, so
  which state is popped is determined and the heap is modelled as "take the least state"
  (`PartitionFunction.PopsAreDetermined`, for every round of every run).

### Results that hold only under a condition

- **Packing** is meant to leave the objective unchanged. The overlap guard at
  `rlinf/data/io_struct.py:1390` lets a pair of turns through that share exactly one response
  position. `PackingLimits.PackingExact` proves that, with positive scales, the objective is
  preserved for every loss *if and only if* no linked turns share a response position, and
  `PackingLimits.SharedPositionBreaksObjective` gives two turns for which it is not.
- **Loading a checkpoint** replaces the index without a new index version
  (`rlinf/data/replay_buffer.py:997-1119`), so a window memo that was current still counts as
  current. `clear()` (lines 900-913) keeps version and memo too, which matters only when a load
  follows it.
  `LoadCheckpoint` proves that the buffer is consistent afterwards whenever no memo hits and,
  when one hits, over whatever list it was taken, *if and only if* nothing was loaded or the
  memo's ids are the loaded window and each memoised count is the loaded one.
  `ReplayBuffer.SampleClearLoad` draws the consequence for sample, clear, load, and
  `BufferState.StaleMemo` and `ReplayBuffer.StaleRun` are failing inputs.
- **The reward assert** of packing (`rlinf/data/io_struct.py:1434`) expects folded turns to
  share their reward, while rewards are recorded per turn. `PackTrajBatch` returns `None`
  exactly when some chain mixes rewards; `PackTrajBatch.SameRewardsAgree` shows that one reward
  per trajectory is enough, `PackingLimits.MixedRewardsFail` is a failing batch.
- **The retry loop** ends without a failing assert, for ranks with equally many sequences,
  *if and only if* no single sequence is over the token budget
  (`MicroBatching.LockstepTermination`; `MicroBatching.DynamicTermination` from the packed start on).
- **The virtual pipeline** rounds the starting count up to a multiple of the stage group, but
  each retry adds one, and `rlinf/utils/data_iter_utils.py:692` asserts a multiple afterwards.
  `VirtualPipeline.SplitDynamicBatchSize` proves that the assert holds *if and only if* the
  number of failed rounds is such a multiple, `VirtualPipeline.RoomyStart` gives room at the
  start that makes it zero, and `VirtualPipeline.DivisibilityLost` is a failing batch.
- **Flattening a masked trajectory** (`rlinf/data/embodied_io_struct.py:398-432` followed by
  `rlinf/data/replay_buffer.py:720-731`) recomputes where the epoch heads are from the lengths.
  `FieldMask.ReflattenExact` proves that it keeps the selected rows *if and only if* every
  epoch selects the same number of steps; `FieldMask.UnevenEpochsFail` is a failing mask.
- **Down-sampling** fails when a group must be thinned out while neither penalty is switched
  on: the penalty is then the number 0, which cannot be zipped
  (`rlinf/utils/down_sampling.py:109-122`). `DownSample` returns `None` exactly then.

## Modules

| file | content |
|---|---|
| `Sequences.dfy`, `Arithmetic.dfy` | sums, permutations, concatenations; the division facts the solver needs spelled out |
| `Differencing.dfy`, `PartitionFunction.dfy`, `LongestApart.dfy`, `KarmarkarKarp.dfy` | the differencing step and its invariants, the partition theorems, where the two longest go, the classes and loops |
| `BinPacking.dfy` | best-fit-decreasing packing and its bin counts |
| `MicroBatching.dfy`, `VirtualPipeline.dfy` | the retry loop over all ranks, and the divisibility it can lose |
| `Turns.dfy`, `Grouping.dfy`, `TurnPacking.dfy`, `GreedyLinks.dfy`, `RowFolding.dfy`, `PackedBatch.dfy`, `PackTrajBatch.dfy`, `PackingLimits.dfy` | rows and objective, grouping dictionaries, chains, which links are made, folding one chain, the whole batch, the code, and where it stops being exact |
| `LossScales.dfy`, `LossWeights.dfy` | the scale functions and what they weigh |
| `CacheLayout.dfy`, `TrajectoryCache.dfy` | ring of slots and buffer layout, the cache class |
| `WindowLookup.dfy`, `Sampling.dfy`, `BufferState.dfy`, `CheckpointShards.dfy`, `ReplayBuffer.dfy` | index arithmetic, filling a batch, consistency of index, window, disk and cache, shards, the buffer class |
| `CommMapping.dfy` | the transfer map and its delivery |
| `PriorityStore.dfy`, `BatchIterator.dfy`, `DownSampling.dfy`, `Gae.dfy`, `ChunkLayout.dfy`, `FieldMask.dfy` | the other components |

## Model

| member | source | states |
|---|---|---|
| `Differencing.PartLessOrder` | rlinf/utils/data_iter_utils.py:317-322 | the three-level comparison of sets is a strict order in which any two different sets are comparable |
| `Differencing.PartLessMeans` | rlinf/utils/data_iter_utils.py:317-322 | the smaller sum is less, among equal sums the fewer items, among those the first items that differ decide, by index and length |
| `Differencing.SortDescendingSorts` | rlinf/utils/data_iter_utils.py:332 | re-sorting leaves the sets of a state in decreasing order |
| `Differencing.SortHeld` | rlinf/utils/data_iter_utils.py:332 | ... and holds exactly the same items |
| `Differencing.MergeHeld` | rlinf/utils/data_iter_utils.py:343-346 | a merged state holds exactly the items of both, each once |
| `Differencing.MergeJoins` | rlinf/utils/data_iter_utils.py:343-346 | a merge joins the i-th largest set of one state with the i-th smallest of the other and puts the joined sets in decreasing order |
| `Differencing.MergeOk` | rlinf/utils/data_iter_utils.py:343-346 | a merge of states with m and m' items keeps k sets in order, and exactly min(m + m', k) of them are non-empty; the item-count tie-break is what makes this hold for zero lengths |
| `Differencing.MergeSpread` | rlinf/utils/data_iter_utils.py:343-350 | the spread of a merged state is at most the larger of the two spreads |
| `Differencing.MergeUniform` | rlinf/utils/data_iter_utils.py:343-346 | merging states whose sets all hold equally many items gives such a state again |
| `Differencing.LeastIndexMinimal` | rlinf/utils/data_iter_utils.py:352-358 | the state taken is least in the heap order |
| `Differencing.LeastIsFurthest` | rlinf/utils/data_iter_utils.py:352-358 | its largest and smallest sums are at least as far apart as those of any other state, and among equally far ones its largest set is not the lesser |
| `Differencing.StepTakesFurthest` | rlinf/utils/data_iter_utils.py:388-393 | a round takes the state furthest apart out of the pool, then the one furthest apart of the rest, and puts back the first merged with the second |
| `Differencing.PopIsDetermined` | rlinf/utils/data_iter_utils.py:352-358 | no two states with different items tie, so every heap pops the same state |
| `Differencing.StepApart` | rlinf/utils/data_iter_utils.py:388-395 | a round keeps every item in one state only and no state empty |
| `PartitionFunction.PopsAreDetermined` | rlinf/utils/data_iter_utils.py:388-395 | in every round of every run, from the initial pool on, both pops find one minimal state only |
| `Differencing.StepOk` | rlinf/utils/data_iter_utils.py:388-393 | popping two states and pushing their merge keeps every state well formed |
| `Differencing.StepHeld` | rlinf/utils/data_iter_utils.py:388-393 | ... and the pool holds the same items |
| `Differencing.StepSpread` | rlinf/utils/data_iter_utils.py:388-393 | ... and no spread exceeds a bound all spreads were within |
| `Differencing.RunKeeps` | rlinf/utils/data_iter_utils.py:388-395 | all of that over the whole run, down to the one final state |
| `Differencing.RunUniform` | rlinf/utils/data_iter_utils.py:388-395 | ... and uniform states end in a uniform state |
| `PartitionFunction.SortedItemsSorts` | rlinf/utils/data_iter_utils.py:370 | the items are sorted by length, equal lengths by index, and are those of the list |
| `PartitionFunction.InitialSpread` | rlinf/utils/data_iter_utils.py:374-386 | single items start with a spread of at most the longest length; with equal_size, blocks of k start with spreads of at most the widest block of the sorted list |
| `PartitionFunction.ImbalanceWithin` | rlinf/utils/data_iter_utils.py:374-386 | the bound is at most the longest length, and with equal_size at most longest minus shortest |
| `PartitionFunction.FinalOk` | rlinf/utils/data_iter_utils.py:388-395 | the final state holds all items in k ordered sets, min(n, k) of them non-empty, with a spread within the bound |
| `PartitionFunction.PartitionsCover` | rlinf/utils/data_iter_utils.py:334-341 | the k lists cover 0..n-1, every index exactly once |
| `PartitionFunction.PartitionsFilled` | rlinf/utils/data_iter_utils.py:334-341 | with n >= k no list is empty, even when lengths are zero |
| `PartitionFunction.PartitionsBalanced` | rlinf/utils/data_iter_utils.py:343-397 | any two loads differ by at most the longest length (with equal_size, by at most the widest block of the sorted list) |
| `PartitionFunction.PartitionsDescend` | rlinf/utils/data_iter_utils.py:332-341 | the lists come by decreasing load |
| `LongestApart.TwoLongestApart` | rlinf/utils/data_iter_utils.py:371-397 | cut into two or more partitions, two longest sequences never share one |
| `PartitionFunction.LoadBound` | rlinf/utils/data_iter_utils.py:343-397 | k times any load is at most the grand total plus k - 1 times that bound |
| `PartitionFunction.PartitionsEqual` | rlinf/utils/data_iter_utils.py:398-403 | with equal_size every list has n / k entries, so the assert never fires |
| `PartitionFunction.BalancedPartitionsOk` | rlinf/utils/data_iter_utils.py:407-444 | the promise of get_seqlen_balanced_partitions in one: k non-empty increasing lists covering 0..n-1 once, balanced as above |
| `PartitionFunction.ReverseIsInverse` | rlinf/utils/data_iter_utils.py:703-718 | on a permutation the reversed map is its inverse on both sides |
| `KarmarkarKarp.PartSet.Add` | rlinf/utils/data_iter_utils.py:308-310 | appends the item and keeps the sum the sum of the items |
| `KarmarkarKarp.PartSet.Merge` | rlinf/utils/data_iter_utils.py:312-315 | appends the other set's items one by one and keeps the sum, leaving the other set alone |
| `KarmarkarKarp.SortSets` | rlinf/utils/data_iter_utils.py:332 | sorts the set objects as the specification sorts their values |
| `KarmarkarKarp.AddEach` | rlinf/utils/data_iter_utils.py:330-331 | puts the i-th item into the i-th set |
| `KarmarkarKarp.MergeEach` | rlinf/utils/data_iter_utils.py:344-345 | merges the i-th largest set with the other state's i-th smallest |
| `KarmarkarKarp.State.constructor` | rlinf/utils/data_iter_utils.py:325-332 | a new state is the specified one, in fresh objects; its assert holds for one or k items |
| `KarmarkarKarp.State.Merge` | rlinf/utils/data_iter_utils.py:343-346 | a merge in place gives exactly the specified merge |
| `KarmarkarKarp.State.GetPartitions` | rlinf/utils/data_iter_utils.py:334-341 | the indices of every set in order |
| `KarmarkarKarp.LeastState` | rlinf/utils/data_iter_utils.py:389-390 | finds the least state of the pool |
| `KarmarkarKarp.InitialStates` | rlinf/utils/data_iter_utils.py:371-386 | the pool of initial states, one per item or one per block of k |
| `KarmarkarKarp.MergeTwo` | rlinf/utils/data_iter_utils.py:388-393 | one round of the loop is one step of the specification, in disjoint objects |
| `KarmarkarKarp.KarmarkarKarp` | rlinf/utils/data_iter_utils.py:301-404 | the whole partitioner computes the specified partitions; with equal_size its asserts hold |
| `KarmarkarKarp.CheckAndSortPartitions` | rlinf/utils/data_iter_utils.py:429-441 | sorts every list; the asserts on count, emptiness and coverage hold for any cover by non-empty lists |
| `KarmarkarKarp.GetSeqlenBalancedPartitions` | rlinf/utils/data_iter_utils.py:407-444 | returns the balanced partitions for any n >= k |
| `KarmarkarKarp.GetReverseIdx` | rlinf/utils/data_iter_utils.py:703-718 | the array written by index is the reversed map |
| `BinPacking.FindBestGroup` | rlinf/utils/data_iter_utils.py:470-478 | the first of the groups that fit with least room left over, or -1 when none fits |
| `BinPacking.PlaceFitsBest` | rlinf/utils/data_iter_utils.py:466-488 | a sequence joins the group that it leaves least room in, the first of those, and opens a new one exactly when it fits nowhere |
| `BinPacking.GetSeqlenBfdPartitions` | rlinf/utils/data_iter_utils.py:447-502 | raises exactly when a sequence is too long; otherwise the specified bins, and none of the asserts fires |
| `BinPacking.LongestFirstHolds` | rlinf/utils/data_iter_utils.py:459-460 | the order visits every index exactly once, by decreasing length, equal lengths in index order |
| `BinPacking.BfdOk` | rlinf/utils/data_iter_utils.py:459-502 | every index lands in exactly one bin, no bin is empty or over capacity, any two bins together are over capacity |
| `BinPacking.BinCount` | rlinf/utils/data_iter_utils.py:459-502 | with two bins or more, bins times capacity is less than twice the total length |
| `BinPacking.WithinTwiceOptimal` | rlinf/utils/data_iter_utils.py:459-502 | no packing under the same capacity uses half as many bins or fewer |
| `BinPacking.BinsAtMostSequences` | rlinf/utils/data_iter_utils.py:459-502 | at most as many bins as sequences, at least one for a non-empty batch |
| `MicroBatching.CutAndCheck` | rlinf/utils/data_iter_utils.py:553-588 | one rank's cut, and whether each of its micro-batches fits the token budget; stopping at the first that does not |
| `MicroBatching.CutAll` | rlinf/utils/data_iter_utils.py:553-591 | all ranks' cuts, and the all-reduced verdict |
| `MicroBatching.RetryInLockstep` | rlinf/utils/data_iter_utils.py:553-593 | the loop over all ranks: it ends as the specification does, with every rank's cut at its own count |
| `MicroBatching.StartCounts` | rlinf/utils/data_iter_utils.py:535-551 | each starting count is the least that is a multiple of the divisor, at least the minimum, at least the rank's own packed bins and, synchronised, every rank's |
| `MicroBatching.GetIteratorDynamic` | rlinf/utils/data_iter_utils.py:505-593 | the dict branch as a whole: least starting counts as above; the loop ends after the first round in which every cut fits, each rank having added one per failed round, and fails only when there is no such round; the final micro-batches are non-empty, within the budget and hold every sequence once; for synchronised ranks with n sequences each it ends normally exactly when no sequence is over the budget |
| `MicroBatching.SameStart` | rlinf/utils/data_iter_utils.py:541-551 | synchronised ranks start from the same count |
| `MicroBatching.StartPositive` | rlinf/utils/data_iter_utils.py:535-551 | the starting count is at least one, so partitions exist |
| `MicroBatching.StartMeans` | rlinf/utils/data_iter_utils.py:535-551 | the starting count is enough by that definition, and the least that is |
| `MicroBatching.RetryMeans` | rlinf/utils/data_iter_utils.py:553-593 | from any starting counts, equal or not, the loop ends after the first round in which all cuts fit, or fails when there is none |
| `MicroBatching.CutsAreGood` | rlinf/utils/data_iter_utils.py:553-588 | cuts that fit put every sequence into exactly one non-empty micro-batch within the budget |
| `MicroBatching.RetryFindsLeast` | rlinf/utils/data_iter_utils.py:553-593 | the loop stops at the least count from the start on that every rank can be cut into within the budget, the same on all ranks |
| `MicroBatching.RetryOnlyWorking` | rlinf/utils/data_iter_utils.py:553-593 | if it ends at all, it ends at such a count |
| `MicroBatching.FinestCutFits` | rlinf/utils/data_iter_utils.py:553-588 | cut into as many parts as sequences, a rank fits when no single sequence is over the budget |
| `MicroBatching.LongSequenceNeverFits` | rlinf/utils/data_iter_utils.py:553-588 | a sequence over the budget fits in no cut |
| `MicroBatching.StartAtMost` | rlinf/utils/data_iter_utils.py:535-551 | the packed start is at most n when each rank has n sequences and neither the minimum nor the rounding asks for more |
| `MicroBatching.DynamicTermination` | rlinf/utils/data_iter_utils.py:505-593 | from the packed start on, synchronised ranks with n sequences each leave with one count of at most n exactly when no sequence is over the budget |
| `MicroBatching.LockstepTermination` | rlinf/utils/data_iter_utils.py:553-593 | for ranks with n sequences and a start of at most n the loop ends exactly when no sequence is over the budget, all ranks leaving with the same count, at most n |
| `MicroBatching.RoomyCutFits` | rlinf/utils/data_iter_utils.py:343-397 | k parts fit as soon as total plus (k - 1) times longest is at most k budgets |
| `MicroBatching.LockstepBound` | rlinf/utils/data_iter_utils.py:535-593 | the final count is at most the larger of the start and any such k |
| `VirtualPipeline.SplitDynamicBatchSize` | rlinf/utils/data_iter_utils.py:674-700 | with a virtual pipeline the divisibility assert holds exactly when the number of failed rounds is a multiple of the stage group; without one the function fails only with the loop |
| `VirtualPipeline.RaisedDivides` | rlinf/utils/data_iter_utils.py:591-593 | a count that started as a multiple is one again exactly after a multiple of rounds |
| `VirtualPipeline.RoomyStart` | rlinf/utils/data_iter_utils.py:548-593 | the loop ends at once when at the start every rank has room for its total plus (c - 1) times its longest sequence in c budgets |
| `VirtualPipeline.DivisibilityLost` | rlinf/utils/data_iter_utils.py:548-593 | lengths 3, 3, 2, 2, 2 with budget 6 start at two micro-batches and end at three |
| `Arithmetic.RoundUp` | rlinf/utils/data_iter_utils.py:297-298 | the least multiple of b that is at least a |
| `Grouping.GroupBy` | rlinf/data/io_struct.py:1369-1373 | the dictionary of index lists: keys in order of appearance, members in order, every item in its key's list |
| `TurnPacking.ByPromptOrders` | rlinf/data/io_struct.py:1380 | the turns of a trajectory in order of prompt length |
| `GreedyLinks.OrderMeans` | rlinf/data/io_struct.py:1369-1380 | a trajectory's turns, all of them, by prompt length, turns of equal length in batch order |
| `GreedyLinks.LinkableMeans` | rlinf/data/io_struct.py:1384-1398 | two turns can be linked exactly when their responses share at most one position and the later one repeats all tokens of the earlier one |
| `GreedyLinks.FindRightFirst` | rlinf/data/io_struct.py:1382-1401 | the turn found is the first later one that is free and linkable; none is found only when every later one is taken or not linkable |
| `TurnPacking.PackMapOk` | rlinf/data/io_struct.py:1377-1401 | the chains are vertex disjoint, no key occurs among any prefixes, each chain stays in one trajectory in order of prompt length, each turn's tokens a prefix of the next one's |
| `GreedyLinks.FollowedByFirstFree` | rlinf/data/io_struct.py:1377-1401 | in the finished chains a turn is followed by y exactly when y is the first later turn of its trajectory that is linkable and not taken by an earlier turn |
| `GreedyLinks.NoLinkMissing` | rlinf/data/io_struct.py:1377-1401 | no link is missing: when x, in no prefix list, could be linked to a later y, then y already follows an earlier turn |
| `TurnPacking.ChainSpans` | rlinf/data/io_struct.py:1384-1391 | along a chain without shared positions any two response spans are disjoint |
| `TurnPacking.ChainTokens` | rlinf/data/io_struct.py:1392-1398 | any member's tokens are a prefix of the tokens of every later member, hence of the tail |
| `PackTrajBatch.FindSuffix` | rlinf/data/io_struct.py:1381-1401 | the inner loop links a turn to the first later free turn it can be linked to, if there is one |
| `PackTrajBatch.FindChains` | rlinf/data/io_struct.py:1369-1401 | the nested loops build exactly the specified pack map |
| `PackTrajBatch.FoldSuffixes` | rlinf/data/io_struct.py:1430-1473 | rewriting the rows in place folds every chain into its tail, and fails exactly when the turns of a chain carry different rewards; the assert on length never fires |
| `PackTrajBatch.PackTrajBatch` | rlinf/data/io_struct.py:1351-1498 | the whole function computes the specified packing, or fails exactly when some chain mixes rewards |
| `PackTrajBatch.SameRewardsAgree` | rlinf/data/io_struct.py:1434 | the reward assert holds when the turns of each trajectory share their reward |
| `PackTrajBatch.PackedRowCount` | rlinf/data/io_struct.py:1475-1485 | output rows number the input rows minus all prefixes |
| `PackTrajBatch.RowsStay` | rlinf/data/io_struct.py:1475-1491 | the rows that are in no prefix list stay, in batch order, and no others; a row without a chain is unchanged, a tail has its whole chain folded into it |
| `PackTrajBatch.GroupLevelScales` | rlinf/data/io_struct.py:1492-1496 | under group_level the same rows stay, and only their scales change, by rows after over rows before |
| `PackTrajBatch.PackedTokens` | rlinf/data/io_struct.py:1435-1466 | every response token keeps its own turn's advantage and log-prob, behind the same tokens, and the packed row has no other response token |
| `RowFolding.TokenKept` | rlinf/data/io_struct.py:1435-1442 | a folded row has at each turn's response token that turn's values |
| `RowFolding.PairFolded` | rlinf/data/io_struct.py:1435-1461 | two turns folded: at every position, shared ones included, the values of the turns that respond there are added, each scale raised by all response tokens over its own turn's |
| `RowFolding.FoldedSpan` | rlinf/data/io_struct.py:1463-1473 | a folded row runs from the first prompt to the last turn's end and is the last turn's row in what is not merged |
| `RowFolding.FoldedOutside` | rlinf/data/io_struct.py:1435-1461 | outside all responses a folded row has no advantage, log-prob or scale |
| `RowFolding.FoldKeepsMean` | rlinf/data/io_struct.py:1444-1466 | a folded row's masked mean is the sum of its turns' masked means, for every loss |
| `RowFolding.FoldedCount` | rlinf/data/io_struct.py:1445-1448 | the folded mask counts all turns' response tokens |
| `PackedBatch.PackingKeepsObjective` | rlinf/data/io_struct.py:1430-1485 | the sum of row means of scale times loss is the same before and after packing, for every loss that looks back only |
| `PackedBatch.PackingKeepsMean` | rlinf/data/io_struct.py:1494-1496 | under group_level the mean over rows is the same as well |
| `PackingLimits.PackingExact` | rlinf/data/io_struct.py:1390-1391 | with positive scales, packing preserves the objective of every loss if and only if no linked turns share a response position |
| `PackingLimits.UncleanRaises` | rlinf/data/io_struct.py:1390-1391 | otherwise the constant loss strictly gains weight |
| `PackingLimits.NoSharedSingleIsClean` | rlinf/data/io_struct.py:1390-1391 | if no two turns of a trajectory share exactly one response position, the condition holds |
| `PackingLimits.MixedRewardsFail` | rlinf/data/io_struct.py:1434 | two turns with different rewards that are linked, so that the reward assert fails |
| `PackingLimits.SharedPositionBreaksObjective` | rlinf/data/io_struct.py:1390-1391 | two turns that share one position, are packed, and change the objective |
| `LossScales.GroupScale` | rlinf/algorithms/loss_scales.py:22-52 | multiplies every row once, by rows times ranks over the batch size, and only as the first scale |
| `LossScales.ScaleAgent` | rlinf/algorithms/loss_scales.py:103-108 | the innermost loop multiplies the rows of one agent and no other |
| `LossScales.ScaleTraj` | rlinf/algorithms/loss_scales.py:94-108 | the loops over agents multiply each row of one trajectory exactly once |
| `LossScales.ScaleAll` | rlinf/algorithms/loss_scales.py:86-109 | the loops over trajectories and agents multiply every row exactly once |
| `LossScales.AgentScale` | rlinf/algorithms/loss_scales.py:55-109 | multiplies every row by 1 / agents / turns of the agent, only after group_scale and only once |
| `LossScales.TurnScale` | rlinf/algorithms/loss_scales.py:113-182 | multiplies every row by turns times response tokens over the agent's tokens, only after agent_scale and only once |
| `LossWeights.GroupSumsTotal` | rlinf/algorithms/loss_scales.py:86-99 | sums per group add up to the sum over all |
| `LossWeights.AgentTotal` | rlinf/algorithms/loss_scales.py:86-109 | after agent_scale every agent weighs 1 / A of its trajectory |
| `LossWeights.AgentScaleConserves` | rlinf/algorithms/loss_scales.py:86-109 | ... and every trajectory weighs one |
| `LossWeights.TurnWeightIs` | rlinf/algorithms/loss_scales.py:151-182 | after turn_scale a turn's weight is its token count times the agent's weight per token |
| `LossWeights.TurnTotal` | rlinf/algorithms/loss_scales.py:151-182 | ... every agent still weighs 1 / A |
| `LossWeights.TurnScaleConserves` | rlinf/algorithms/loss_scales.py:151-182 | ... and every trajectory one |
| `LossWeights.AgentObjective` | rlinf/algorithms/loss_scales.py:124-129 | an agent's row means add up to 1 / A of the mean over its response tokens |
| `LossWeights.TrajObjective` | rlinf/algorithms/loss_scales.py:124-129 | a trajectory's row means add up to the average over its agents of their token means |
| `CacheLayout.HoldsLastPuts` | rlinf/data/replay_buffer.py:196-216 | after any run of puts every retained id holds what was last put for it |
| `CacheLayout.RetainsLastInserts` | rlinf/data/replay_buffer.py:201-212 | ... and the retained ids are those of the last max_size fresh inserts, oldest first |
| `CacheLayout.SlotsApart` | rlinf/data/replay_buffer.py:201-212 | no two ids share a slot, all slots are in range |
| `CacheLayout.NextSlot` | rlinf/data/replay_buffer.py:204-209 | the next slot is occupied exactly when the cache is full, and then by the oldest id |
| `CacheLayout.TakeFresh` | rlinf/data/replay_buffer.py:203-212 | handing out the next slot keeps id-to-slot and slot-to-id inverse and retains what the FIFO map retains |
| `CacheLayout.InsertKeeps` | rlinf/data/replay_buffer.py:214-216 | writing a trajectory into its slot leaves every other id's rows alone |
| `CacheLayout.GrowKeeps` | rlinf/data/replay_buffer.py:151-180 | re-laying out the buffer for longer slots keeps every retained row |
| `TrajectoryCache.TrajectoryCache.constructor` | rlinf/data/replay_buffer.py:49-56 | an empty cache |
| `TrajectoryCache.TrajectoryCache.EnsureCapacity` | rlinf/data/replay_buffer.py:151-180 | slots long enough for the put, every retained trajectory unchanged |
| `TrajectoryCache.GrowBuffer` | rlinf/data/replay_buffer.py:163-180 | the copy loop moves every retained slot to its new place |
| `TrajectoryCache.TrajectoryCache.TakeSlot` | rlinf/data/replay_buffer.py:203-212 | the slot of a fresh id, after the oldest id has left if the cache was full |
| `TrajectoryCache.TrajectoryCache.Put` | rlinf/data/replay_buffer.py:196-216 | one put is one put of the FIFO map, including when the slots grow |
| `TrajectoryCache.TrajectoryCache.Get` | rlinf/data/replay_buffer.py:182-188 | exactly the fields and lengths last put for a retained id, nothing for any other |
| `TrajectoryCache.SliceFromBuffer` | rlinf/data/replay_buffer.py:116-134 | the slice from a slot is the trajectory stored there |
| `TrajectoryCache.TrajectoryCache.Clear` | rlinf/data/replay_buffer.py:218-224 | the empty cache again |
| `WindowLookup.BucketHolds` | rlinf/data/replay_buffer.py:625-635 | a sample below the total falls into exactly one trajectory, at a row that trajectory has; empty trajectories are never hit |
| `WindowLookup.LookupRefines` | rlinf/data/replay_buffer.py:625-635 | bucketing and reading the local row is reading the concatenation |
| `WindowLookup.ConcatRow` | rlinf/data/replay_buffer.py:824-835 | row l of part b is row l behind all earlier parts |
| `WindowLookup.MaskSplits` | rlinf/data/replay_buffer.py:650-682 | hits and misses together name every batch row exactly once |
| `WindowLookup.UniqueAscends` | rlinf/data/replay_buffer.py:684 | the missed ids are loaded once each, in ascending order |
| `Sampling.FillBatch` | rlinf/data/replay_buffer.py:809-822 | selected rows land at their batch positions, all other positions keep what they had |
| `Sampling.CachedRow` | rlinf/data/replay_buffer.py:670-671 | slot times slot length plus local index is where the cached row is |
| `Sampling.HitsSupply` | rlinf/data/replay_buffer.py:662-679 | the gathered cache rows are the wanted rows |
| `Sampling.LoadMisses` | rlinf/data/replay_buffer.py:685-693 | each missed trajectory is loaded once and starts where the earlier ones end |
| `Sampling.MissesSupply` | rlinf/data/replay_buffer.py:695-708 | the rows gathered from the concatenated loads are the wanted rows |
| `Sampling.BothFill` | rlinf/data/replay_buffer.py:662-710 | after both fills nothing of the uninitialised batch is left |
| `BufferState.LocatedIsDrawn` | rlinf/data/replay_buffer.py:617-646 | the located rows are those a plain lookup draws from the concatenated window |
| `BufferState.DrawnMeans` | rlinf/data/replay_buffer.py:617-646 | for every field, row i of the drawn batch is the row at the i-th sampled index of the concatenated window |
| `BufferState.CachedGrows` | rlinf/data/replay_buffer.py:500-504 | after an add the cache holds the last max_size ids of the list, as added |
| `BufferState.KnownGrows` | rlinf/data/replay_buffer.py:483-498 | after an add every id of the window is known with the right row count |
| `BufferState.MemoSurvives` | rlinf/data/replay_buffer.py:570-600 | a memo is right for a replaced list exactly when the window has the same ids and counts |
| `BufferState.MemoDecides` | rlinf/data/replay_buffer.py:570-600 | a memo, also one whose list was cleared since, is right for a list exactly when its ids are the window and each memoised count is the recorded one |
| `BufferState.StaleMemo` | rlinf/data/replay_buffer.py:1087-1099 | a memo taken over one trajectory is wrong for a loaded list of two |
| `ReplayBuffer.TrajectoryReplayBuffer.constructor` | rlinf/data/replay_buffer.py:234-326 | with auto-save off the cache is on and as large as the window |
| `ReplayBuffer.TrajectoryReplayBuffer.AddTrajectories` | rlinf/data/replay_buffer.py:440-515 | trajectories without samples are skipped, the others are appended in order, and the window keeps the last of them, as many as its size; index, disk, cache and memo stay consistent |
| `ReplayBuffer.TrajectoryReplayBuffer.Clear` | rlinf/data/replay_buffer.py:900-913 | an empty consistent buffer, although the index version stays |
| `ReplayBuffer.TrajectoryReplayBuffer.RefreshWindow` | rlinf/data/replay_buffer.py:570-606 | the memo is what recomputing the window gives |
| `ReplayBuffer.CumulativeEnds` | rlinf/data/replay_buffer.py:587-592 | the running ends of the window |
| `ReplayBuffer.TrajectoryReplayBuffer.GatherHits` | rlinf/data/replay_buffer.py:662-679 | rows of cached trajectories |
| `ReplayBuffer.TrajectoryReplayBuffer.GatherMisses` | rlinf/data/replay_buffer.py:681-708 | rows of the others, over whatever was gathered before |
| `ReplayBuffer.TrajectoryReplayBuffer.WindowIsCached` | rlinf/data/replay_buffer.py:262-267 | with auto-save off every id of the window is cached |
| `ReplayBuffer.TrajectoryReplayBuffer.GatherBatch` | rlinf/data/replay_buffer.py:648-710 | every row of the batch is the wanted one; with auto-save off nothing is loaded |
| `ReplayBuffer.TrajectoryReplayBuffer.SampleChunks` | rlinf/data/replay_buffer.py:552-710 | raises exactly when the buffer has no samples; otherwise every field has exactly min(num_chunks, rows of the window) rows, row i being the row at the i-th drawn index of the concatenated window, whatever the memo and the cache hold, without a disk load when auto-save is off |
| `ReplayBuffer.TrajectoryReplayBuffer.PlainSampleMeans` | rlinf/data/replay_buffer.py:602-646 | ... stated of the specified sample |
| `ReplayBuffer.TrajectoryReplayBuffer.LoadCheckpoint` | rlinf/data/replay_buffer.py:997-1119 | the loaded list or shard becomes the window; consistent when no memo hits, and when one hits exactly if nothing was loaded or the memoised ids and counts are the loaded window's |
| `ReplayBuffer.SampleClearLoad` | rlinf/data/replay_buffer.py:898-1119 | sampling, clearing and loading leaves a consistent buffer exactly when nothing was loaded or the loaded window is the sampled one |
| `ReplayBuffer.StaleRun` | rlinf/data/replay_buffer.py:898-1119 | a run that ends with a stale memo: one trajectory added, sampled and cleared, another one loaded |
| `CheckpointShards.ShardsPartition` | rlinf/data/replay_buffer.py:1049-1064 | the shards of all ranks concatenate to the list, no two differ by more than one trajectory, and the longer ones come first |
| `CommMapping.GetDstRanks` | rlinf/utils/comm_mapping.py:28-56 | rejects exactly the bad arguments; otherwise the non-empty overlaps of the source's slice with the destinations' slices, in order, from a loop that ends |
| `CommMapping.MatchingIsShare` | rlinf/utils/comm_mapping.py:73-83 | a sender names each destination at most once, with their overlap |
| `CommMapping.AllReceived` | rlinf/utils/comm_mapping.py:85-90 | the sizes a destination receives add up to its share, so the assert never fires |
| `CommMapping.GetSrcRanks` | rlinf/utils/comm_mapping.py:59-91 | rejects exactly the bad arguments; otherwise the non-empty overlaps with the sources' slices, in order |
| `CommMapping.ViewsAgree` | rlinf/utils/comm_mapping.py:28-91 | sender and receiver list the same pairs with the same sizes, which are the interval overlaps |
| `CommMapping.ArrivingIsCommon` | rlinf/utils/comm_mapping.py:42-56 | what a source sends to a destination, cut off consecutively, is what their slices have in common |
| `CommMapping.EndToEnd` | rlinf/utils/comm_mapping.py:42-91 | concatenated in the listed order, the received pieces are exactly the destination's contiguous slice of the batch |
| `PriorityStore.PriorityStore.Add` | rlinf/data/priority_store.py:36-53 | an item is taken exactly when the store is not full or it is not below the least item, by minimum and then mean version; a rejected one counts as discarded; over any run the live items are the maxsize best, by (priority, arrival), of what survived the last removal and everything offered since, so of everything when nothing was removed; offered = discarded unused + ever returned + live never returned |
| `PriorityStore.PriorityStore.TopN` | rlinf/data/priority_store.py:55-59 | the best n, best first (all of them for 0), and they count as returned from then on; the account stays exact |
| `PriorityStore.PriorityStore.RemoveBelow` | rlinf/data/priority_store.py:61-69 | exactly the items whose minimum version is at least the threshold stay, in order; if any left, only those that stay and later offers compete from then on; the account stays exact |
| `PriorityStore.PriorityStore.Account` | rlinf/data/priority_store.py:46-52 | a dropped item is discarded unused exactly when it was never returned |
| `PriorityStore.RejectKeepsTop` | rlinf/data/priority_store.py:37-40 | an item below the least of a full store is not among the best |
| `PriorityStore.AcceptKeepsTop` | rlinf/data/priority_store.py:42-43 | a store that is not full keeps everything |
| `PriorityStore.EvictKeepsTop` | rlinf/data/priority_store.py:45-46 | the item that leaves a full store is below all that stay |
| `PriorityStore.PriorityStore.DropLeast` | rlinf/data/priority_store.py:45-52 | taking the least item off keeps order, account and the used numbers exact |
| `PriorityStore.NewField` | rlinf/data/priority_store.py:61-69 | after a removal the items that are left are the best of themselves |
| `PriorityStore.ReturnSuffix` | rlinf/data/priority_store.py:56-58 | returning items moves exactly the unused ones among them to the returned ones |
| `PriorityStore.BelowComeFirst` | rlinf/data/priority_store.py:62 | in the sorted list the items below a threshold come first |
| `PriorityStore.SplitByThreshold` | rlinf/data/priority_store.py:62 | an item is on the removed side exactly when its minimum version is below the threshold |
| `PriorityStore.PriorityStore.ListOrder` | rlinf/data/priority_store.py:25-30 | the list is ordered by minimum version, then mean version, then arrival |
| `PriorityStore.PriorityStore.DiscardedExactly` | rlinf/data/priority_store.py:46-52 | discarded unused is what was offered and neither ever returned nor live |
| `BatchIterator.BatchResizingIterator.constructor` | rlinf/data/io_struct.py:1669-1708 | the empty iterator over a stream of fetched batches |
| `BatchIterator.BatchResizingIterator.Produce` | rlinf/data/io_struct.py:1740-1760 | the next micro-batch of the stream; the overflow assert never fires, and global_batch_done holds exactly when the produced rows are a multiple of the global batch size |
| `BatchIterator.BatchResizingIterator.DoneMeans` | rlinf/data/io_struct.py:1748-1759 | the consumed size is what was produced since the last global batch was complete, and the done flag holds exactly when one is |
| `BatchIterator.BatchResizingIterator.FetchGlobals` | rlinf/data/io_struct.py:1784-1805 | a fetched batch whole, or split into global batches when it is a multiple of one |
| `BatchIterator.BatchResizingIterator.SplitGlobal` | rlinf/data/io_struct.py:1828-1835 | the next global batch as micro-batches |
| `BatchIterator.BatchResizingIterator.Next` | rlinf/data/io_struct.py:1811-1837 | what has been delivered is always a prefix of one fixed stream, whether a micro-batch was prefetched or not |
| `BatchIterator.BatchResizingIterator.PrefetchOneBatch` | rlinf/data/io_struct.py:1733-1738 | looks at the next micro-batch without delivering it |
| `BatchIterator.BatchResizingIterator.GetAllBatches` | rlinf/data/io_struct.py:1727-1731 | hands out every produced micro-batch exactly once, in order |
| `BatchIterator.StreamKeepsRows` | rlinf/data/io_struct.py:1784-1837 | the stream holds every fetched row exactly once, in micro-batches of the right size |
| `BatchIterator.FetchedRows` | rlinf/data/io_struct.py:1784-1835 | the rows of a fetched batch are the batch shuffled once, or, when it is a multiple of a global batch, shuffled, cut into global batches and each of them shuffled again |
| `BatchIterator.SameDelivery` | rlinf/data/io_struct.py:1811-1837 | two iterators over the same fetched batches that have delivered equally many micro-batches have delivered the same ones, however prefetches were interleaved |
| `BatchIterator.OneMore` | rlinf/data/io_struct.py:1748-1759 | one more micro-batch stays below the global batch size or reaches it exactly |
| `DownSampling.ChoosesExactly` | rlinf/utils/down_sampling.py:103-147 | whatever the quotas, exactly n different sequences of a larger group are chosen |
| `DownSampling.PairsCover` | rlinf/utils/down_sampling.py:113-122 | every sequence of a group is on exactly one of the two lists |
| `DownSampling.SortOrders` | rlinf/utils/down_sampling.py:124 | sorting puts the lowest penalties first |
| `DownSampling.QuotasMeetMinima` | rlinf/utils/down_sampling.py:126-134 | the minimum of rewarded sequences is met, the other one unless overridden, and a minimum that takes effect makes the quotas add up to n |
| `DownSampling.QuotasMean` | rlinf/utils/down_sampling.py:126-134 | each quota is its own side's share of n to the nearest, halves to even, unless a minimum takes effect, and then which one and what is left |
| `DownSampling.PairsMean` | rlinf/utils/down_sampling.py:113-122 | a sequence is on the rewarded side exactly when its reward is positive, with its own penalty |
| `DownSampling.PairsInOrder` | rlinf/utils/down_sampling.py:113-122 | both lists keep the group's order |
| `DownSampling.SortIsStable` | rlinf/utils/down_sampling.py:124 | sorting leaves sequences of equal penalty in their order |
| `DownSampling.FallbackChoice` | rlinf/utils/down_sampling.py:139-147 | when the slices do not make n, the n lowest penalties of the whole group are taken |
| `DownSampling.PenaltyMeans` | rlinf/utils/down_sampling.py:109-112 | the penalty is the sum of the weights that are switched on |
| `DownSampling.UniformMeans` | rlinf/utils/down_sampling.py:36-40 | rewards of a group are all equal exactly when each is within the tolerance of the group's first |
| `DownSampling.QuotaChoice` | rlinf/utils/down_sampling.py:124-138 | quotas that fit and make n take the lowest-penalty rewarded sequences and the first of the others |
| `DownSampling.KeepsAllOrNothing` | rlinf/utils/down_sampling.py:103-147 | each group contributes nothing or exactly n different ones of its own |
| `DownSampling.WeightedGroupChoice` | rlinf/utils/down_sampling.py:77-149 | the mask is on exactly for what the groups keep; fails exactly when a group must be thinned out without a penalty |
| `DownSampling.RejectEqualReward` | rlinf/utils/down_sampling.py:27-43 | the mask is off exactly on the groups whose rewards are all equal |
| `DownSampling.GroupSurvives` | rlinf/utils/down_sampling.py:163 | after both masks a group has no survivor or exactly n |
| `DownSampling.SurvivorsRegroup` | rlinf/utils/down_sampling.py:204-206 | every block of n consecutive survivors comes from one original group |
| `DownSampling.DownSample` | rlinf/utils/down_sampling.py:149-207 | the survivors in order and the new group size, with all of the above |
| `Gae.AdvantageStep` | rlinf/algorithms/advantages.py:68-76 | one backward step as the loop takes it |
| `Gae.AdvantageWithCritic` | rlinf/algorithms/advantages.py:68-76 | with a critic the advantage is rewards[t] + gamma * values[t+1] * alive - values[t] + gamma * lambda * alive * the next advantage |
| `Gae.AdvantageWithoutCritic` | rlinf/algorithms/advantages.py:60-76 | without one it is the reward plus, within the episode, the next advantage, and depends on neither gamma nor lambda |
| `Gae.AdvantageAtLambdaZero` | rlinf/algorithms/advantages.py:68-76 | at lambda 0 the advantage is the one-step difference |
| `Gae.ComputeGae` | rlinf/algorithms/advantages.py:56-79 | the backward loop gives every advantage by its definition, hence by the recurrence in rewards, values, gamma and lambda, and the return as advantage plus value |
| `Gae.LaterStepsDoNotCount` | rlinf/algorithms/advantages.py:68-76 | nothing behind the episode's done flag counts, with a critic or without |
| `Gae.TelescopesAtLambdaOne` | rlinf/algorithms/advantages.py:68-77 | at lambda 1 the return is the discounted episode reward plus, without a done flag, the discounted value at the cut |
| `Gae.CalculateScore` | rlinf/algorithms/utils.py:134-146 | the score is the critic-free return of step 0, the undiscounted reward of the first episode |
| `ChunkLayout.UnflattenFlatten` | rlinf/algorithms/utils.py:155-172 | unflattening after flattening puts every step back where it came from |
| `ChunkLayout.FlattenUnflatten` | rlinf/algorithms/utils.py:100-107 | ... and flattening after unflattening as well |
| `ChunkLayout.FlagsAlign` | rlinf/algorithms/utils.py:109-113 | of the flattened done flags, the one after step s is the flag recorded with that step, and the first is the last flag of the extra chunk |
| `FieldMask.FieldMaskAt` | rlinf/data/embodied_io_struct.py:413-428 | the index arithmetic selects epoch heads and the entry of the step's own mask position |
| `FieldMask.GenerateFieldMask` | rlinf/data/embodied_io_struct.py:397-436 | the mask itself, the mask with every epoch's head added, or the error |
| `FieldMask.MaskThenDrop` | rlinf/data/embodied_io_struct.py:406-432 | masking and head removal commute |
| `FieldMask.ReflattenExact` | rlinf/data/replay_buffer.py:720-731 | flattening a masked trajectory keeps the selected rows if and only if every epoch selects equally many |
| `FieldMask.UnevenEpochsFail` | rlinf/data/replay_buffer.py:720-731 | two epochs selecting one and three of four steps, flattened wrongly |

## Left out

- The list branch of `get_iterator_dynamic` (it indexes a list by string keys) and `split_list`: `split_list` may return a different number of chunks when the count does not divide the length.
- The heap's array layout: a pop takes the least state, which is determined by the order.
- MicroBatching.LockstepTermination: assumes that all ranks hold equally many sequences; with different counts the rank with fewest can fail its assert first.
- Packing: `ref_logprobs`, `is_end` and `extra:` fields travel with their row and are not modelled; attention masks and position ids are rebuilt from lengths, so a row is its tokens, lengths and response mask.
- Loss scales are exact reals; rounding is not modelled.
- TrajectoryCache.TrajectoryCache.Get: the source returns views of the buffer, the model values; what a later put does to a view is not captured. Fields that are no tensors and the nesting of dictionaries are flattened into named row fields.
- TrajectoryCache.TrajectoryCache.Put: all trajectories share one set of fields, and every field of a sampled trajectory has exactly `num_samples` rows.
- Threads, locks, the save executors, pickling, file formats and paths: disk is a map from id to trajectory, and every operation is atomic. Two saves under one id after a clear overwrite each other in the model.
- `save_checkpoint`: with auto-save on it copies the files of the memoised window only, which may be out of date; LoadCheckpoint takes the files it reads as given.
- A cache or window size of zero with the cache on divides by zero at the first put; the constructors ask for positive sizes there.
- `torch.randint` is any function that stays below its bound; seeds are not modelled.
- The priority store: a `maxsize` of zero or less (an index error or immediate eviction) is not modelled, nor are priorities that are not numbers. `get_metric` is a histogram.
- BatchIterator: a registered global batch handler, `reset_total_batch_size` in the middle of a run and batches that are no multiple of the micro-batch size; the shuffle is any permutation.
- DownSampling: the penalty weights come from regular expressions over texts and are inputs; a quota is rounded from the exact quotient; rewards that are not numbers are not modelled.
- GAE: one batch column at a time; `safe_normalize`, standard deviations, the KL penalties and the GRPO, REINFORCE++ and dynamic variants, and the chunk-level sums and maxima before flattening, are not part of this model.
- Runners, workers, channels, placement, configuration, logging and metrics: orchestration without a property of this kind.
