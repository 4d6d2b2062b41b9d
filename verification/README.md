# PartLLM verification models

Dafny models of the parts of the repository whose correctness rests on integer, sequence and state reasoning, with
proofs. `dafny verify dfyconfig.toml` checks all of them. Nothing here executes the repository; tensors are sequences
(or, where only the layout matters, matrices of elements), a collective is a function on the vector of all ranks'
inputs, a device stream is an ordered log of commands and waits, and a failed assertion, a missing key or an index out
of range is the result `Raised`.

**Activation offloading** (`DeviceStreams`, `Tensors`, `OffloadWindows`, `OffloadHandler`, `OffloadInvariant`,
`OffloadTranscript`, `OffloadRuns`). The asynchronous double-buffer handler is a class over its tag table, buffers,
host backups and counters; each method is proved against a function on handler values. A run is any sequence of saves,
commits and uses in the order that `ActivationHandler.forward` and `GroupCommitFunction` impose. For every number of
layers above the number of offloaded groups, every prefix of every run keeps one invariant: no call raises, every use
gets a tensor with the saved shape and contents, every copy, release and use is ordered after what it depends on
across the three streams, each offloaded group is copied out, released and copied in once and at the layers its
windows name, its tensors are in the buffers, on the host and on the device as these moves say, and the groups held on
the device stay bounded (two, in the configuration that `enable_activation_offloading` sets up). A complete run ends
where it began. The one assumption, that equal keys in a group mean equal contents, is shown to be exactly what an
offload and reload needs.

**Sequence-length balancing** (`KarmarkarKarp*`, `BalancedPartitions`, `HeapChoice`, `DifferencingSets`,
`BalancedLoop`, `GreedyPartition`, `MicroBatches`, `TokenLimits`, `GroupPartitions`, `Permutations`). The classes
`Set` and `State`, the heap loop and the greedy loop are proved against functions on values, and these against the
promises: exact covers, checks that fire only for impossible requests, approximation bounds, and a split into
micro-batches that can be undone.

**Sequence parallelism and packing** (`Ulysses`, `SequenceSharding`, `Masks`, `Packing`, `InitialSlice`). The
exchanges are inverses of each other, padding and sharding lose nothing, boundaries of packed sequences are recovered,
and log-probabilities on packed tokens agree with the dense ones wherever a token and its successor are unmasked.

**Smaller cores.** `RopeIndex`, `RopeLayout`, `RopeProof`, `RopeMask`: three-axis positions. `Hierarchy`,
`HierarchyPaths`: cuts of a part tree, and the nodes they stand for. `MemoryBuffers`: parameters moved into shared
buffers. `FaceCounts`, `MeshOrder`, `FaceLabels`: meshes matched to annotations and faces to labels. `DataBatches`:
padding, chunking and joining batches and futures of batches. `Wrappers`, `Sequences`, `Sorting`, `Arithmetic` and
`Chunks` are shared.

Findings, each proved by a lemma with a failing input and by the exact condition under which the code does what it is
meant to do:

- Reordering meshes can return more meshes than it was given, although its documentation promises the same length
  (`MeshOrder.MeshRepeated`); the length is kept exactly if no fallback meets a mesh already placed
  (`MeshOrder.ReorderKeepsLengthIff`).
- Samples with equal uids can be put into different partitions, although the documentation promises the contrary
  (`GroupPartitions.SeparatedUid`); they always stay together exactly if the samples of every uid are consecutive
  (`GroupPartitions.UidsStayTogetherIff`).
- A micro-batch can hold more tokens than the limit that the documentation promises (`TokenLimits.LimitExceeded`); for
  batches of a given number of rows that are split into a given number of micro-batches the limit is always kept exactly
  if that is one micro-batch or one for each row (`TokenLimits.LimitKeptIff`).
- Chunking a future that is itself a chunk hands out pieces of everything, not of the chunk
  (`DataBatches.ChunkOfChunk`, `DataBatches.FutureChunksKeepIff`).
- A packed sequence of length zero leaves no boundary (`SequenceSharding.EmptySequenceLost`,
  `SequenceSharding.BoundariesExactIff`).
- A listed face number beyond its mesh can mark a face of the next mesh (`FaceLabels.FaceOutOfRange`); masks are right
  exactly if no listed face has the number of an unlisted real one (`FaceLabels.MasksAreRightIff`).
- A sample without vision inputs and without a mask raises, because its positions are counted along a batch dimension
  that the documentation says was removed (`RopeMask.SampleWithoutMask`, `RopeMask.SampleSucceedsIff`).

## Model

| member | source | states |
|---|---|---|
| DeviceStreams.SeenIsHappensBefore | verl/utils/activation_offload.py:319-345 | the bound is exactly happens-before: same stream, or a chain of waits |
| DeviceStreams.WaitsAreNeeded | verl/utils/activation_offload.py:319-345 | streams run on their own: without a wait between them, none of the four orders that a safe log asks for holds |
| OffloadWindows.BuildWindowMap | verl/utils/activation_offload.py:250-257 | the constructor's loop builds the closed-form window map, for any counts |
| OffloadWindows.WindowStep | verl/utils/activation_offload.py:250-257 | window sizes differ by at most one, the longer ones first |
| OffloadWindows.WindowShape | verl/utils/activation_offload.py:250-257 | the last window closes at the last layer, and a group is complete before its window closes |
| OffloadWindows.WindowsIncrease | verl/utils/activation_offload.py:250-257 | windows are strictly increasing |
| OffloadWindows.WindowSpan | verl/utils/activation_offload.py:250-257 | a window closes after its own group and within layers - groups further layers |
| OffloadWindows.FrontierStep | verl/utils/activation_offload.py:330-345 | one commit closes at most one window, and it is the one the released count points at |
| OffloadWindows.WindowMapIsSound | verl/utils/activation_offload.py:250-257 | with more layers than groups the windows rise strictly, from the second layer or later to the last: all that whole runs rely on |
| OffloadWindows.FrontierBack | verl/utils/activation_offload.py:377-390 | going back one layer opens the window that closed last, exactly if it closed at that layer |
| OffloadWindows.FrontierSpan | verl/utils/activation_offload.py:330-345 | open groups and the current layer are never more than layers - groups + 1 apart |
| Tensors.DistinctRepresents | verl/utils/activation_offload.py:303-315 | every tensor of an offloaded group is represented by the first one with its key |
| Tensors.DistinctSound | verl/utils/activation_offload.py:303-315 | only tensors of the group are copied to the host |
| OffloadHandler.AsyncDoubleBufferGroupOffloadHandler.constructor | verl/utils/activation_offload.py:228-261 | the initial state, with the window map |
| OffloadHandler.AsyncDoubleBufferGroupOffloadHandler.TensorPush | verl/utils/activation_offload.py:263-283 | a saved tensor gets the next free tag of its group and is buffered if the group will be offloaded; what the buffers hold from then on is `RunAccounts` |
| OffloadHandler.AsyncDoubleBufferGroupOffloadHandler.TensorPop | verl/utils/activation_offload.py:285-296 | a tag gives its tensor once and only while it is on the device |
| OffloadHandler.UntouchedComesBack | verl/utils/activation_offload.py:282-288 | a tensor that is not to be offloaded comes back as it is at any later time, and neither call changes the handler |
| OffloadHandler.AsyncDoubleBufferGroupOffloadHandler.EvictGroup | verl/utils/activation_offload.py:303-311 | in-place replacement of a group's tensors by keys; fails exactly if one was already replaced |
| OffloadHandler.AsyncDoubleBufferGroupOffloadHandler.BulkOffloadGroup | verl/utils/activation_offload.py:298-317 | the group's contents move to a host map with one entry per key |
| OffloadHandler.AsyncDoubleBufferGroupOffloadHandler.ReleaseBuffers | verl/utils/activation_offload.py:336-338 | only the released group's buffers are cleared |
| OffloadHandler.AsyncDoubleBufferGroupOffloadHandler.HandOver | verl/utils/activation_offload.py:332-345 | waits, release, next offload and count in this order |
| OffloadHandler.AsyncDoubleBufferGroupOffloadHandler.SynchronizeOnGroupCommitForward | verl/utils/activation_offload.py:319-345 | the new state after a forward synchronisation, including the missing window |
| OffloadHandler.AsyncDoubleBufferGroupOffloadHandler.OnGroupCommitForward | verl/utils/activation_offload.py:347-352 | the same, then the next group begins |
| OffloadHandler.AsyncDoubleBufferGroupOffloadHandler.RestoreGroup | verl/utils/activation_offload.py:365-371 | in-place rebuilding of a group's tensors from key and shape |
| OffloadHandler.AsyncDoubleBufferGroupOffloadHandler.BulkReloadGroup | verl/utils/activation_offload.py:355-371 | the backup is consumed and the group is on the device again |
| OffloadHandler.AsyncDoubleBufferGroupOffloadHandler.OnGroupCommitBackward | verl/utils/activation_offload.py:373-395 | one layer back, reload when its window opens, last wait and reset at the first layer |
| OffloadInvariant.CopyOutIsSafe | verl/utils/activation_offload.py:324-326 | the first copy to the host is ordered after the computation of its group |
| OffloadInvariant.WindowIsSafe | verl/utils/activation_offload.py:330-342 | closing a window orders the release after the copy, and the next copy after its computation |
| OffloadInvariant.ReloadIsSafe | verl/utils/activation_offload.py:381-387 | a reload is ordered after the copy it reads, and earlier reloads are joined before the compute stream goes on |
| OffloadInvariant.LastWaitIsSafe | verl/utils/activation_offload.py:393-395 | the wait at the first layer joins the last reload |
| OffloadInvariant.StepKeepsInv | verl/utils/activation_offload.py:263-395 | every legal event keeps the invariant and succeeds; keys matter only in layers that are offloaded |
| OffloadTranscript.StageTells | verl/utils/activation_offload.py:263-371 | how far a group has come says where its saved tensors are: on the device or the host, and in the buffers until the release, cleared from then on |
| OffloadTranscript.StageInTime | verl/utils/activation_offload.py:319-395 | at which layer each of the three moves of a group is made, in terms of the windows |
| OffloadTranscript.StepMoves | verl/utils/activation_offload.py:263-395 | every event advances each group along copy out, release, copy in as its stage says, and writes or reads only what the client asks for |
| OffloadRuns.RunsBeginInInv | verl/utils/activation_offload.py:228-261 | a handler at rest satisfies the invariant |
| OffloadRuns.RunKeepsInv | verl/utils/activation_offload.py:263-395 | in every run no assertion or lookup fails and every use gets an equal tensor |
| OffloadRuns.RunMoves | verl/utils/activation_offload.py:263-395 | the same over whole runs |
| OffloadRuns.RunAccounts | verl/utils/activation_offload.py:263-395 | in every run the log says of each group which moves were made, when, and where its tensors and buffers are for that reason; after a complete run all three |
| OffloadRuns.CompleteRunIsAtRest | verl/utils/activation_offload.py:285-296 | after a complete run both counters are zero and all maps are empty |
| OffloadRuns.HeldIsAWindow | verl/utils/activation_offload.py:336-345 | layers with tensors on the device lie between the frontier and the current layer |
| OffloadRuns.HeldGroupsBound | verl/utils/activation_offload.py:336-345 | at most layers - groups + 1 groups are held on the device |
| OffloadRuns.OffloadingIsTransparent | verl/utils/activation_offload.py:500-543 | main theorem: all of the above over every run, buffers included, with the documented bound of two groups for one layer more than groups |
| OffloadRuns.RoundTripExactly | verl/utils/activation_offload.py:298-371 | offload and reload of a group is the identity if and only if equal keys mean equal contents |
| KarmarkarKarpInvariant.NoTies | verl/utils/seqlen_balancing.py:87-92 | states that share no item are never tied |
| KarmarkarKarpInvariant.ItemsLessMeans | verl/utils/seqlen_balancing.py:87-92 | lists of equal length are compared at their first difference, by index and then value |
| KarmarkarKarpInvariant.SetsFall | verl/utils/seqlen_balancing.py:87-102 | the sets of a state fall by sum, then by number of items, then by the items |
| KarmarkarKarpInvariant.BestGoesFirst | verl/utils/seqlen_balancing.py:122-128 | the popped state has the largest difference between first and last set; of those, no first set is above its own |
| KarmarkarKarpInvariant.MergeSound | verl/utils/seqlen_balancing.py:113-116 | merged sets are sorted and their sums are those of their items |
| KarmarkarKarpInvariant.MergePairs | verl/utils/seqlen_balancing.py:113-115 | a merge joins the largest set of one state with the smallest of the other, and so on |
| KarmarkarKarpInvariant.MergeItems | verl/utils/seqlen_balancing.py:113-116 | a merge keeps every item exactly once |
| KarmarkarKarpInvariant.MergeFilled | verl/utils/seqlen_balancing.py:87-116 | a state with m items has exactly min(k, m) non-empty sets, and merging keeps this |
| KarmarkarKarpInvariant.MergeSpread | verl/utils/seqlen_balancing.py:113-120 | a merge never exceeds the larger of the two spreads |
| KarmarkarKarpInvariant.MergeUniform | verl/utils/seqlen_balancing.py:113-116 | in equal mode all sets of a state have equal size |
| KarmarkarKarpRuns.RoundKeeps | verl/utils/seqlen_balancing.py:158-163 | a round keeps all states good and all items |
| KarmarkarKarpRuns.RoundMergesLargest | verl/utils/seqlen_balancing.py:158-163 | a round merges the state with the largest difference with the one that has the largest of the others; ties go to the higher first set |
| KarmarkarKarpRuns.ReduceKeeps | verl/utils/seqlen_balancing.py:158-165 | the same over the whole loop |
| KarmarkarKarpRuns.InitialHeapGood | verl/utils/seqlen_balancing.py:144-156 | the first heap is good and holds every index once |
| KarmarkarKarpRuns.SortedItemsShape | verl/utils/seqlen_balancing.py:144-144 | all items, by rising value and at equal values by rising index |
| KarmarkarKarpRuns.FinalGood | verl/utils/seqlen_balancing.py:144-172 | so is the final state |
| DifferencingSets.PartSet.constructor | verl/utils/seqlen_balancing.py:74-76 | a new set is empty |
| DifferencingSets.PartSet.Add | verl/utils/seqlen_balancing.py:78-80 | an item is appended and its value added |
| DifferencingSets.PartSet.Merge | verl/utils/seqlen_balancing.py:82-85 | the other set's items are appended in order, and the other set is unchanged |
| DifferencingSets.SortedReverse | verl/utils/seqlen_balancing.py:102-116 | the same set objects, stably arranged by falling value |
| DifferencingSets.MergeReversed | verl/utils/seqlen_balancing.py:113-115 | set i takes over the items of the other state's set k - 1 - i |
| DifferencingSets.State.constructor | verl/utils/seqlen_balancing.py:95-102 | one item, or one in each set, arranged |
| DifferencingSets.State.MergeWith | verl/utils/seqlen_balancing.py:113-116 | the merge in place refines the merge of values |
| DifferencingSets.State.GetPartitions | verl/utils/seqlen_balancing.py:104-111 | the index lists of the sets |
| DifferencingSets.HeapPop | verl/utils/seqlen_balancing.py:158-160 | a least state in the heap's order |
| DifferencingSets.PopTwo | verl/utils/seqlen_balancing.py:158-160 | two states with separate sets; what is left and their merge make the next round |
| DifferencingSets.MergeRound | verl/utils/seqlen_balancing.py:158-163 | one round over objects refines one round over values |
| DifferencingSets.BuildHeap | verl/utils/seqlen_balancing.py:144-156 | one state for each item or for each sorted block of k |
| DifferencingSets.KarmarkarKarpLoop | verl/utils/seqlen_balancing.py:144-172 | the object loop computes the value-level method, including when it raises |
| BalancedLoop.CheckAndSortPartitions | verl/utils/seqlen_balancing.py:241-251 | all three checks and the sorting |
| BalancedLoop.GetSeqlenBalancedPartitions | verl/utils/seqlen_balancing.py:213-254 | the whole function refines the value-level one |
| BalancedPartitions.DifferencingSucceeds | verl/utils/seqlen_balancing.py:167-171 | the check on equal sizes never fires |
| BalancedPartitions.CheckPasses | verl/utils/seqlen_balancing.py:241-251 | no part is empty and every index is seen |
| BalancedPartitions.BalancedSucceeds | verl/utils/seqlen_balancing.py:239-254 | it succeeds exactly with enough items (and divisibility), and then gives k sorted non-empty parts that cover each index once |
| BalancedPartitions.BalancedSpread | verl/utils/seqlen_balancing.py:94-172 | parts differ by at most the largest item, or the largest gap inside a block of k in equal mode |
| BalancedPartitions.LoadsApart | verl/utils/seqlen_balancing.py:94-172 | in equal mode parts of items between two bounds differ by no more than the bounds do |
| BalancedPartitions.AnswerFalls | verl/utils/seqlen_balancing.py:104-116 | the parts come back in the order of their sums, the largest first |
| BalancedPartitions.BalancedWithinFactor | verl/utils/seqlen_balancing.py:94-172 | k times the busiest part is at most 2k - 1 times that of any other k-way partition |
| HeapChoice.PopsAreForced | verl/utils/seqlen_balancing.py:122-128 | on every heap in which no item occurs twice the least state is smaller than all others |
| HeapChoice.InitialHeapIsHeap | verl/utils/seqlen_balancing.py:144-156 | the first heap is such a heap, for non-negative values |
| HeapChoice.RoundKeepsHeap | verl/utils/seqlen_balancing.py:158-163 | and every round leaves one |
| HeapChoice.AnyRoundIsRound | verl/utils/seqlen_balancing.py:158-163 | popping any least state, twice, and pushing the merge gives the states of the modelled round and no others |
| HeapChoice.AnyRunEndsTheSame | verl/utils/seqlen_balancing.py:158-165 | so every run that does this until one state is left ends with the modelled state |
| HeapChoice.HeapDoesNotMatter | verl/utils/seqlen_balancing.py:144-166 | the same for the whole of `karmarkar_karp`: the result does not depend on how the heap is kept |
| BalancedPartitions.Busiest | verl/utils/seqlen_balancing.py:292-293 | the largest part sum: attained and an upper bound |
| GreedyPartition.LeastLoaded | verl/utils/seqlen_balancing.py:199-202 | the first least sum |
| GreedyPartition.GreedyLoop | verl/utils/seqlen_balancing.py:194-210 | the loop refines the recursive assignment, including the final check |
| GreedyPartition.AssignCovers | verl/utils/seqlen_balancing.py:198-204 | after n items each of them is in exactly one part |
| GreedyPartition.GreedySpread | verl/utils/seqlen_balancing.py:198-204 | without bias the sums differ by at most the largest item at every step |
| GreedyPartition.NextGoesToLeast | verl/utils/seqlen_balancing.py:198-204 | an item goes to the first part with the least load, bias included, and no other part changes |
| GreedyPartition.BiasDominates | verl/utils/seqlen_balancing.py:194-204 | with the bias a smaller sum means no more items |
| GreedyPartition.SizesWithinOne | verl/utils/seqlen_balancing.py:194-204 | with the bias part sizes are within one of each other at every step |
| GreedyPartition.AllEven | verl/utils/seqlen_balancing.py:194-210 | with the bias the final sizes are equal exactly if k divides the number of items |
| GreedyPartition.GreedySucceeds | verl/utils/seqlen_balancing.py:205-210 | the check fires exactly if equal sizes are asked for and k does not divide n; otherwise an exact cover |
| GreedyPartition.GreedyBalanced | verl/utils/seqlen_balancing.py:175-210 | the bound for the finished partition |
| Permutations.GetReverseIdx | verl/utils/seqlen_balancing.py:425-440 | the loop of writes over a copy of the map |
| Permutations.ReversedInverts | verl/utils/seqlen_balancing.py:425-440 | for a permutation the result is the inverse from both sides |
| MicroBatches.CeilDivIsLeast | verl/utils/seqlen_balancing.py:305-324 | the result is the ceiling and nothing else is |
| MicroBatches.RoundUpIsLeast | verl/utils/seqlen_balancing.py:327-345 | the least multiple that is not below |
| MicroBatches.PeakInsideRisesAndFalls | verl/utils/seqlen_balancing.py:414-414 | the slice step turns a falling sequence into one that rises and then falls |
| MicroBatches.CountIsFewest | verl/utils/seqlen_balancing.py:385-387 | without other settings: as few micro-batches as the tokens need at the limit, but no more than rows, and no other number |
| MicroBatches.SettingsAdjustCount | verl/utils/seqlen_balancing.py:388-396 | what the least number, the agreed maximum and the divisor make of it |
| MicroBatches.WorkloadCountsOperations | verl/utils/seqlen_balancing.py:30-46 | the workload is proportional to the operations of the documented formula at hidden size 4096 |
| MicroBatches.OrderingPermutes | verl/utils/seqlen_balancing.py:404-414 | ordering loses no micro-batch |
| MicroBatches.WorkloadsRiseAndFall | verl/utils/seqlen_balancing.py:404-414 | workloads rise to the heaviest micro-batch and then fall, ties by the first index |
| MicroBatches.RearrangeShape | verl/utils/seqlen_balancing.py:382-422 | success exactly if the number of micro-batches (`CountIsFewest`, `SettingsAdjustCount`) is possible; then that many non-empty parts covering each row once |
| MicroBatches.SelectMicroBatches | verl/utils/seqlen_balancing.py:416-420 | the loop selects the rows of each part |
| MicroBatches.RearrangeSucceeds | verl/utils/seqlen_balancing.py:382-402 | without other settings it succeeds for every batch with a token and no row too long, with the fewest micro-batches |
| MicroBatches.RearrangeBalances | verl/utils/seqlen_balancing.py:401-422 | no two micro-batches of the result differ by more than the workload of the longest row |
| MicroBatches.RearrangeOrders | verl/utils/seqlen_balancing.py:404-414 | the workloads of the result rise to the heaviest and fall, ties by first index; without balancing the order of the partitioner is kept |
| MicroBatches.RestoreInverts | verl/utils/seqlen_balancing.py:482-505 | restoring undoes any exact cover |
| MicroBatches.CutAt | verl/utils/seqlen_balancing.py:416-420 | row j of micro-batch i is the row that its index list names |
| MicroBatches.MicroBatchRoundTrip | verl/utils/seqlen_balancing.py:348-505 | splitting, concatenating and restoring gives back the original rows, for all settings |
| GroupPartitions.GroupRuns | verl/utils/seqlen_balancing.py:530-548 | the loop collects the runs of equal uids |
| TokenLimits.LimitKept | verl/utils/seqlen_balancing.py:362-402 | no micro-batch has more tokens than the limit if there is only one, or one for each row |
| TokenLimits.LimitKeptIff | verl/utils/seqlen_balancing.py:362-402 | the documented limit is kept for all batches of so many rows that are split into c exactly if c is one or the number of rows |
| TokenLimits.LimitExceeded | verl/utils/seqlen_balancing.py:362-402 | a failing input: three rows of two tokens with a limit of three |
| GroupPartitions.RunsCover | verl/utils/seqlen_balancing.py:530-548 | the runs list all samples in order |
| GroupPartitions.GroupBalancedSucceeds | verl/utils/seqlen_balancing.py:526-580 | it succeeds exactly if lengths match and the runs are enough and divide evenly |
| GroupPartitions.SamplesCover | verl/utils/seqlen_balancing.py:508-580 | every sample is in exactly one of k parts |
| GroupPartitions.LastRun | verl/utils/seqlen_balancing.py:535-544 | the last run holds exactly the samples with the last uid up to the end |
| GroupPartitions.SamplesBalanced | verl/utils/seqlen_balancing.py:557-580 | total workloads of two parts differ by no more than those of the runs do |
| GroupPartitions.SamplesInOrder | verl/utils/seqlen_balancing.py:573-580 | the samples of a part are listed in increasing order |
| GroupPartitions.RunHasOneUid | verl/utils/seqlen_balancing.py:535-544 | two samples of one run, and all between them, have one uid |
| GroupPartitions.OneUidStaysTogether | verl/utils/seqlen_balancing.py:508-580 | samples with nothing but their own uid between them share a part |
| GroupPartitions.RunsApart | verl/utils/seqlen_balancing.py:508-580 | with as many parts as runs, samples of different runs are separated, whatever the lengths |
| GroupPartitions.AlwaysTogetherIff | verl/utils/seqlen_balancing.py:508-580 | two samples share a part for all lengths and numbers of parts exactly if every sample from one to the other has their uid |
| GroupPartitions.UidsStayTogetherIff | verl/utils/seqlen_balancing.py:516-525 | samples with equal uids always stay together exactly if the samples of every uid are consecutive |
| GroupPartitions.SeparatedUid | verl/utils/seqlen_balancing.py:516-525 | the shortest failing input: the first and the last of three samples a, b, a, for three parts |
| Ulysses.ShapesAgreeIff | verl/utils/ulysses.py:133-152 | the exchange is defined exactly if the scattered dimension divides evenly |
| Ulysses.ExchangeShards | verl/utils/ulysses.py:133-152 | row shards of a tensor become its column shards, and back |
| Ulysses.AllToAllInverse | verl/utils/ulysses.py:165-191 | backward undoes forward on every rank, whenever forward succeeds |
| Ulysses.ScatterColumns | verl/utils/ulysses.py:133-152 | cell by cell: each rank gets its block of columns of all ranks, their rows one after the other |
| Ulysses.ScatterRows | verl/utils/ulysses.py:133-152 | cell by cell: each rank gets its block of rows of all ranks, their columns side by side |
| Ulysses.ScatterRowsPadded | verl/utils/ulysses.py:85-108 | the same for any number of rows: equal shares, and zeros behind the last row |
| Ulysses.SeqThenHeads | verl/utils/ulysses.py:62-101 | gather sequence, then scatter it again: the identity on every rank |
| Ulysses.HeadsThenSeq | verl/utils/ulysses.py:62-114 | the other order with the unpadded length: the identity for every length |
| SequenceSharding.SlicesKeepAllIff | verl/utils/ulysses.py:117-130 | slices without padding keep everything exactly if the ranks divide the length |
| SequenceSharding.PadSliceGatherUnpad | verl/utils/ulysses.py:194-295 | pad, slice, gather, unpad is the identity for every length and number of ranks |
| SequenceSharding.PaddedIds | verl/utils/ulysses.py:284-295 | the padding goes behind the ids, up to the next multiple of the number of ranks and no further |
| SequenceSharding.PaddedSlice | verl/utils/ulysses.py:117-130 | with padding a rank gets its share of the least multiple, with zeros where the input has ended |
| SequenceSharding.BoundariesOfPacked | verl/models/transformers/qwen2_vl.py:164-179 | boundaries are the prefix sums of the non-zero lengths |
| SequenceSharding.BoundariesExactIff | verl/models/transformers/qwen2_vl.py:164-179 | lengths are recovered exactly if none is zero |
| SequenceSharding.EmptySequenceLost | verl/models/transformers/qwen2_vl.py:164-179 | a failing input: one sequence of length zero |
| SequenceSharding.PadIsOneSequence | verl/utils/ulysses.py:278-295 | the padding becomes exactly one more sequence |
| SequenceSharding.VisualSliceMatchesShard | verl/models/transformers/monkey_patch.py:179-217 | a rank gets as many embeddings as its mask shard has visual tokens, each with its own token |
| SequenceSharding.VisualSlicesJoin | verl/models/transformers/monkey_patch.py:179-217 | the slices of all ranks join to the original exactly if no visual token lies behind the last whole slice |
| InitialSlice.Decoder.Forward | verl/models/transformers/monkey_patch.py:165-224 | the flag is restored by every call, also one that ends with an exception, and a call slices exactly if the flag is up and there are embeddings |
| InitialSlice.MadeWhole | verl/models/transformers/monkey_patch.py:220-224 | only an exception that is not caught keeps inner calls from being made |
| InitialSlice.SlicedOnceOnPath | verl/models/transformers/monkey_patch.py:174-224 | on every path of nested calls that were made the inputs are sliced once if any call has embeddings, and never otherwise |
| Masks.Nonzero | verl/utils/torch_functional.py:828-837 | the set positions, in order |
| Masks.Rank | verl/utils/torch_functional.py:828-837 | a set position is listed at the number of set positions before it |
| Packing.IndexPutFirstAxis | verl/utils/npu_flash_attn_utils.py:58-66 | writing into a zeroed buffer refines scattering |
| Packing.ScatterAt | verl/utils/npu_flash_attn_utils.py:58-66 | a position holds the value written to it, or zero |
| Packing.PadAt | verl/utils/npu_flash_attn_utils.py:81-96 | a padded position holds the packed value of its rank, or zero |
| Packing.PadOfUnpad | verl/utils/npu_flash_attn_utils.py:81-129 | unpad then pad keeps what the mask keeps and zeroes the rest |
| Packing.UnpadOfPad | verl/utils/npu_flash_attn_utils.py:81-129 | pad then unpad is the identity |
| Packing.RowIsPackedTogether | verl/utils/npu_flash_attn_utils.py:99-129 | the kept tokens of a row lie together, behind those of earlier rows |
| Packing.PackedLogProbsAt | verl/utils/torch_functional.py:614-638 | every packed position: zero, the next token, or the next kept token |
| Packing.RmpadAgrees | verl/utils/torch_functional.py:598-638 | packed equals dense at every response position whose token and successor are unmasked, for any mask |
| RopeIndex.GetRopeIndex | verl/models/transformers/qwen2_vl.py:87-151 | the segment loop refines the recursive form, including every way to raise |
| RopeIndex.MaxEntry | verl/models/transformers/qwen2_vl.py:136-136 | the largest entry on any axis |
| RopeIndex.Index | verl/models/transformers/qwen2_vl.py:99-106 | the first occurrence at or after a position |
| RopeLayout.VisionAt | verl/models/transformers/qwen2_vl.py:139-143 | the column of each cell: row and column on their axes, and the frame at two positions a second, cut to an integer |
| RopeLayout.TwoASecondMeans | verl/models/transformers/qwen2_vl.py:114-140 | two positions a frame without times given, and none for an image |
| RopeProof.CountSegments | verl/models/transformers/qwen2_vl.py:90-93 | vision starts count exactly the images and the videos |
| RopeProof.TextThenPad | verl/models/transformers/qwen2_vl.py:98-117 | behind each text comes the first pad token not yet used |
| RopeProof.LoopReaches | verl/models/transformers/qwen2_vl.py:98-144 | after i rounds the loop is at the start of segment i with the blocks of the first i |
| RopeProof.BlockContents | verl/models/transformers/qwen2_vl.py:136-143 | text columns are equal on the three axes, grids follow their text |
| RopeProof.LayoutShape | verl/models/transformers/qwen2_vl.py:136-149 | one column for each token, and every block starts one past the maximum of all earlier ones |
| RopeProof.RopeIndexIsLayout | verl/models/transformers/qwen2_vl.py:82-151 | for every well-formed sample the function succeeds and returns that layout |
| RopeProof.ColumnsOfSegment | verl/models/transformers/qwen2_vl.py:108-144 | the column of each text token and of each frame, row and column of each grid: behind everything before it, at two positions a second |
| RopeProof.ColumnsOfTail | verl/models/transformers/qwen2_vl.py:146-151 | text behind the last grid goes on one past everything before it |
| RopeMask.UnmaskedFollowLayout | verl/models/transformers/qwen2_vl.py:86-152 | an unmasked token gets the layout's column of its rank, a masked one gets ones |
| RopeMask.TextBranchesAgree | verl/models/transformers/qwen2_vl.py:146-157 | on text alone both branches give the same positions |
| RopeMask.WithoutVision | verl/models/transformers/qwen2_vl.py:153-159 | without vision inputs: unmasked tokens are counted from zero with ones elsewhere; without a mask the second dimension is counted |
| RopeMask.SampleSucceedsIff | verl/models/transformers/qwen2_vl.py:82-161 | for every well-formed sample it succeeds exactly with vision inputs or a mask; without either a second dimension is missing |
| RopeMask.SampleWithoutMask | verl/models/transformers/qwen2_vl.py:153-159 | a failing input: one token; the same token in a batch of one is counted |
| Hierarchy.CutCovers | recipe/part_seg/tools/prepare_partnext_dataset.py:48-86 | a cut and the ids above it make up all mask ids, in the order of the tree if there are none above |
| Hierarchy.CutIsCompleteIff | recipe/part_seg/tools/prepare_partnext_dataset.py:48-86 | the groups concatenate to all ids exactly if no inner node above the cut has one |
| HierarchyPaths.CutIsParts | recipe/part_seg/tools/prepare_partnext_dataset.py:59-86 | the groups are the ids of the nodes at the target depth that have any and of the masked leaves above it, each node once, in the order of the tree |
| HierarchyPaths.IdsAreMasks | recipe/part_seg/tools/prepare_partnext_dataset.py:48-56 | the ids are those of the masked nodes, each node once, in the order of the tree |
| HierarchyPaths.DepthIsLongest | recipe/part_seg/tools/prepare_partnext_dataset.py:89-93 | the maximum depth is the length of a longest path; it raises exactly if some node has an empty list of children |
| Hierarchy.DeeperRefines | recipe/part_seg/tools/prepare_partnext_dataset.py:59-86 | the next deeper cut refines the cut |
| Hierarchy.RefinesCounts | recipe/part_seg/tools/prepare_partnext_dataset.py:286-299 | a refinement with as many groups is the same cut |
| Hierarchy.DeeperCounts | recipe/part_seg/tools/prepare_partnext_dataset.py:274-299 | part counts never fall with depth, and stay only if the cut stays |
| Hierarchy.DeepestCut | recipe/part_seg/tools/prepare_partnext_dataset.py:89-93 | from the maximum depth on every masked leaf is a group of its own |
| Hierarchy.CountsDecide | recipe/part_seg/tools/prepare_partnext_dataset.py:286-299 | as sets of sets two cuts differ exactly if their part counts do |
| Hierarchy.FilterDepths | recipe/part_seg/tools/prepare_partnext_dataset.py:274-299 | the loop keeps the depths that the specification keeps |
| Hierarchy.KeptRise | recipe/part_seg/tools/prepare_partnext_dataset.py:274-299 | part counts rise strictly along the kept depths |
| Hierarchy.KeptAreDistinct | recipe/part_seg/tools/prepare_partnext_dataset.py:286-299 | comparing with the last kept cut alone leaves pairwise different cuts |
| Hierarchy.KeptRepresentsAll | recipe/part_seg/tools/prepare_partnext_dataset.py:274-299 | every cut with more than one part and no more than allowed is kept or equals a kept one |
| HierarchyPaths.KeptAreFirst | recipe/part_seg/tools/prepare_partnext_dataset.py:277-288 | a kept depth has more than one part and no more than allowed, and is the first depth with its cut |
| MemoryBuffers.PaddedIsLeast | verl/utils/memory_buffer.py:55-59 | the padded size is the least multiple of the alignment that is not below the size |
| MemoryBuffers.RegionsAreDisjoint | verl/utils/memory_buffer.py:72-141 | regions of one type do not overlap and lie within the buffer |
| MemoryBuffers.RegionsAreTight | verl/utils/memory_buffer.py:82-114 | the first region of a type starts at zero, and behind each is less room than the alignment |
| MemoryBuffers.RegionsAreAligned | verl/utils/memory_buffer.py:55-59 | regions start on 128-bit boundaries if the width divides 128 |
| MemoryBuffers.AlignedIff | verl/utils/memory_buffer.py:55-59 | all regions of a type start on 128-bit boundaries, whatever the parameters, exactly if its width divides 128 |
| MemoryBuffers.MemoryBuffer.constructor | verl/utils/memory_buffer.py:32-39 | a zero-filled buffer of the given size |
| MemoryBuffers.MemoryBuffer.Get | verl/utils/memory_buffer.py:45-52 | a view, or failure beyond the end |
| MemoryBuffers.TotalNumel | verl/utils/memory_buffer.py:82-93 | the totals by type are what all parameters of the type take |
| MemoryBuffers.BuildMemoryBuffer | verl/utils/memory_buffer.py:72-98 | one separate zero-filled buffer for each type in use, of exactly that size |
| MemoryBuffers.BuiltBuffersHaveRoom | verl/utils/memory_buffer.py:72-114 | buffers built for the parameters have room for all of them |
| MemoryBuffers.CopyInto | verl/utils/memory_buffer.py:112-113 | the copy changes its region only |
| MemoryBuffers.Place | verl/utils/memory_buffer.py:107-114 | moving one parameter leaves those already moved as they were |
| MemoryBuffers.BuildMemoryReferenceFromModule | verl/utils/memory_buffer.py:101-114 | it succeeds exactly if every region is there; then every parameter is a view of its own region and reads as before |
| FaceCounts.CountsCoverAll | recipe/part_seg/mesh_utils.py:210-210 | no mesh number is missing exactly if they are 0 to n - 1 |
| MeshOrder.PickRemaining | recipe/part_seg/mesh_utils.py:221-226 | the first remaining mesh with the face count |
| MeshOrder.MatchGreedily | recipe/part_seg/mesh_utils.py:217-232 | the loops with their removals refine the recursive matching, fallback included |
| MeshOrder.ReorderMeshesByFaceNum | recipe/part_seg/mesh_utils.py:206-242 | the whole function refines the specification, early returns and missing keys included |
| MeshOrder.NothingIsLost | recipe/part_seg/mesh_utils.py:217-242 | whatever the annotation, every mesh is in the result |
| MeshOrder.OrderMeans | recipe/part_seg/mesh_utils.py:206-242 | for each annotated mesh the first one not placed that has its count, else the one with its number; then the others in their order |
| MeshOrder.ReorderFollowsIff | recipe/part_seg/mesh_utils.py:206-242 | the result is a permutation starting with the annotated counts exactly if those are a sub-multiset of the mesh counts |
| MeshOrder.ReorderKeepsLengthIff | recipe/part_seg/mesh_utils.py:189-242 | the result is longer than the input by the number of fallbacks on a mesh already placed; it has the same length exactly if there is none, and is then a permutation |
| MeshOrder.FitsNeverReuses | recipe/part_seg/mesh_utils.py:227-232 | there is none if the annotated counts are among those of the meshes |
| MeshOrder.MeshRepeated | recipe/part_seg/mesh_utils.py:227-232 | a failing input: two meshes come back as three |
| FaceLabels.FacesAreDistinct | recipe/part_seg/partnext_dataset.py:407-411 | a global face number names one mesh and one face |
| FaceLabels.FaceIsSomewhere | recipe/part_seg/partnext_dataset.py:407-411 | and every number below the total does |
| FaceLabels.CollectPartFaces | recipe/part_seg/partnext_dataset.py:419-437 | the loops collect the specified faces, skipping unknown ids and meshes |
| FaceLabels.FaceOffsets | recipe/part_seg/partnext_dataset.py:405-410 | the running sums of the face counts; it fails exactly if a mesh number is missing |
| FaceLabels.BuildFaceToPartMasks | recipe/part_seg/partnext_dataset.py:401-443 | rows are the membership masks; it fails exactly if a mesh number is missing |
| FaceLabels.PartIsListed | recipe/part_seg/partnext_dataset.py:416-441 | the face numbers collected for a part are exactly those of the faces listed for it, in range or not |
| FaceLabels.MaskMeansListed | recipe/part_seg/partnext_dataset.py:401-443 | if nothing leaks, a point is in a part's mask exactly if its mesh and local face are listed for the part |
| FaceLabels.MasksAreRightIff | recipe/part_seg/partnext_dataset.py:401-443 | masks mean this for all real faces exactly if no listed face has the number of an unlisted real face |
| FaceLabels.ExistingFacesDoNotLeak | recipe/part_seg/partnext_dataset.py:401-443 | that holds if every listed face exists |
| FaceLabels.FaceOutOfRange | recipe/part_seg/partnext_dataset.py:434-437 | a failing input: a listed face beyond its mesh marks a face of the next |
| FaceLabels.LabelPoints | recipe/part_seg/partnext_dataset.py:786-790 | any, argmax and overwriting give the first part, or the number of parts; no parts raises |
| FaceLabels.LabelIsFirstPart | recipe/part_seg/partnext_dataset.py:786-790 | a point's label is the first part that lists its face |
| DataBatches.PadSize | verl/protocol.py:84-85 | the least number of rows to the next multiple |
| DataBatches.PadToDivisor | verl/protocol.py:73-98 | the padding loop gives the rows repeated from the beginning, for batches shorter than the padding too |
| DataBatches.PaddedRows | verl/utils/tensordict_utils.py:750-792 | row i is row i mod n, and the length is a multiple |
| DataBatches.SliceRows | verl/protocol.py:686-730 | a slice has exactly the rows from the start on and before the end |
| DataBatches.UnpadOfPad | verl/utils/tensordict_utils.py:795-817 | unpadding undoes padding |
| DataBatches.ConcatData | verl/protocol.py:927-972 | the loops join columns and merge metadata; they fail exactly as specified |
| DataBatches.ConcatRows | verl/protocol.py:938-946 | every column of the whole holds the rows of the batches, one batch after the other |
| DataBatches.ConcatSucceedsIff | verl/protocol.py:948-972 | it succeeds exactly for batches with the same columns that do not disagree on an entry of the metadata, and keeps all entries |
| DataBatches.SplitAtIndices | verl/protocol.py:900-903 | splitting at the running sums gives the equal chunks |
| DataBatches.ChunkIndices | verl/protocol.py:893-893 | the running sums of the chunk sizes |
| DataBatches.ChunkProto | verl/protocol.py:875-914 | every chunk holds its rows of every column; unequal chunks raise |
| DataBatches.ConcatOfChunks | verl/protocol.py:875-972 | concatenating the chunks gives the batch back |
| DataBatches.ChunkRows | verl/protocol.py:884-914 | row i of chunk c is row c * size + i |
| DataBatches.FutureChunksJoin | verl/protocol.py:1203-1239 | fetching all chunks of a future and concatenating equals concatenating its outputs |
| DataBatches.FutureChunksKeepIff | verl/protocol.py:1208-1239 | chunking keeps what get returned exactly if get returned everything |
| DataBatches.ChunkOfChunk | verl/protocol.py:1208-1239 | a failing input: half of two rows, chunked again, gives back both rows |

## Left out

- Numeric floating-point code (model layers, losses, log-softmax, schedules, bounding boxes, rotations) is not part of this model; a log-probability is an uninterpreted function.
- CUDA, FSDP, Ray, process groups and attention kernels are not part of this model.
- `SynchronizedGroupOffloadHandler` has its own push and pop, which copy at once; only what the asynchronous handler inherits or calls is modelled.
- Tensors that the handler declines to offload are handled by `TensorPush` and `TensorPop` but do not appear in the runs, since they never reach its tables.
- A reloaded tensor has a new address; the model keeps its old key, which nothing reads after the reload.
- Runs with as many groups as layers, or more, are not covered: a window then closes before the group that should be offloaded next has been saved.
- Strings that name meshes and masks are integers; converting between the two is not part of this model.
- The array inside `heapq` is not modelled: a pop takes a least state, and `HeapChoice.HeapDoesNotMatter` shows that how the heap is kept makes no difference to the result.
- The maximum over ranks in `rearrange_micro_batches` is a parameter.
- DataBatches.Concat: joins columns of one key set; a key missing from a later part, or a tensor batch missing from some parts, is an error here, while the code notices it only in some cases.
- DataBatches.ConcatData: the "metrics" entry of the metadata, which the code gathers into lists, is not part of this model.
- DataBatches.ChunkProto: auto-padding, which allows chunks of unequal size, is not part of this model.
- Nested (jagged) tensors in `tensordict_utils.py` are columns like all others.
- MemoryBuffers.BuildMemoryReferenceFromModule: a parameter's first tensor is a value of its own, so parameters that share storage beforehand are not modelled.
- `MemoryBuffer.zero` and buffers over given storage are not part of this model.
- The depth limits, captions and prompts around the depth filter of `process_single_row` are not part of this model.
