# Verified models of TensorRT-LLM bookkeeping

This project models, in Dafny, the parts of TensorRT-LLM whose job is to keep one picture of the
world in step with a simpler one, and proves that they do (or exactly when they do). Check it with
`dafny verify dfyconfig.toml`.

**Graph rewriting** (`NetworkGraph`, `Fusion*`, `UniqueNames`, `GraphIndex`, `GraphRewriter`). A
network is a list of layers with a value for every tensor; a rank per layer witnesses acyclicity,
because a fused layer is appended at the end but feeds earlier layers. The pass that turns
attention on `x + b` without a bias into attention on `x` with bias `b` is a function on networks,
and `GraphRewriter.Network` is the mutable object that carries it out, proved to compute that
function. The only assumptions about arithmetic are that element-wise sum is commutative and that
the plugin adds its bias argument to `qkv`. The proofs use a closed form of every state a run
passes through. Exceptions are part of the model: the consumer list names a layer once per input,
so rewiring a layer that takes the same tensor twice trips an assertion, and the project proves
from the initial network alone exactly which runs complete. `FusionPattern` and `FusionComplete` state
which layers are fused, and what becomes of them, in terms of the graph itself.

**MNNVL memory** (`Mnnvl*`). One rank's allocator state, the CUDA driver as an environment that
refuses illegal calls (mapping over a mapping, freeing with the wrong size), and a system of ranks
that make collective opens and local closes in any interleaving. The driver is assumed to return a
non-zero, page-aligned range apart from every range still reserved; an imported handle names the
exporter's memory; sizes are positive; all ranks see the same allocation granularity. How a process
exchanges handles is its own finding (it depends on the machine it runs on), and a collective call
that other ranks do not make is a failure of the run. `MnnvlExact` says what each open and close does.

**Rank arithmetic** (`MixedRadix`, `RankMapping`, `RankGroups`, `Topology`, `OwnGroups`, `MoeGroups`,
`GroupLookups`, `Communicators`, `PipelineLayers`). The constructor with its checks, the rank coordinates as a
mixed-radix bijection, the six group tables as the loops build them, rings of neighbours, the layer
split and its separate closed-form inverse, and the communicators that MPI_Comm_split (section
6.4.2 of MPI 3.1) makes of the two colourings. With attention data parallelism the constructor
accepts ranks outside the world; the group lookups are stated for those too.

**LoRA** (`LoraInterleave`, `LoraOutcomes`, `LoraTable`, `LoraServed`). The reordering of fused weights, with rows
as opaque values, and the adapter manager as a class over nested dictionaries. What one module
contributes (skipped, stored, raised) is computed by a function per loader, failed assertions of the
reordering and a division by a zero rank included; the load loops that record it are methods, which
keep the invariant even when a load raises half-way. `LoraServed` follows a checkpoint to the buffers.

**Modules, weight files, token limits** (`ModuleGraph`, `ModuleOrder`, `ModuleWalk`, `ModuleParameters`,
`ManagedWeights`, `TokenBudget`). The depth-first walk with a shared memo, over any object graph;
the writer and reader of the managed-weights file, given any header text codec that can be decoded
again; the clamps on batch token limits.

Small helpers: `Options`, `Arith` (products and quotients), `Decimal` (numerals), `Dictionaries`
(insertion-ordered dictionaries).

Where code and documentation disagree the model follows the code. The recorded arguments of a
functional layer are documented as being kept up to date (tensorrt_llm/graph_rewriting.py:315-316),
but the substitution is computed and dropped; `FusionTheorem.StaleArguments` says exactly what
remains stale. Missing q/k/v LoRA modules are documented as filled with zero tensors, but a missing
module is by definition not a target, so nothing is ever recorded under its own name
(`LoraOutcomes.UntargetedStayZero`). When it shares its hf module with a target that comes later in the
module mapping, the zeros are stored under that target instead, in place of the checkpoint's weights;
`LoraOutcomes.ZerosStoredIff` says exactly when. The check against DoRA magnitudes in a mixture of
experts looks for a key that the loader never stores, so the model ignores those magnitudes.

## Model

| member | source | states |
|---|---|---|
| Fusion.FoldableIsInputIndependent | tensorrt_llm/graph_rewriting.py:593-603 | a tensor accepted by the depth-limited constant search has the same value under every two assignments of the network inputs |
| FusionPattern.FoldableIff | tensorrt_llm/graph_rewriting.py:593-603 | the search accepts a tensor exactly when every way back from it through producers meets only outputs of layers and ends within eleven tensors; the limit cuts off there and nowhere else |
| FusionPattern.MatchIff | tensorrt_llm/graph_rewriting.py:612-629 | a layer matches exactly when it is a recorded attention call without a bias, on one qkv tensor that nothing else uses and that is the sum, in either order, of such a constant and a tensor that is not one; these become bias and qkv |
| FusionPattern.RaiseIff | tensorrt_llm/graph_rewriting.py:612-622 | looking at a layer raises exactly when it is attention whose call was not recorded, or whose sole qkv has no producing layer |
| Fusion.MatchedOperands | tensorrt_llm/graph_rewriting.py:586-627 | in a match, qkv is the sum of exactly one foldable and one non-foldable operand, which become bias and qkv |
| Fusion.FuseRanked | tensorrt_llm/graph_rewriting.py:630-635 | one fusion keeps the network acyclic: the new layer takes the rank of the one it supersedes |
| Fusion.ValAfterFuse | tensorrt_llm/graph_rewriting.py:394-454 | after one fusion every tensor of the old network has its old value |
| Fusion.NewLayerValue | tensorrt_llm/graph_rewriting.py:630-635 | both outputs of the fused layer have the values of the outputs they supersede |
| Fusion.FuseConsistent | tensorrt_llm/graph_rewriting.py:373-392 | one fusion keeps every recorded call equal in value to its layer, although records are not updated |
| FusionRun.FuseDropsOneBiaslessCall | tensorrt_llm/graph_rewriting.py:628-634 | each fusion lowers the number of recorded calls without a bias by exactly one |
| FusionRun.Run | tensorrt_llm/graph_rewriting.py:248-270 | the loop terminates; when it completes, no live layer matches and as many layers were added as calls gained a bias |
| FusionRun.RunPreservesOutputs | tensorrt_llm/graph_rewriting.py:248-270 | every completed run, from any acyclic network, under every lawful semantics and every input, ends acyclic with each network output at its position with its value |
| FusionRun.RunMovesOnlyConstants | tensorrt_llm/graph_rewriting.py:605-631 | every tensor a completed run moved into the bias has a value independent of the network inputs |
| FusionExact.FoldableUnaffected | tensorrt_llm/graph_rewriting.py:593-603 | at any point of a run, a tensor or its replacement counts as constant exactly if the tensor did at the start |
| FusionOutcome.InspectUnaffected | tensorrt_llm/graph_rewriting.py:612-629 | a layer the pass has not reached yet is judged as it would have been on the initial network |
| FusionOutcome.FuseProgress | tensorrt_llm/graph_rewriting.py:630-636 | fusing the next matching layer moves the closed form of the state on by one |
| FusionTheorem.PassExact | tensorrt_llm/graph_rewriting.py:254-270 | from any state on the way, the rest of the pass completes exactly when every layer ahead is safe in the initial network, and ends in the closed form |
| FusionTheorem.PassSettles | tensorrt_llm/graph_rewriting.py:254-270 | after a pass no layer, old or new, matches |
| FusionTheorem.RunOutcome | tensorrt_llm/graph_rewriting.py:248-270 | a run completes if and only if the initial network is safe, and then its first pass already produced the final network, in closed form |
| FusionTheorem.RunFusesExactlyPending | tensorrt_llm/graph_rewriting.py:612-636 | a completed run adds one layer for each live layer that matched at the start, gives exactly those records a bias and changes no kind; which these are, and what becomes of each, is the next row |
| FusionComplete.RunFusesEveryFusible | tensorrt_llm/graph_rewriting.py:248-270 | a completed run supersedes every live layer that fits the written-out pattern, in order, by an attention layer with the constant operand as bias and the other as qkv, its remaining arguments up to date as far as the code brings them; every other layer and record is kept, and all inputs and outputs follow |
| FusionTheorem.RunDetachesSuperseded | tensorrt_llm/graph_rewriting.py:394-454 | afterwards no original layer and no network output refers to a superseded layer |
| FusionTheorem.StaleArguments | tensorrt_llm/graph_rewriting.py:373-392 | a fused layer still uses an output of another fused layer exactly when that layer came earlier and the recorded non-qkv arguments name it |
| FusionTheorem.CreationOrderSafety | tensorrt_llm/functional.py:556-573 | for networks listed in creation order, a run completes exactly when no matched layer has a user that takes it twice or beside an unset input, and no inspection raises |
| FusionComplete.RunCompletesIff | tensorrt_llm/functional.py:556-573 | the same in written-out terms: no live attention layer is unrecorded or has a sole qkv without producer, and no layer takes an output of a live layer that fits the pattern twice or beside an unset input |
| FusionTheorem.DoubleUseRaises | tensorrt_llm/functional.py:556-573 | a concrete four-layer network on which the rewrite raises |
| GraphRewriter.UsersRewirable | tensorrt_llm/functional.py:556-573 | a tensor can be rewired everywhere exactly when its consumer list has no repetition and no consumer has an unset input |
| GraphRewriter.Network.Users | tensorrt_llm/network.py:407-413 | the users found through the index are the direct scan of all layers |
| GraphRewriter.RewireInputs | tensorrt_llm/functional.py:563-569 | every matching input is replaced and no other; fails exactly when nothing matches or an input is unset |
| GraphRewriter.Network.RewireUser | tensorrt_llm/functional.py:563-569 | one consumer is rewired in every matching input, or the assertion fails exactly when nothing matches or an input is unset |
| GraphRewriter.Network.ReplaceAllUsesWith | tensorrt_llm/functional.py:556-573 | succeeds exactly when every consumer can be rewired, and then replaces every use and nothing else |
| GraphRewriter.Network.ResetNetworkOutputs | tensorrt_llm/graph_rewriting.py:394-454 | unmarking and re-marking the outputs replaces one tensor and keeps every position |
| GraphRewriter.Network.ReplaceOutputsUsesWith | tensorrt_llm/graph_rewriting.py:394-454 | both outputs are redirected in all layers and in the network outputs, exactly when that can be done |
| GraphRewriter.Network.EltwiseInputs | tensorrt_llm/graph_rewriting.py:586-610 | the loop splits the operands, in order, into those whose every way back ends within eleven layer outputs and the others |
| GraphRewriter.Network.Matches | tensorrt_llm/graph_rewriting.py:612-629 | matches exactly when some pair of operands makes the layer fusible, raises exactly when its call was not recorded or its sole qkv has no producer, and returns that pair as qkv and bias |
| GraphRewriter.Network.Fuse | tensorrt_llm/graph_rewriting.py:630-635 | the rewriting half produces exactly the specified network, or raises exactly when a user cannot be rewired |
| GraphRewriter.Network.Sweep | tensorrt_llm/graph_rewriting.py:254-270 | one pass of the mutable network is the specified pass |
| GraphRewriter.Network.Rewrite | tensorrt_llm/graph_rewriting.py:248-270 | the mutable rewrite completes exactly when the specified run does, and ends in its network |
| UniqueNames.NameInjective | tensorrt_llm/network.py:45-51 | two names of one generator are equal only for the same key and number, whatever the keys contain |
| UniqueNames.IssuedAt | tensorrt_llm/network.py:45-51 | the i-th name of a run carries its own key and the number of earlier calls with that key |
| UniqueNames.IssuedWrittenOut | tensorrt_llm/network.py:45-51 | the i-th name is the prefix, the module path with slashes and a slash if there is one, the key, an underscore and, in decimal, how many earlier calls resolve to the same key |
| UniqueNames.IssuedDistinct | tensorrt_llm/network.py:39-51 | over any run of calls, with any keys and module names, no name is returned twice |
| UniqueNames.UniqueNameGenerator.Call | tensorrt_llm/network.py:45-51 | the name is written out as above, is the next of the specified run and was never returned before |
| GraphIndex.GraphState.Build | tensorrt_llm/network.py:842-857 | the three tables filled by the nested loops equal a direct scan of all layers; a name not used again leads to its own layer |
| GraphIndex.ConsumersCount | tensorrt_llm/network.py:842-857 | the consumer list of a tensor has one entry for each (layer, input) that uses it |
| GraphIndex.ConsumersElements | tensorrt_llm/network.py:407-413 | a layer is among the consumers exactly when one of its inputs is the tensor |
| GraphIndex.GeneratedNamesIdentify | tensorrt_llm/network.py:253-299 | layers named by the generator have equal names exactly when they are the same layer |
| MnnvlDriver.MapSegmentsExact | tensorrt_llm/_mnnvl_utils.py:266-284 | when there is room, mapping one segment per rank succeeds and maps exactly those segments, segment j backed by handle j |
| MnnvlDriver.UnmapSegmentsExact | tensorrt_llm/_mnnvl_utils.py:310-313 | unmapping an allocation's segments succeeds and removes exactly those mappings |
| MnnvlMemory.AlignUpCovers | tensorrt_llm/_mnnvl_utils.py:201-202 | the aligned size is a multiple of the granularity, covers the size and wastes less than one unit |
| MnnvlRank.MappedApart | tensorrt_llm/_mnnvl_utils.py:267-270 | any two different segments of live allocations are disjoint |
| MnnvlRank.NextPointerFresh | tensorrt_llm/_mnnvl_utils.py:288-297 | the new pointer is not the key of a live entry |
| MnnvlRank.SwitchMid | tensorrt_llm/_mnnvl_utils.py:168-207 | after switching regions the allocation fits, so the assertion that follows cannot fail |
| MnnvlRank.PlaceInv | tensorrt_llm/_mnnvl_utils.py:207-301 | placing an allocation in the current region succeeds, adds exactly that entry under a fresh key and restores the invariant |
| MnnvlRank.OpenInv | tensorrt_llm/_mnnvl_utils.py:183-301 | an open on a rank at rest completes, adds exactly one entry under a fresh pointer and leaves the rank at rest |
| MnnvlRank.CloseInv | tensorrt_llm/_mnnvl_utils.py:303-323 | closing a live allocation completes (every driver call is legal, a region is freed once with its own size), removes exactly that entry and makes no collective call |
| MnnvlExact.OpenExactly | tensorrt_llm/_mnnvl_utils.py:183-301 | an open that fits behind the current offset reserves nothing and takes the next piece of the current region; any other reserves one new region of the whole 512 MB pages a segment needs, for every rank, and starts at its beginning |
| MnnvlExact.CloseExactly | tensorrt_llm/_mnnvl_utils.py:303-323 | closing one of several allocations of a region only counts it down; closing the last gives the region back and resets the current region exactly if it was that one |
| MnnvlSystem.OpenLog | tensorrt_llm/_mnnvl_utils.py:118-241 | the collective calls a process makes in an open depend only on whether its communicator existed and on how it exchanges handles |
| MnnvlSystem.CallsAgreeIff | tensorrt_llm/_mnnvl_utils.py:195-228 | over any number of opens two processes make the same collective calls exactly when they exchange handles the same way, or have opened nothing |
| MnnvlSystem.OpenAllInv | tensorrt_llm/_mnnvl_utils.py:183-301 | a collective open with agreed sizes completes on all ranks exactly when all exchange handles the same way |
| MnnvlSystem.StepInv | tensorrt_llm/_mnnvl_utils.py:183-323 | every allowed close completes, every allowed open exactly when all ranks exchange handles the same way, and both keep the invariant of the whole system |
| MnnvlSystem.RunSafe | tensorrt_llm/_mnnvl_utils.py:183-323 | every run of allowed opens and closes, in any interleaving, completes without a failed assertion, a failed driver call or an unmatched collective call, exactly when all ranks exchange handles the same way (or nothing is opened) |
| MnnvlGuarantees.LiveRangesDisjoint | tensorrt_llm/_mnnvl_utils.py:266-301 | in every reachable state the ranges mapped for live allocations on all rank slots are pairwise disjoint |
| MnnvlGuarantees.LiveRangeReserved | tensorrt_llm/_mnnvl_utils.py:168-181 | each such range is non-empty and lies in a region still reserved |
| MnnvlGuarantees.SegmentBacking | tensorrt_llm/_mnnvl_utils.py:222-286 | on every rank, segment j of an allocation is backed by the memory rank j created in that same open, even when regions and offsets have diverged |
| MnnvlGuarantees.OpensDiffer | tensorrt_llm/_mnnvl_utils.py:266-297 | two live allocations of a rank come from different opens |
| MnnvlGuarantees.CountsAtRest | tensorrt_llm/_mnnvl_utils.py:303-323 | each region's count is its number of live allocations, the counted regions are the reserved ones, the current region is unset or in use, and with nothing live nothing is reserved or mapped |
| MnnvlGuarantees.SameCollectives | tensorrt_llm/_mnnvl_utils.py:195-241 | in every reachable state all ranks have made the same collective calls in the same order, exactly those of their opens |
| MnnvlGuarantees.ElementInside | tensorrt_llm/_dlpack_utils.py:143-147 | every element of the tensor over a live allocation, for each of its rows and columns, lies wholly inside the range mapped for that row, for widths 1, 2, 4 and 8 |
| MnnvlGuarantees.ViewCovers | tensorrt_llm/_dlpack_utils.py:143-147 | the tensor has one row per rank, and its columns are exactly the places of whole elements in a segment of the requested size |
| MnnvlGuarantees.ElementShared | tensorrt_llm/_mnnvl_utils.py:100-104 | two ranks that hold the same allocation make tensors of the same shape, and through the same element reach the same bytes of the same memory, wherever each has mapped it |
| MnnvlProgress.OpenAlwaysPossible | tensorrt_llm/_mnnvl_utils.py:183-301 | from every reachable state of ranks that exchange handles the same way any positive size can be opened: there are addresses the driver may return, the open completes, and every rank gains exactly one live allocation |
| MnnvlProgress.ManyOpens | tensorrt_llm/_mnnvl_utils.py:183-301 | any list of positive sizes can be opened one after another, all staying live on every rank |
| MnnvlObject.MnnvlMemoryObject.NewMnnvlMemoryAddress | tensorrt_llm/_mnnvl_utils.py:168-181 | the new state of the class attributes is the specified region switch |
| MnnvlObject.MnnvlMemoryObject.MapAll | tensorrt_llm/_mnnvl_utils.py:266-284 | the mapping loop is the specified one, stopping at the first driver fault |
| MnnvlObject.MnnvlMemoryObject.Open | tensorrt_llm/_mnnvl_utils.py:183-301 | the mutable open completes, returns a pointer that was not live with the stride recorded for it, and keeps the invariant |
| MnnvlObject.MnnvlMemoryObject.Close | tensorrt_llm/_mnnvl_utils.py:303-323 | closing an unknown pointer is a key error that changes nothing; closing a live one is the specified close |
| RankMapping.MadeIsSized | tensorrt_llm/mapping.py:43-161 | a mapping that the constructor accepts has consistent sizes: world, attention and expert products, and a rank in range unless attention is data parallel |
| RankMapping.MadeSizes | tensorrt_llm/mapping.py:43-161 | every size and field of an accepted mapping in terms of the arguments: what was given is kept, an unset cluster is 1, with neither expert size given there is no expert parallelism, with one given the other is the quotient, and unset attention sizes depend on the context type |
| RankMapping.MakeOkIff | tensorrt_llm/mapping.py:43-161 | exactly the arguments the constructor accepts: the world product, expert and attention sizes that multiply or divide as they should, clusters and context parallelism without an expert split (except with helix), the LM head and rank conditions |
| RankMapping.CoordinatesDetermineRank | tensorrt_llm/mapping.py:583-593 | the three coordinates of a rank are in range and it is (pp * tp_size + tp) * cp_size + cp |
| RankMapping.RankDeterminesCoordinates | tensorrt_llm/mapping.py:583-593 | every triple of coordinates in range is that of exactly the rank composed of it in this way |
| RankMapping.PpNeighbours | tensorrt_llm/mapping.py:273-283 | the next and previous pipeline rank differ in the pipeline coordinate only, cyclically |
| RankMapping.CpNeighbours | tensorrt_llm/mapping.py:294-304 | the next and previous context rank differ in the context coordinate only, cyclically |
| RankMapping.NeighboursInverse | tensorrt_llm/mapping.py:273-304 | next and previous undo each other in both rings |
| RankMapping.WalksReturn | tensorrt_llm/mapping.py:273-304 | walking a ring returns to its start after the whole ring and not before |
| RankMapping.WalksReachAll | tensorrt_llm/mapping.py:273-304 | every member of the pipeline and of the context group is reached within one round |
| RankGroups.BuildTable | tensorrt_llm/mapping.py:626-664 | the nested append loops build the table of their group function |
| OwnGroups.BuildMoeEpGroups | tensorrt_llm/mapping.py:666-676 | the three nested loops build the table whose rows are (stage, expert tensor rank) pairs |
| OwnGroups.GroupsPartition | tensorrt_llm/mapping.py:626-646 | tensor, context and pipeline groups each list every rank exactly once |
| GroupLookups.OwnGroupsExactly | tensorrt_llm/mapping.py:583-605 | in every constructible mapping a rank finds itself in its own tensor, context and pipeline group, at its own coordinate, exactly when it is a rank of the world |
| GroupLookups.GroupsWrittenOut | tensorrt_llm/mapping.py:583-646 | every member of the tensor, context and pipeline group of a rank, written out: one coordinate varies, the other two are the rank's |
| OwnGroups.TpAndPpMeetOnce | tensorrt_llm/mapping.py:595-605 | a rank's tensor and pipeline groups have only the rank itself in common |
| GroupLookups.OwnMoeGroupsExactly | tensorrt_llm/mapping.py:607-624 | with one context rank, in every constructible mapping a rank finds itself in its expert tensor, expert and cluster group exactly when it is a rank of the world, in the first two at its own coordinate; its place in the third is the cluster rank exactly when clusters are used or the expert rank is 0 |
| GroupLookups.MoeRankWrittenOut | tensorrt_llm/mapping.py:583-624 | with one context rank, a rank is composed of its stage and its three expert coordinates, all in range |
| GroupLookups.MoeGroupsWrittenOut | tensorrt_llm/mapping.py:607-676 | with one context rank, every member of the expert tensor, expert and cluster group of a rank, written out |
| GroupLookups.OutsideRankIsAccepted | tensorrt_llm/mapping.py:202-210 | a mapping of one rank can be made for rank 5 with attention data parallelism, and its tensor group is then not found |
| MoeGroups.MoeGroupsPartition | tensorrt_llm/mapping.py:648-676 | each kind of expert group lists every rank exactly once |
| MoeGroups.RepurposeSucceeds | tensorrt_llm/mapping.py:531-549 | every valid helix mapping is repurposed without error into a valid mapping of the same ranks |
| MoeGroups.RepurposedGroupIsStage | tensorrt_llm/mapping.py:531-549 | after repurposing, a rank's tensor group is its whole pipeline stage in rank order |
| Communicators.OrderedUnique | tensorrt_llm/_mnnvl_utils.py:118-129 | colour members ordered by key and old rank: the split determines the communicator completely |
| Communicators.HelixCommIsCpGroup | tensorrt_llm/_mnnvl_utils.py:367-377 | for every mapping the helix communicator is the rank's context group, with communicator rank equal to the context rank |
| Communicators.MoeCommIsEpGroup | tensorrt_llm/_mnnvl_utils.py:118-129 | with one context rank, the communicator is the rank's expert group exactly when the cluster size is 1, and then the communicator rank is the expert rank |
| Communicators.TargetOwnsExpert | tensorrt_llm/_mnnvl_utils.py:450-457 | the target computed for an expert is the one member of the group whose expert list contains it, and lists are blocks of equal size |
| PipelineLayers.PpRankOfLayer | tensorrt_llm/mapping.py:331-362 | the branches, and the loop that accumulates the stage ends, compute the specified owner or error |
| PipelineLayers.OwnerFailsIff | tensorrt_llm/mapping.py:331-362 | the lookup fails exactly for a layer out of range, or a partition that does not fit two or more stages |
| PipelineLayers.OwnerListsLayer | tensorrt_llm/mapping.py:315-362 | stage r lists layer l exactly when r is the computed owner of l, empty stages and fewer layers than stages included |
| PipelineLayers.BadPartitionFails | tensorrt_llm/mapping.py:315-362 | a partition that does not fit fails in both functions with the same error, except that a single stage never looks at it |
| PipelineLayers.StagesCoverInOrder | tensorrt_llm/mapping.py:315-329 | the stage lists, one after another, are 0, 1, ..., n - 1 |
| PipelineLayers.DefaultStagesBalanced | tensorrt_llm/mapping.py:326-329 | without a partition, stage sizes differ by at most one |
| PipelineLayers.DefaultStageSize | tensorrt_llm/mapping.py:326-329 | without a partition the first n % pp_size stages have one layer more than n / pp_size, the others exactly that many |
| PipelineLayers.PartitionStageSize | tensorrt_llm/mapping.py:315-325 | under a partition every stage has as many layers as it says |
| PipelineLayers.PpLayersOfRank | tensorrt_llm/mapping.py:315-329 | a rank of the world gets the layers of its own stage, or the same error; every listed layer exists |
| PipelineLayers.PpLayersOfAnyRank | tensorrt_llm/mapping.py:315-329 | for any rank the constructor accepts, listing fails exactly when the partition does not fit or the rank lies outside the world on either side; a negative rank counts from the end |
| LoraInterleave.SplitPart | tensorrt_llm/lora_manager.py:995-1002 | splitting a non-empty part gives exactly one chunk per rank, the k-th being rank k's |
| LoraInterleave.InterleaveGivesEveryRankItsRows | tensorrt_llm/lora_manager.py:976-1007 | when no part is empty the result is a permutation of the rows, and the r-th of tp equal slices is every part's r-th chunk in part order |
| LoraInterleave.InterleavePermutesIff | tensorrt_llm/lora_manager.py:976-1007 | no row is lost or repeated exactly when there is one rank, no part is empty, or all are |
| LoraInterleave.EmptyPartLosesRows | tensorrt_llm/lora_manager.py:995-1007 | two rows beside an empty part, split for two ranks: the second row is lost |
| LoraInterleave.GateUpSlices | tensorrt_llm/lora_manager.py:963-1038 | gate_up weights, swapped on loading and then prepared: slice r is the second half's chunk r followed by the first half's, and no row is lost |
| LoraInterleave.QkvSlices | tensorrt_llm/lora_manager.py:1009-1038 | attn_qkv weights of head_size * (heads + 2 * kv_heads) * tp rows: slice r is exactly the row ranges of rank r's queries, keys and values; rows are kept exactly when there is one rank (then in place) or queries and keys are both present or both absent |
| LoraInterleave.PrepareSucceedsIff | tensorrt_llm/lora_manager.py:1009-1038 | the preparation succeeds exactly on one rank, for gate_up with an even number of rows whose half divides by tp, for attn_qkv with head_size * (heads + 2 * kv_heads) * tp rows, and for every other module |
| LoraOutcomes.MissingQkv | tensorrt_llm/lora_helper.py:21-39 | a module is reported missing exactly when it is a q, k or v projection that is not a target while one of its two companions is |
| LoraOutcomes.InvertExactly | tensorrt_llm/lora_manager.py:211-230 | an hf module leads to the last module that lists it |
| LoraOutcomes.FirstHfIs | tensorrt_llm/lora_manager.py:1061-1068 | a missing module is filled in under the first hf module that its first entry in the mapping lists, or not at all |
| LoraOutcomes.NemoRecords | tensorrt_llm/lora_manager.py:811-845 | a NeMo layer with both matrices: attn_qkv gets the rank of its input matrix, both addresses and no magnitude |
| LoraOutcomes.NemoRaisesIff | tensorrt_llm/lora_manager.py:811-833 | a NeMo layer raises exactly when attn_qkv is a target and one of its matrices is missing; every other target is skipped |
| LoraOutcomes.HfRecords | tensorrt_llm/lora_manager.py:1061-1142 | a storable hf entry, not followed by another of its module, decides the recorded rank and addresses, the magnitude included unless there are experts |
| LoraOutcomes.HfRaisesIff | tensorrt_llm/lora_manager.py:1070-1131 | an entry raises exactly when no module lists it, or it belongs to a target and a matrix is missing, its rows do not fit the tensor parallel split, or its rank is zero without rsLoRA; it is skipped exactly when its module is not a target |
| LoraOutcomes.PreparableIff | tensorrt_llm/lora_manager.py:1009-1038 | the condition on the number of rows under which an entry is stored, written out in heads and head size, is exactly the one under which the reordering of the rows succeeds |
| LoraOutcomes.StepAgrees | tensorrt_llm/lora_manager.py:1137-1148 | recording one module keeps the invariant that a non-zero rank has a triple of tensors that are kept alive |
| LoraOutcomes.UntargetedStayZero | tensorrt_llm/lora_manager.py:1061-1077 | a module outside the targets never gets a pointer or a non-zero rank, from either loader |
| LoraOutcomes.FilledExactly | tensorrt_llm/lora_manager.py:1061-1068 | filling in succeeds exactly when every missing module has an hf module, and then the layer holds the zeros under those hf modules and the checkpoint's weights elsewhere |
| LoraOutcomes.ZerosStoredIff | tensorrt_llm/lora_manager.py:1061-1142 | the zeros are stored in a layer exactly when every missing module has an hf module and that of some missing module leads, in the inverted mapping, to a target that accepts them |
| LoraOutcomes.StoredZerosReplace | tensorrt_llm/lora_manager.py:1061-1142 | zeros that are stored are stored as exactly the zero matrices, and the checkpoint's own weights under that hf module are gone |
| LoraOutcomes.ZerosReplaceWeights | tensorrt_llm/lora_manager.py:1061-1142 | with attn_qkv sharing q_proj with the missing attn_q, the rank and addresses recorded for attn_qkv are those of the zero matrices, whatever the checkpoint has for q_proj |
| LoraTable.GeneratedDistinct | tensorrt_llm/lora_manager.py:1201-1206 | uids generated over any run are pairwise different |
| LoraTable.LoraManager.GenerateUid | tensorrt_llm/lora_manager.py:1201-1206 | the loop terminates with the first numeral at or above the counter that is not loaded, never generated before |
| LoraTable.LoraManager.Record | tensorrt_llm/lora_manager.py:1137-1164 | one module's rank, pointers, kept tensors and C++ rows are recorded; it raises exactly for a raised outcome, a module without an id or lists that are stacked already, and the invariant holds even then |
| LoraTable.LoraManager.LoadLayer | tensorrt_llm/lora_manager.py:807-858 | the module loop completes exactly when every outcome can be recorded, leaves exactly the layer's recorded ranks and pointers, and touches no other adapter |
| LoraTable.LoraManager.LoadLayers | tensorrt_llm/lora_manager.py:1054-1173 | the layer loop completes exactly when every outcome can be recorded and a new uid has something to stack; it leaves exactly the adapter's tables and, for a new uid, exactly its rows, stacked and padded, with their configuration rows |
| LoraTable.LoraManager.LoadFromCkpt | tensorrt_llm/lora_manager.py:780-875 | completes exactly when there is one uid per checkpoint and every new one can be read and recorded, a repeated uid only with nothing to store; returns exactly the uids not loaded before, records each one's last checkpoint and stacks its rows, leaves the ranks, pointers and C++ rows of every earlier adapter unchanged even when it raises, and generated uids are all new |
| LoraTable.AfterKeeps | tensorrt_llm/lora_manager.py:780-792 | a load adds its uids and leaves every other adapter as it was |
| LoraTable.AfterRecords | tensorrt_llm/lora_manager.py:804-858 | what a load records for a uid is what its last checkpoint holds, layer by layer |
| LoraTable.AdapterRowsAgree | tensorrt_llm/lora_manager.py:1152-1164 | weight rows and configuration rows stay in step, each configuration row carrying the rank and DoRA flag of its weights |
| LoraTable.StackAgrees | tensorrt_llm/lora_manager.py:1166-1173 | padding gives all rows one width, at least their size, and keeps them in step with the configuration rows |
| LoraTable.BufferNamesDiffer | tensorrt_llm/lora_manager.py:1265-1268 | buffers of different modules or layers, and rank and pointer buffers, never share a name |
| LoraTable.LoraManager.Columns | tensorrt_llm/lora_manager.py:1245-1264 | the entries of all uids for one module and layer; fails exactly when a uid is not loaded |
| LoraTable.LoraManager.InputBuffers | tensorrt_llm/lora_manager.py:1239-1269 | raises exactly when the stage's layers cannot be listed, or a uid was never loaded and there is anything to look up; otherwise every layer and module has its rank and pointer buffers with every uid's entry in order |
| LoraServed.WrittenOut | tensorrt_llm/lora_manager.py:1239-1269 | the buffers under their names in text, one entry per uid: 0 and three null pointers for the uid -1 and for anything without a rank, else the recorded rank and pointers |
| LoraServed.HfServed | tensorrt_llm/lora_manager.py:1054-1269 | end to end: after a load, the engine is given for a storable entry of a layer the rank of its input matrix and the addresses of its matrices and magnitude |
| LoraServed.NemoServed | tensorrt_llm/lora_manager.py:804-1269 | end to end for NeMo: attn_qkv is given the rank of its input matrix and both addresses |
| LoraServed.LayerRowCount | tensorrt_llm/lora_manager.py:1150-1164 | a layer adds one C++ row for every stored module and no other |
| LoraServed.LayerRowAt | tensorrt_llm/lora_manager.py:1150-1164 | the rows come in the order of the modules, each with the module's tensors, as wide as these together, and its id, layer, rank and DoRA flag |
| ModuleGraph.NamesDiffer | tensorrt_llm/module.py:112-114 | different paths of dot-free names have different dotted names, unless a leading empty name is swallowed |
| ModuleWalk.SweptAll | tensorrt_llm/module.py:102-114 | what a visit adds to the memo is exactly what the module reaches without passing through what was there before |
| ModuleOrder.FirstThroughChild | tensorrt_llm/module.py:102-114 | the first way, by attribute positions, to a module that no earlier child leads to goes on with the child's first way |
| ModuleOrder.DepthFirstDetermined | tensorrt_llm/module.py:102-114 | two depth-first listings of the same modules are the same list, names and order included |
| ModuleWalk.Walker.Visit | tensorrt_llm/module.py:102-114 | the recursive walk with a shared memo terminates on any graph, lists every new module once under a path that leads to it, in the order of the first ways from here, and the children listed directly are those first met there |
| ModuleWalk.NamedModules | tensorrt_llm/module.py:102-114 | every reachable module exactly once, named after the lexicographically first way of attribute positions that leads to it without meeting a module twice, in the order of these ways |
| ModuleWalk.NamesDistinctIff | tensorrt_llm/module.py:102-114 | with dot-free attribute names no two module names are equal, except exactly when there is no prefix and the root's empty-named child is first met there |
| ModuleWalk.EmptyNameCollides | tensorrt_llm/module.py:112-114 | a root with one module under the empty name: both are called by the empty name |
| ModuleParameters.Members | tensorrt_llm/module.py:150-160 | every parameter of every listed module exactly once, where it first occurs, under a path that leads to it, module by module and attribute by attribute |
| ModuleParameters.NamedParameters | tensorrt_llm/module.py:166-171 | every parameter of every reachable module (or of the module alone) exactly once, in depth-first order, each name a path that leads to it |
| ModuleParameters.ParametersDetermined | tensorrt_llm/module.py:150-160 | what the loops promise determines the list of parameters completely |
| ModuleParameters.ParameterNamesDistinctIff | tensorrt_llm/module.py:150-171 | with dot-free keys no two parameters share a name exactly when no two listed modules with the same dotted name each are the first to list a parameter under the same key |
| ModuleParameters.ParameterNamesDistinct | tensorrt_llm/module.py:150-171 | in particular, with dot-free names throughout, names are distinct when there is a prefix, no recursion, or no module under the root's empty name |
| ModuleParameters.EmptyModuleNameCollides | tensorrt_llm/module.py:150-160 | on a root with a module under the empty name, each with one parameter, the names that are returned are equal exactly when the two keys are |
| ManagedWeights.BytesRoundTrip | tensorrt_llm/builder.py:925-941 | a header length that fits in eight bytes is read back from its little-endian form |
| ManagedWeights.BuildHeader | tensorrt_llm/builder.py:896-922 | the header loop records for every weight the range that starts where the bytes before it end, or raises for a type it does not know |
| ManagedWeights.Serialize | tensorrt_llm/builder.py:893-935 | the file is eight bytes with the length of the header, least significant first, the header from byte 8 on and then all array bytes in order; raises exactly for an unknown type or a header of 2^64 bytes or more |
| ManagedWeights.RangesTile | tensorrt_llm/builder.py:917-922 | the data ranges tile the buffer without gap or overlap, each as long as its array |
| ManagedWeights.RangeSizes | tensorrt_llm/builder.py:896-922 | an array's range is 4, 2, 2, 1, 8, 4 or 1 bytes for each element, by type |
| ManagedWeights.HeaderExactly | tensorrt_llm/builder.py:896-922 | the header has one entry per weight, and the metadata unless a weight took its name |
| ManagedWeights.Deserialize | tensorrt_llm/builder.py:938-969 | on any bytes, the reading loop computes the specified read, exceptions included |
| ManagedWeights.RoundTripIff | tensorrt_llm/builder.py:893-969 | reading back gives the written dictionary exactly when no array is 8-bit integer and no metadata entry is left in the header |
| ManagedWeights.Int8IsNotReadBack | tensorrt_llm/builder.py:914-962 | one 8-bit integer array is written without complaint and never read back |
| TokenBudget.CheckMaxNumTokens | tensorrt_llm/_common.py:229-306 | with padding removed a requested limit between the floor and batch times sequence length is returned as it is, one outside is moved to the nearer end (the floor wins), and the tuning point is the requested one, or one token per beam, capped by the limit; with padding kept the limit is batch times sequence length if anything was asked |
| TokenBudget.NormalisedIsStable | tensorrt_llm/_common.py:229-306 | normalising twice changes nothing more |
| TokenBudget.NormalisedBounds | tensorrt_llm/_common.py:250-306 | with padding removed the limit covers max_input_len or tokens_per_block, the tuning point is at most the limit, and the limit is at most batch times sequence length exactly when that floor is |
| TokenBudget.BuildConfig.SettleTokens | tensorrt_llm/builder.py:861-880 | prompts are clipped to the sequence length, the limits are normalised as above, so without context fMHA the limit lies between max_input_len and batch times sequence length |
| TokenBudget.BuildConfig.GrowForSpeculation | tensorrt_llm/builder.py:1012-1058 | the new draft length, the sequence length grown by it, the token limit as the larger of the old one and batch times (draft + 1), and exactly when the adjustment raises |
| TokenBudget.GrowthKeepsBounds | tensorrt_llm/builder.py:1027-1058 | growth keeps the tuning point below the limit, reaches batch times (draft + 1), and keeps the limit within batch times sequence length if it was |

## Left out

- CUDA, NVML, pidfd system calls, MPI and TensorRT objects: only the stated environment assumptions are kept.
- A driver call that fails in the middle of an open or close: the code promises no recovery; the model stops at the fault.
- The new layer's and tensors' renaming inside `replace_outputs_uses_with`, and the other pattern managers of graph_rewriting.py: they do not affect meaning.
- Only the attention-fusion pattern is registered in the modelled rewrite, as in `optimize`.
- `DeviceMeshTopology`: its implementation lives in another file.
- Expert group lookups with more than one context rank: the code builds those tables for another world size.
- LoRA scaling, DoRA norms, data types and the text of checkpoint keys: rows and tensors are opaque, with an address, an extent and a length; stacked expert weights are one tensor, and the reordering of expert stacks acts on each expert's rows.
- The JSON text of the weights header: any text codec that can be decoded again, with as many bytes as characters.
- `named_modules` with duplicates kept: it does not terminate on cyclic graphs, and nothing is promised.
- The deduction of max_seq_len from rotary scaling: floating point in the configuration.
- Engine building and saving, network hashing, graph export, all-to-all kernels, command-line tools and experiment scripts: plumbing that would add only easy members.
