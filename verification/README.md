# Verified models of verl's stateful cores

This project models parts of verl, the reinforcement-learning library under Perceval, and proves what they promise: the
activation-offload handler, the batch protocol and its data-parallel dispatch, the conversion of checkpoints between
layouts, distributed loading of safetensors files, and five smaller algorithms from the recipes. `dafny verify
dfyconfig.toml` checks everything.

## What is modelled

**Activation offload** (`WindowSchedule`, `OffloadState`, `OffloadHandler`, `OffloadRefinement`, `OffloadRuns`,
`OffloadTraining`, `OffloadResidency`). `OffloadHandler` has the handler as a class with the source's dictionaries and
counters; its methods are proved equal to the transitions of `OffloadState`, where `None` stands for any exception: a
failed assertion, a missing dictionary key, a view of the wrong size. A tensor is its flattened data, a shape, a storage
address, an offset and an element type. `Plain` is the specification: a dictionary from tags to tensors, with the
position in the pass. A run is any sequence of calls in the order autograd makes them; `OffloadTraining` builds the runs
of a trainer, L layers forward and back, for any number of steps, any tensors saved by a layer, and any order of use in
a layer's backward. To say exactly when the handler fails, a second dictionary (`Seen`) gives back what one host copy a
key allows, and the handler refines it on every run; `OffloadResidency` counts the groups on the device.

**Batch protocol** (`Indexing`, `DataProto`, `Concatenation`, `Dispatch`, `Expansion`, `Generation`). A batch has named
tensor columns and named object columns, arrays of any number of dimensions; `Rows` reads it across both kinds, and each
operation is specified by what it does to rows and shapes. Workers are arbitrary functions on batches whose output rows
depend on the input rows one by one.

**Checkpoint layout** (`CheckpointLayout`, `LayerMerge`). A weight is the sequence of its rows, a pipeline stage the
sequence of its keys. Packing, sharding, merging and renumbering keep the source's loops and its failing assertions.

**Safetensors loading** (`Loader`, `LoaderAgreement`, `ModuleTree`). Every rank is a `RankLoader` that walks the same
module tree and records the broadcasts it issues. `net(k)` is what the k-th broadcast delivers to the ranks that are not
its source. That a broadcast delivers what its source put in (`Honest`) is the only assumption about the network.

**Recipes.** `Dapo` (dynamic sampling), `ImageSlicing` and `ImagePlaceholder` (MiniCPM-o images and their text),
`Retool` (multi-turn transcripts), `PrimeRewards` and `Oversample` (PRIME), `GpuCheck`, `GpuCompleteness`,
`GpuIncompleteness` and `GpuExactness` (resource pools: what the check guarantees, and for which pools it is complete).

`Common`, `Arithmetic`, `Sequences`, `Sets` and `Reals` hold shared definitions. Arithmetic on floats is over the reals.

## What the proofs found

Each entry names the lemma that states the condition exactly, in both directions.

- Offloading keeps one host copy for each (address + offset, element type). A training run returns every tensor exactly
  when all tensors that one layer saves from one such place have the same flattened data, for every layer whose group
  leaves the device (`RoundTripExact`), so always when they begin at different places (`DistinctViewsReturn`). It raises
  exactly when two of one place differ in their number of elements (`RaisesExactly`). In between it returns wrong data
  without raising: a matrix and its transpose, saved by one layer, do this for all numbers of groups and layers
  (`TransposeIsLost`).
- Offloaded groups are complete on every run exactly when there are fewer groups than layers, or a single group
  (`CompleteExactly`). With as many groups as layers a group is offloaded before its tensors are pushed
  (`CurrentHosted`), and no group but the first ever leaves the device (`OthersStay`).
- With G groups and L layers up to L - G + 1 groups are on the device at once, or L - 1 when G = L > 1, and this many
  are (`ResidentBound`, `ResidentReached`). The documented bound of two holds on every run exactly when G = L - 1, which
  `enable_activation_offloading` chooses, or L <= 2, or G = L = 3 (`TwoGroupsExactly`).
- `DataProto.concat` succeeds exactly when the parts' columns are ones the first part has, arrays under one name have
  one shape (one-dimensional tensors without elements are passed over) and, if the first part has tensors, no part with
  rows lacks an object column. Without tensors such a part is accepted; the result holds the parts' rows exactly when
  there is none (`ConcatExactly`). So workers that trim their outputs differently cannot be collected: `RunWorkers` asks
  for outputs of one shape.
- `unfold_column_chunks` raises exactly when a column named in the split keys cannot be cut (n is zero, or it has no
  second dimension, or n does not divide that dimension and it has elements), or there are no split keys and there is an
  object column (`UnfoldRaisesExactly`). Its documentation says that without split keys all keys are repeated; this is
  true exactly when there is no object column (`UnfoldWithoutKeys`).
- Loading succeeds on all ranks exactly when every initialised slot has a name left and the files store that name; of a
  tied parameter only the name that the walk meets first has to be stored, of a tied buffer every name
  (`GroupLoadsExactly`).
- Merging tp equal shards and splitting the whole succeed for the same tensors, those whose shards hold whole heads of
  each local group, and agree (`MergeShardsIsSplitWhole`).
- The mergers count a pipeline stage as its largest layer number plus one, so a stage without layers counts as one. The
  running count is right exactly when no stage is empty (`RenumberingExact`), and all layers get their own numbers
  exactly when no empty stage comes before a stage with layers (`NumbersRightExactly`).
- A packed gate/up weight cut into tp plain shards is restored by the merger exactly when a shard has an even number of
  rows and, of the 2 tp blocks, block i equals block 2i and block tp + i equals block 2i + 1 for all i < tp
  (`PlainCutMergesExactly`): it has to be sharded as gate and up separately.
- Without a slicing configuration, image ids make the placeholder loop raise exactly when there is an image
  (`CollectUnsliced`): it reads the placeholder of the image before.
- The k-th bound of a prompt belongs to the k-th picture, for all k, exactly when the prompt refers to every image once
  and in the order of the dictionary (`PairedExactly`), and with a single image exactly when it is named at most once
  (`SinglePaired`). The code accepts every other order, and repeated or missing references, too.
- Plain text after the final answer, even a newline, makes a transcript fail; it is accepted exactly when it is empty
  (`TrailingTextExactly`). Any rest without a code block is accepted exactly when the parser, expecting an interpreter
  block, accepts it by itself (`ParseRenderThen`); an interpreter block is (`TrailingOutputAccepted`).
- The resource check compares only a pool's first entry with the nodes. Passing guarantees a node for every entry, on
  every cluster, exactly when no entry exceeds the first or the pool wants at most one process
  (`SinglePoolSoundExactly`).
- Placing several pools one after another, each counted with its first entry, finds a placement on every cluster that
  has one exactly when each pool that wants processes is followed only by pools on single nodes, and any of these that
  together want more than its share include some that together want exactly its share (`PlacingExactly`); for uniform
  pools this holds of the whole check (`SeveralPoolsExactly`). Equal shares always meet the latter (`EqualDemandsGood`),
  and a pool of one process before one of two does not (`GreedyIsIncomplete`).
- A row patched with its outcome sums to the outcome exactly when it has a token, or the outcome is zero
  (`PatchedTotal`).
- Oversampling splits a prompt exactly when the number of kept rows is not a multiple of the samples a prompt
  (`WholePromptsExactly`).

## Model

| member | source | states |
|---|---|---|
| WindowSchedule.BuildWindowMap | verl/utils/activation_offload.py:246-257 | The loop with its running constant gives group i the closed form (L div G)(i+1) - 1 + min(i+1, L mod G) |
| WindowSchedule.WindowGap | verl/utils/activation_offload.py:246-257 | Load balance: consecutive groups retire q or q + 1 layers apart, the longer gaps first |
| WindowSchedule.WindowIncreasing | verl/utils/activation_offload.py:246-257 | For L >= G windows grow by at least one a group, so groups retire one at a time and in order |
| WindowSchedule.WindowDelay | verl/utils/activation_offload.py:246-257 | A group never retires before its own layer's commit, and strictly after it exactly when G < L |
| WindowSchedule.WindowBounds | verl/utils/activation_offload.py:246-257 | Every window lies in the forward pass it belongs to; with WindowLast, the last is L - 1 |
| WindowSchedule.WindowAllButLast | verl/utils/activation_offload.py:546 | For the caller's G = L - 1 each group retires exactly one layer later |
| OffloadHandler.AsyncDoubleBufferGroupOffloadHandler.constructor | verl/utils/activation_offload.py:228-261 | A new handler is empty, with the schedule of its sizes |
| OffloadHandler.AsyncDoubleBufferGroupOffloadHandler.TensorPush | verl/utils/activation_offload.py:263-286 | The whole new state and the tag handed out; raises exactly when the tag is taken |
| OffloadHandler.AsyncDoubleBufferGroupOffloadHandler.TensorPop | verl/utils/activation_offload.py:288-299 | The whole new state and the tensor; raises exactly when the tag is unknown or still offloaded |
| OffloadHandler.AsyncDoubleBufferGroupOffloadHandler.BulkOffloadGroup | verl/utils/activation_offload.py:301-320 | The in-place loop replaces every tensor of the group by its key and shape and copies the first tensor of each key; raises exactly when one is already replaced |
| OffloadHandler.AsyncDoubleBufferGroupOffloadHandler.OnGroupCommitForward | verl/utils/activation_offload.py:322-355 | Kickstart of group 0, release and offload at the scheduled commit, counters, for every state; raises exactly on a missing window or a failing offload |
| OffloadHandler.AsyncDoubleBufferGroupOffloadHandler.BulkReloadGroup | verl/utils/activation_offload.py:357-374 | Takes the group's copies out of the mapping and replaces its references by views of them, keeping every other entry; raises exactly when a key is missing or a view does not fit |
| OffloadHandler.AsyncDoubleBufferGroupOffloadHandler.OnGroupCommitBackward | verl/utils/activation_offload.py:376-398 | Prefetch at the scheduled commit and both counters, for every state; raises exactly on a negative group, a missing window or a failing reload |
| OffloadRefinement.CurrentHosted | verl/utils/activation_offload.py:336-345 | By the schedule, the group being pushed is already offloaded exactly when G = L and it is neither the first nor past the last; OthersStay says what follows on a run |
| OffloadRefinement.SimPush | verl/utils/activation_offload.py:263-286 | A push in its place never raises and hands out the next tag; the handler then stands for the dictionary that holds, under the tag, what the first tensor of its key in a group that leaves the device makes of it |
| OffloadRefinement.SimForward | verl/utils/activation_offload.py:322-355 | A forward commit in its place never raises and keeps every entry standing for its tensor, on the device or as a host copy |
| OffloadRefinement.SimBackward | verl/utils/activation_offload.py:376-398 | A backward commit in its place raises nothing when the tensors it stands for fill their shapes, and keeps every entry standing for its tensor |
| OffloadRefinement.SimPop | verl/utils/activation_offload.py:288-299 | When a layer's backward asks for a tag, its tensor is on the device again, with the data, shape and type the handler stands for |
| OffloadRuns.HandlerIsDictionary | verl/utils/activation_offload.py:263-398 | On every run with 1 <= G <= L whose exposed groups save only views that agree under one key, no exception is raised and every pop returns what was pushed, as from a plain dictionary |
| OffloadRuns.HandlerExact | verl/utils/activation_offload.py:263-398 | On runs that pop every tensor: nothing is raised exactly when, in every group that leaves the device, views under one key are equally long, and the answers are the dictionary's exactly when they hold the same data |
| OffloadRuns.StepRestoresInit | verl/utils/activation_offload.py:376-398 | When a step is finished, all maps are empty and all counters zero again |
| OffloadResidency.OffloadedGroupsAreComplete | verl/utils/activation_offload.py:301-348 | With G < L, or one group, an offloaded group has no tensor left on the device and none is pushed to it afterwards |
| OffloadResidency.CompleteExactly | verl/utils/activation_offload.py:301-348 | Offloaded groups are complete at every point of every run exactly when G < L or there is one group |
| OffloadResidency.OthersStay | verl/utils/activation_offload.py:322-348 | With G = L, at every point of every run, the tensors of all groups but the first are on the device |
| OffloadResidency.AtMostTwoGroupsResident | verl/utils/activation_offload.py:503-546 | With G = L - 1, at every point of every run only the current group and the one before it have tensors on the device, buffered references included |
| OffloadResidency.ResidentBound | verl/utils/activation_offload.py:322-398 | At every point of every run at most L - G + 1 groups, the latest ones, have tensors on the device when G < L, and at most max(1, L - 1) when G = L |
| OffloadResidency.ResidentReached | verl/utils/activation_offload.py:322-398 | A run that never raises has that many groups on the device |
| OffloadResidency.TwoGroupsExactly | verl/utils/activation_offload.py:503-546 | At most two groups are on the device, at every point of every run, exactly when G = L - 1, or L <= 2, or G = L = 3 |
| OffloadRuns.ForwardLog | verl/utils/activation_offload.py:322-348 | A forward commit issues one offload for each group that becomes hosted and no other transfer |
| OffloadRuns.BackwardLog | verl/utils/activation_offload.py:376-398 | A backward commit issues one reload for the group that stops being hosted and no other transfer |
| OffloadRuns.EachGroupOnceAStep | verl/utils/activation_offload.py:301-398 | After n finished steps each group has been offloaded n times and reloaded n times, and nothing else was copied |
| OffloadRuns.ReloadedBeforePop | verl/utils/activation_offload.py:288-299 | Whenever a tag of an offloaded group may be popped, its group has been offloaded and reloaded exactly once in this step |
| OffloadTraining.TrainingRun | verl/utils/activation_offload.py:263-398 | For any number of training steps built layer by layer: no exception, the dictionary's answers, the initial state at the end, one round trip a group a step |
| OffloadTraining.RoundTripExact | verl/utils/activation_offload.py:263-398 | A training run, of any number of steps, raises nothing and returns every tensor exactly when the views that an exposed layer saves from one place, an address plus offset and an element type, flatten to the same data |
| OffloadTraining.RaisesExactly | verl/utils/activation_offload.py:357-374 | It raises exactly when two such views of one place differ in their number of elements |
| OffloadTraining.TransposeIsLost | verl/utils/activation_offload.py:35-37 | For all G <= L, a training step that saves a matrix and its transpose in one layer raises nothing and returns wrong data |
| OffloadTraining.DisjointStoragesHaveDistinctKeys | verl/utils/activation_offload.py:35-37 | Adding an element offset to a byte address never makes the keys of disjoint storages collide |
| OffloadTraining.OneStorageDistinctKeys | verl/utils/activation_offload.py:35-37 | Views of one storage share a key exactly when they have one offset and one element type |
| OffloadTraining.DistinctViewsReturn | verl/utils/activation_offload.py:263-398 | A training run whose layers save tensors that pairwise differ in address plus offset, or in element type, raises nothing and returns all of them |
| DataProto.SliceByRows | verl/protocol.py:500-544 | Any slice, with negative or missing bounds and any step, takes the rows Python names, the same in every column of both kinds; it raises exactly on step zero, or a negative one with tensors |
| DataProto.SliceIsRange | verl/protocol.py:500-544 | Without a step, the slice is the run of rows between the clamped bounds |
| DataProto.SliceBetween | verl/protocol.py:500-544 | data[a:b] is the rows from a to before b, where a bound past the end is the end |
| DataProto.SliceEnds | verl/protocol.py:500-544 | data[:b] is the first b rows and data[-k:] the last k, or all |
| Indexing.SliceUp | verl/protocol.py:529-541 | With a positive step a place is named exactly when it is in the sequence, from a on, before b, and whole steps from a |
| Indexing.SliceDown | verl/protocol.py:529-541 | With a negative step exactly when it is at or before the start, behind the stop, and whole steps from the start |
| Indexing.DownToTheFirst | verl/protocol.py:529-541 | With a negative step and no stop the places go down to the first one |
| Indexing.FromTheEnd | verl/protocol.py:529-541 | A bound -k of a sequence of n acts as n - k |
| Indexing.MissingBounds | verl/protocol.py:529-541 | What missing bounds, and negative ones before the first place, act as, in both directions |
| Indexing.SliceInOrder | verl/protocol.py:529-541 | The places are named in the direction of the step, each once |
| DataProto.SelectRows | verl/protocol.py:460-498 | Selecting by indices, negative ones too, or by a mask lists the rows named, in that order, across all columns; it raises exactly on an index outside, or a mask of another length |
| DataProto.SelectPositions | verl/protocol.py:460-498 | Row i of a selection is the row that index i names, counted from the end when it is negative |
| DataProto.SelectMask | verl/protocol.py:460-498 | A mask selects the rows where it holds, in their order |
| Concatenation.ConcatExactly | verl/protocol.py:730-751 | For parts with any columns of any shapes: when concatenation succeeds, when the result is a consistent batch of the parts' rows in order, and then its shapes |
| Dispatch.PadToDivisor | verl/protocol.py:70-95 | For every batch and divisor: the padded length is the next multiple, row i is row i mod n, an empty batch stays empty, only divisor zero raises |
| Dispatch.ChunkRows | verl/protocol.py:689-728 | Chunk j is one run of whole rows: tensor columns and object columns are cut at the same places |
| Dispatch.ChunkAllRows | verl/protocol.py:689-728 | Equal chunks taken together are the batch, in order |
| Dispatch.FuturesPartition | verl/protocol.py:917-939 | Chunked futures, each fetched on its own, share out the collected rows of outputs of one shape without loss or overlap |
| Dispatch.UnpadRows | verl/protocol.py:98-102 | Dropping the padding of a row-wise result leaves the result for the original rows |
| Dispatch.UnpadIsSlice | verl/protocol.py:98-102 | The slice with a negative bound drops exactly the padding, and everything when there is more padding than rows |
| Dispatch.RunWorkers | verl/protocol.py:70-102 | Pad, chunk, work, concat and unpad equal applying the worker's function row by row, for every non-empty batch, every number of workers, and every worker whose outputs have one shape |
| Generation.SampleBatch | verl/trainer/main_generation.py:99-132 | One batch of prompts gives each prompt its own answer, whatever the number of workers and however wide the tokenizer pads the batch |
| Generation.MainTask | verl/trainer/main_generation.py:91-136 | Entry (i, s) of the result is the s-th answer to the i-th prompt, for every batch size, number of workers and number of prompts, with each batch padded to its own width |
| Expansion.RepeatRow | verl/protocol.py:761-803 | Interleaved, copy s of row i stands at i*k + s; otherwise at s*n + i; in all columns alike |
| Expansion.SampleLevelRows | verl/protocol.py:844-890 | Row i fills the places between consecutive prefix sums of the counts |
| Expansion.ConstantCountsInterleave | verl/protocol.py:844-890 | With equal counts the result is that of the interleaved repeat |
| Expansion.UnfoldAligned | verl/protocol.py:805-842 | Row i*n + s of a split column is block s of row i, of any other column a copy of row i; so rows stay aligned, and the shapes are the divided or the old ones |
| Expansion.RefoldRow | verl/protocol.py:805-842 | Joining the n unfolded rows of a split column gives the row back |
| Expansion.Unfold | verl/protocol.py:805-842 | The loops over tensor and object columns compute the unfolded batch, or stop at the first lookup or reshape that fails |
| Expansion.UnfoldRaisesExactly | verl/protocol.py:805-842 | The loops raise exactly when a column to be split has no second dimension or does not divide, or there are no keys and an object column |
| Expansion.UnfoldWithoutKeys | verl/protocol.py:805-842 | Without split keys every row of every tensor column is copied n times, as documented, exactly when there is no object column |
| CheckpointLayout.ChunkEven | verl/model_merger/megatron_model_merger.py:257-258 | Chunking an evenly dividing tensor gives its groups of rows, none shorter |
| CheckpointLayout.ChunkPieces | verl/model_merger/megatron_model_merger.py:257-258 | The pieces of any tensor, in order: all but the last have the rounded-up share of the rows, the last has the rest |
| CheckpointLayout.MergeAcrossTp | scripts/legacy_model_merger.py:507-535 | The nested loops compute the merge of all shards, failing on exactly the inputs whose sizes do not work out |
| CheckpointLayout.SplitTensors | verl/model_merger/megatron_model_merger.py:245-269 | The loop over chunks is the merge of a single shard |
| CheckpointLayout.PackAt | scripts/converter_hf_to_mcore.py:109-115 | Each row of the packed weight: group by group, the query rows of the group, its key rows, its value rows |
| CheckpointLayout.SplitInvertsPack | scripts/converter_hf_to_mcore.py:109-115 | Splitting the packed weight gives q, k and v back, for any numbers of groups, heads a group and rows a head |
| CheckpointLayout.MergeShardsIsSplitWhole | scripts/legacy_model_merger.py:507-535 | For equal contiguous shards of any length, and any number of heads, when tp divides the groups: merging the shards and splitting the whole fail together or agree, and succeed exactly when each shard holds whole heads of its groups |
| CheckpointLayout.MergeInvertsShardedPack | scripts/legacy_model_merger.py:507-535 | Pack, cut into tp shards, merge: the original q, k and v |
| CheckpointLayout.MergeGateUp | scripts/legacy_model_merger.py:496-506 | The loop halves every shard and collects, failing exactly when some shard does not give two halves |
| CheckpointLayout.GateUpMerged | scripts/legacy_model_merger.py:496-506 | Shards that each hold a part of gate above a part of up merge to gate and up |
| CheckpointLayout.PlainCutMergesExactly | scripts/legacy_model_merger.py:496-506 | Merging tp plain shards of the packed weight, of any length, restores it exactly when that length is even, the gate blocks are the even blocks and the up blocks the odd ones |
| CheckpointLayout.ColumnsMerged | scripts/legacy_model_merger.py:538-542 | Concatenating column shards along the columns gives the matrix back |
| LayerMerge.MergeStateDicts | scripts/legacy_model_merger.py:586-636 | The loops over virtual stages, pipeline ranks and keys compute the stage-by-stage merge with its running layer count |
| LayerMerge.RenumberingExact | verl/model_merger/megatron_model_merger.py:273-322 | The running count is the number of earlier layers plus the number of empty stages, so right exactly when no stage is empty |
| LayerMerge.MergedLayer | scripts/legacy_model_merger.py:605-629 | Each tensor of each layer is in the final dictionary under its own number: nothing is overwritten |
| LayerMerge.MergeRenumbers | scripts/legacy_model_merger.py:586-636 | The layer entries of the result are exactly the stages' own, each under its stage's start plus its local number |
| LayerMerge.GlobalNumber | verl/model_merger/megatron_model_merger.py:290-296 | Without empty stages a layer's number is the count of layers before it, below the total |
| LayerMerge.NumbersDiffer | verl/model_merger/megatron_model_merger.py:290-296 | Two different layers never get the same number |
| LayerMerge.NumberTaken | verl/model_merger/megatron_model_merger.py:290-296 | Every number below the total is some layer's: with NumbersDiffer, a bijection |
| LayerMerge.ModelNumbers | scripts/legacy_model_merger.py:586-636 | The layer entries of the merged model are layer j of rank p's virtual stage v under the layers of all virtual stages before v, plus those of the ranks before p in stage v, plus j; there are no others |
| LayerMerge.MergedGlobals | scripts/legacy_model_merger.py:605-629 | A tensor outside the layers is in the result exactly when some stage has it |
| LayerMerge.MergedGlobal | scripts/legacy_model_merger.py:605-629 | And it is the one of the last stage that has it |
| LayerMerge.EmptyStageShifts | scripts/legacy_model_merger.py:595-634 | Behind an empty stage, every layer of every later stage stands under a number that is too high |
| LayerMerge.NumbersRightExactly | scripts/legacy_model_merger.py:595-634 | All layers get their true numbers exactly when empty stages come last |
| Loader.SlicesPartition | verl/utils/fsdp_utils.py:289-293 | The ceil-sized slices partition the files: each file has one owner, a rank of the group |
| Loader.SliceSizeLeast | verl/utils/fsdp_utils.py:291-293 | A rank's share is the least number of files for which all ranks together hold every file |
| Loader.ParallelLoad | verl/utils/fsdp_utils.py:289-308 | A rank knows every stored parameter: the file's value if it owns the file, else the owner's rank |
| Loader.RankLoader.CreateAndSyncState | verl/utils/fsdp_utils.py:333-351 | One broadcast, from this rank when it holds the value and from the recorded owner otherwise; raises exactly when the name is not loaded |
| Loader.RankLoader.InitSlot | verl/utils/fsdp_utils.py:356-383 | The whole new state for a parameter or buffer, shared or not; raises exactly when its name runs out or is not loaded |
| Loader.RankLoader.InitFn | verl/utils/fsdp_utils.py:353-390 | The recursive walk visits own slots then children, in order, and stops at the first failure |
| LoaderAgreement.RunAgree | verl/utils/fsdp_utils.py:333-390 | Two ranks that differ only in the values they hold fail at the same slot or issue the same broadcasts |
| LoaderAgreement.RunTruthful | verl/utils/fsdp_utils.py:333-351 | A rank sends a file's value exactly in the broadcasts of which it is the source |
| LoaderAgreement.RunOnce | verl/utils/fsdp_utils.py:369-376 | A shared parameter is broadcast at most once in the whole walk |
| LoaderAgreement.RunPlaces | verl/utils/fsdp_utils.py:353-390 | The walk fills every meta slot, in order: an unshared one from its own name, a shared one from the first name it was loaded under |
| LoaderAgreement.RunExactly | verl/utils/fsdp_utils.py:333-390 | For distinct names, a walk succeeds exactly when every initialised slot has a name left and it is stored, or the slot is a tied parameter that was already made |
| LoaderAgreement.RunConsumes | verl/utils/fsdp_utils.py:333-390 | After a walk exactly the stored names are left that no initialised slot had |
| LoaderAgreement.RunSent | verl/utils/fsdp_utils.py:333-390 | The broadcasts of a walk, in order: one for each initialised slot, of a tied tensor only for the first, with its tensor, the name of its turn and the rank that holds it |
| LoaderAgreement.GroupAgrees | verl/utils/fsdp_utils.py:289-390 | All ranks fail together or issue the same broadcasts, whose source is a rank of the group and the only one that sends |
| LoaderAgreement.GroupLoads | verl/utils/fsdp_utils.py:289-390 | When the ranks load, they end with the same parameters: every meta slot filled, with the value its file holds under its name |
| LoaderAgreement.GroupLoadsExactly | verl/utils/fsdp_utils.py:289-390 | A rank loads, and so all do, exactly when the files store every name that the walk needs |
| LoaderAgreement.HonestNetwork | verl/utils/fsdp_utils.py:333-351 | What the ranks send does not depend on what they receive, so there is a network on which each broadcast delivers what its source sends and all ranks load |
| ModuleTree.WalkExactly | verl/utils/fsdp_utils.py:353-390 | The walk has one place for each slot of each module reachable through children, own slots before those of children, children in order, and nothing else |
| ModuleTree.TreeLoads | verl/utils/fsdp_utils.py:353-390 | After a successful walk the meta slots of the tree have been given values, and no others |
| Dapo.KeepExactly | recipe/dapo/dapo_ray_trainer.py:216-224 | The standard deviation is positive exactly when two samples score differently; so a prompt is kept exactly then, or when it has one sample |
| Dapo.KeptRowsArePrompts | recipe/dapo/dapo_ray_trainer.py:209-232 | Filtering rows by their uid's spread keeps or drops whole prompts |
| Dapo.FilterGroups | recipe/dapo/dapo_ray_trainer.py:209-232 | The rows that stay are those of the kept prompts, contiguous and in order, and the count is that of the prompts |
| Dapo.Trainer.Generated | recipe/dapo/dapo_ray_trainer.py:194-252 | The batch is always whole kept prompts; an update gets exactly train_batch_size of them, n rows each; the number of generations stays in its limit |
| ImageSlicing.CandidateGrids | recipe/minicpmo/rl_dataset.py:217-234 | Lists exactly the factor pairs of the candidate counts, fewer slices first and of as many slices fewer columns |
| ImageSlicing.BestGrid | recipe/minicpmo/rl_dataset.py:217-242 | The chosen grid is a candidate, no candidate has a smaller error, and of those with its error it is the first |
| ImageSlicing.MultipleIsLeast | recipe/minicpmo/rl_dataset.py:205-206 | The slice count is the least number of squares of the model's resolution whose area covers the image, capped at max_slice_nums |
| ImageSlicing.EnsureDivideNearest | recipe/minicpmo/rl_dataset.py:252-253 | When rounding is to a nearest integer, no positive multiple of the patch size is nearer to the length than the result |
| ImageSlicing.ResizeKeepsRatio | recipe/minicpmo/rl_dataset.py:256-264 | With exact roots and rounding: the height is the largest for which an image of this ratio has no more pixels than the model's resolution, the width follows by the ratio, and both become multiples of the patch size |
| ImageSlicing.ResizeKeepsSmall | recipe/minicpmo/rl_dataset.py:256-264 | An image within the resolution keeps width and height, up to the nearest multiples of the patch size |
| ImageSlicing.GetRefineSize | recipe/minicpmo/rl_dataset.py:267-286 | The refined image is a whole number of equal patches in each direction, each side a positive multiple of the patch size |
| ImageSlicing.RefineCells | recipe/minicpmo/rl_dataset.py:267-286 | A patch is the resized cell of the image, whose sides are first brought to the nearest multiples of columns and rows |
| ImageSlicing.SplitToPatches | recipe/minicpmo/rl_dataset.py:289-303 | The crop boxes are the grid's, row by row and column by column |
| ImageSlicing.PatchesTile | recipe/minicpmo/rl_dataset.py:289-303 | Every pixel lies in exactly one patch |
| ImageSlicing.SliceImage | recipe/minicpmo/rl_dataset.py:201-249 | An image is cut exactly when more than one slice is needed; then its grid has one slice more or less than needed, or as many, from 2 to max_slice_nums, is nearest in the logarithm of the ratio of sides, the first of those as near, and its patches cover the refined image |
| ImagePlaceholder.BuildImageBound | recipe/minicpmo/rl_dataset.py:50-67 | Pairs the k-th start with the k-th end and raises exactly when their numbers differ |
| ImagePlaceholder.GetGridPlaceholder | recipe/minicpmo/rl_dataset.py:306-324 | The loops emit the grid's slices in order, with line breaks between rows |
| ImagePlaceholder.PicturesOfGrid | recipe/minicpmo/rl_dataset.py:306-324 | A grid placeholder stands for rows times columns images |
| ImagePlaceholder.GridLayout | recipe/minicpmo/rl_dataset.py:306-324 | The slice in row r and column c stands behind r lines of slices and line breaks, and each line but the last ends with a break |
| ImagePlaceholder.SlicedPlaceholder | recipe/minicpmo/rl_dataset.py:103-124 | The tokens of a sliced image: its id in the new schema, the whole image, then the grid, bracketed in the old schema |
| ImagePlaceholder.CollectImages | recipe/minicpmo/rl_dataset.py:103-124 | Lists every image followed by its patches row by row, and gives each image its placeholder, ids numbering the sliced images alone |
| ImagePlaceholder.PicturesCount | recipe/minicpmo/rl_dataset.py:112-117 | An image yields one picture, and rows times columns more when it is sliced |
| ImagePlaceholder.PatchAtPlace | recipe/minicpmo/rl_dataset.py:112-117 | The patch in row r and column c is handed over behind the image and the patches before it, row by row |
| ImagePlaceholder.CollectUnsliced | recipe/minicpmo/rl_dataset.py:125-132 | Without slicing the loop, reading the placeholder of the image before, raises exactly when ids are used and there is an image |
| ImagePlaceholder.BoundsMatchImages | recipe/minicpmo/rl_dataset.py:50-157 | A prompt of plain text and references to images, in any order, repeated or missing, has exactly one bound for each picture referred to, and each delimits exactly its query tokens |
| ImagePlaceholder.BoundsMarkPictures | recipe/minicpmo/rl_dataset.py:50-157 | Each bound stands between the marks of its own picture: those of a slice around a patch in the new schema, those of an image otherwise |
| ImagePlaceholder.BoundsFollowReferences | recipe/minicpmo/rl_dataset.py:136-157 | The bounds of a reference lie in its own placeholder, from start to end: those of the first pieces before all others |
| ImagePlaceholder.PairedExactly | recipe/minicpmo/rl_dataset.py:136-157 | The pictures referred to are the pictures handed to the encoder, in order, exactly when every image is referred to once and in order |
| ImagePlaceholder.SinglePaired | recipe/minicpmo/rl_dataset.py:136-140 | A single image, put in front when it is not named, pairs with its bounds exactly when it is named at most once |
| ImagePlaceholder.ReplaceNames | recipe/minicpmo/rl_dataset.py:142-157 | The loop over parts replaces every name by its image and raises exactly on an unknown one |
| Retool.ExtractRenderedCall | recipe/retool/retool_sft_preprocess.py:28-54 | A rendered code turn gives back its stripped text and its code, and leaves the rest untouched |
| Retool.ExtractRenderedAnswer | recipe/retool/retool_sft_preprocess.py:57-70 | A rendered answer gives back its text, tags removed |
| Retool.ExtractRenderedOutput | recipe/retool/retool_sft_preprocess.py:73-86 | A rendered interpreter block gives back its stripped output |
| Retool.Process | recipe/retool/retool_sft_preprocess.py:105-120 | The loop ends on every transcript, with the parser's messages or its failure, and roles take turns |
| Retool.ExtractExactly | recipe/retool/retool_sft_preprocess.py:28-86 | A turn is taken exactly when the tags of its kind stand there in order, a code block before an answer |
| Retool.ParseAlternates | recipe/retool/retool_sft_preprocess.py:105-120 | Assistant and tool messages alternate in every parse |
| Retool.StripExactly | recipe/retool/retool_sft_preprocess.py:43 | Stripping takes only white space, from the two ends, and leaves none there |
| Retool.SpacesAre | recipe/retool/retool_sft_preprocess.py:43 | The white space that strip takes, by code point |
| Retool.FencedCode | recipe/retool/retool_sft_preprocess.py:25-39 | Of fenced code exactly the inside of the first fence is kept, stripped |
| Retool.ParseRender | recipe/retool/retool_sft_preprocess.py:105-120 | Parsing a rendered conversation of any number of turns gives back its messages, stripped and out of their fences |
| Retool.ParseInvertsRender | recipe/retool/retool_sft_preprocess.py:105-120 | When there is nothing to strip and no fence, parsing undoes rendering |
| Retool.ParseRenderThen | recipe/retool/retool_sft_preprocess.py:105-120 | A rendered conversation followed by anything without a code block: its messages, then what the parser makes of the rest |
| Retool.TrailingTextExactly | recipe/retool/retool_sft_preprocess.py:105-120 | Plain text after the final answer is accepted exactly when it is empty, after any number of turns |
| Retool.TrailingOutputAccepted | recipe/retool/retool_sft_preprocess.py:105-120 | An interpreter block after the final answer is accepted as one more tool message |
| PrimeRewards.MaskedRloo | recipe/prime/prime_core_algos.py:23-42 | The in-place loop rescales each group by the baseline of its own original rewards, untouched by the other groups |
| PrimeRewards.UnmaskedZero | recipe/prime/prime_core_algos.py:24-40 | Entries of the loop's result outside the mask are zero |
| PrimeRewards.MaskedEntry | recipe/prime/prime_core_algos.py:26-40 | A masked entry of the loop's result is the reward times n / (n - 1), less the sum of the group's masked means over n - 1 |
| PrimeRewards.EveryGroupCancels | recipe/prime/prime_core_algos.py:26-40 | In every group of the result the samples' masked means sum to zero |
| PrimeRewards.OutcomeAdvantage | recipe/prime/prime_core_algos.py:53-70 | With one masked token a sample, its advantage is its reward less the mean of the other samples' rewards |
| PrimeRewards.ReturnsAreSuffixSums | recipe/prime/prime_core_algos.py:74 | Flip, cumulative sum, flip: the sum of the rewards from a token to the end |
| PrimeRewards.ReverseScan | recipe/prime/prime_dp_rm.py:210-213 | The backward loop computes the discounted sum of what follows each token |
| PrimeRewards.PatchOutcome | recipe/prime/prime_dp_rm.py:205-208 | The assignment with its negative index and the loop after it compute the patched row, for every position of the last token |
| PrimeRewards.PatchedPlaces | recipe/prime/prime_dp_rm.py:205-208 | Entry by entry: tokens before the last keep their values, the last makes up the outcome, padding is zero |
| PrimeRewards.PatchedTokens | recipe/prime/prime_dp_rm.py:205-208 | Up to its last token the patched row sums to the outcome |
| PrimeRewards.PatchedRewards | recipe/prime/prime_dp_rm.py:205-213 | For every discount padding earns nothing, the last token the outcome less the sum before it, an earlier token its value and the discounted reward of the next |
| PrimeRewards.PatchedTotal | recipe/prime/prime_dp_rm.py:205-208 | The patched row sums to the outcome exactly when it has a token or the outcome is zero, and earlier tokens keep their values |
| PrimeRewards.UndiscountedReward | recipe/prime/prime_dp_rm.py:205-213 | Undiscounted, a token's reward is the outcome less what the tokens before it earned |
| Oversample.BuildMask | recipe/prime/prime_ray_trainer.py:548-567 | A prompt passes exactly when, with the accuracy filter, the mean score of its samples lies between the bounds and, with the length filter, every sample is at least two tokens short of the maximum |
| Oversample.GroupAt | recipe/prime/prime_ray_trainer.py:549-560 | Sample i of prompt g is the entry at g * n + i of the batch |
| Oversample.RowOrderIsPermutation | recipe/prime/prime_ray_trainer.py:570 | Expanding a permutation of prompts to rows names every row exactly once |
| Oversample.KeptExactly | recipe/prime/prime_ray_trainer.py:570-573 | A row is kept exactly when its place in the order is below the cut |
| Oversample.WholePromptsExactly | recipe/prime/prime_ray_trainer.py:569-573 | No prompt is split exactly when the number of kept rows is a multiple of the samples a prompt |
| Oversample.PassingKeptFirst | recipe/prime/prime_ray_trainer.py:569-573 | If any row of a failing prompt is kept, every row of every passing prompt is, for any sort consistent with the mask |
| Oversample.KeepCountIsLargest | recipe/prime/prime_ray_trainer.py:572 | The number of kept rows is the largest, up to all of them, whose product with the factor does not exceed the batch |
| Oversample.FilterAndDownsample | recipe/prime/prime_ray_trainer.py:543-575 | The batch that is left is a prefix of a permutation of the rows, in prompt blocks sorted by the mask, of the configured size |
| GpuCheck.PlacePool | recipe/spin/spin_trainer.py:129-136 | Takes the pool's share from the first nodes with enough free, as many as the pool wants, and misses some only when no other node has enough |
| GpuCheck.DeductedSum | recipe/spin/spin_trainer.py:129-136 | Free processes fall by exactly what the chosen nodes gave |
| GpuCheck.CheckResourceAvailable | recipe/spin/spin_trainer.py:114-142 | When the check passes there is a placement that over-commits no node, in the terms of the check itself: a pool counts with its first entry on every node, also when its entries differ; on uniform pools free processes fall by exactly the demand |
| GpuCheck.SinglePoolExact | recipe/spin/spin_trainer.py:114-142 | For one uniform pool the check passes exactly when a placement exists |
| GpuCheck.SinglePoolSoundExactly | recipe/spin/spin_trainer.py:127-141 | Passing implies a node for each of the pool's entries on every cluster exactly when none exceeds the first, or at most one process is wanted |
| GpuCheck.GreedyIsIncomplete | recipe/spin/spin_trainer.py:127-141 | With two pools the check can refuse a demand that fits |
| GpuCompleteness.GoodIsComplete | recipe/spin/spin_trainer.py:127-141 | Under the condition of PlacingExactly, placing pools one after another succeeds whenever a placement exists |
| GpuExactness.PlacingExactly | recipe/spin/spin_trainer.py:127-141 | For all pools, in the terms of the loop: it finds places exactly when a placement exists, on every cluster, if and only if the pools meet the condition |
| GpuExactness.SeveralPoolsExactly | recipe/spin/spin_trainer.py:114-142 | For uniform pools: the whole check passes exactly when a placement exists, on every cluster, if and only if the pools meet the condition |
| GpuExactness.EqualDemandsGood | recipe/spin/spin_trainer.py:127-141 | Equal shares, with only the first pool on several nodes, meet the condition |

## Left out

- CUDA streams, events, pinned memory and non-blocking copies: a copy is complete when it is issued.
- The synchronous base handler's own push and pop, its `groupid_reset`, and `bulk_offload_group` for fewer layers than
  groups: the source demands G <= L of its callers.
- Autograd, FSDP wrapping and the hooks that call the handler; the order in which they call it is the definition of a
  run.
- `tensor_tag_to_state` is kept in insertion order, as Python does; the order in which host copies are made is not
  modelled.
- `DataProto.reorder` and `pop` in place, `padding`, `union`, folding and saving: batches are values, and aliasing of
  columns between a slice and its source is not captured.
- `DataProto.chunk` with automatic padding and a length that does not divide: the number of chunks then depends on the
  tensor library.
- The element types and devices of columns, which concatenation promotes or compares: an element is any value.
- The length of a batch that has no column of either kind, and of one whose object columns differ in length: the source
  takes that of its first column.
- A single count passed to `sample_level_repeat` that the tensor library would broadcast.
- The tokenizer, the generator and the decoder are functions; that answers do not depend on neighbours or padding is the
  hypothesis `Faithful`.
- The converter's loops over layers and experts, which copy each packed weight into place, its counts of copied
  elements, and the vision tower.
- Translating key names, and choosing the merge by substrings of the key: a key arrives as its layer and the names of
  its parts. How Megatron shards gate and up is taken from the merger, Megatron itself is not part of this model.
- The table from a module's tensors to their names is a parameter of the loader, and dtype conversion of a loaded value
  is not modelled.
- Generations that carry other columns than uid and score, the reward computation, and the entropy trainer's copy of the
  loop.
- Image pixels and interpolation. Rounding, square root and logarithm are functions given to the slicing; lemmas that
  need nearest rounding and exact roots say so.
- The regular expression that splits a prompt at the names of images, the line breaks joined between the parts, and the
  chat template: a prompt arrives as pieces of text and names.
- SeveralPoolsExactly: for pools with equal entries, the only ones recipe/spin/main_spin.py:97 builds. For the others
  PlacingExactly counts the first entry on every node, as the loop does, and SinglePoolSoundExactly says when passing
  guarantees a node for each entry of one pool.
- The user prompt that `process` extracts before the loop.
- Rows without a masked token, whose mean is not a number, group sizes that do not divide the batch, and n = 1, which
  divides by zero: PRIME's group loop is modelled where its quotients are defined.
- Whitening of advantages, the reward coefficients and the zero-lambda branch of the process reward.
- `log`, metrics, checkpointing and every call to Ray, Hydra, HDFS or a sandbox.
