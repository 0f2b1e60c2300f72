# Verified models of the DeepSeek-V4.1 and GLM-5.3 serving patches

The repository serves large models with patched vLLM files. The GPU arithmetic is borrowed; what the patches
add is integer and data-structure code: block bookkeeping, byte layouts, hash tables sharded over ranks,
uneven tensor-parallel splits and caches that clear only what they wrote. This project models that code in
Dafny and proves what each part is for. `dafny verify dfyconfig.toml` checks everything.

Conventions. Loops and objects of the source are methods and classes here, proved against specification
functions; the lemmas state what those functions mean. Sums over ranks are over reals. Hash functions, fp8
decoding, activations and per-row kernels are arbitrary function parameters, so every statement holds for all
of them. Kernels are loops over program ids; where the launch order is free, the order is arbitrary.

## Components

- `EngramPrimes`, `NumberTheory`: the primality test and the drawing of bucket sizes.
- `NgramHash`, `NgramState`, `NgramMeaning`, `Int64`: the n-gram hash over flattened, chunked batches, its lookback
  window, the slot cache of the older runner, the range of the ids, and what an id depends on.
- `EngramShards`, `EngramDisk`, `EngramStage`, `EngramPipeline`: the head-sharded table looked up by the kernel,
  from disk and through a memory map, and the path from token history to table row.
- `FreeBlockQueue`, `PrefixHash`, `PrefixMeaning`: the block pool's free list, the block hashes, and what they tell
  apart.
- `Grouping`, `GroupShape`, `GroupRepeats`, `RoundRobin`, `KvGroups`, `MambaGroups`, `Glm5Groups`, `KvLayout`,
  `AutoFit`, `WorkerClaims`, `Glm5Planning`: the KV-cache planner, from the workers' layers to the tensors of each.
- `PrefillPlan`: the prefill chunk planner.
- `VocabShard`, `VirtualHeads`, `SharedExpert`, `ExpertSplit`, `RankSum`: re-sharding that preserves the layer.
- `IndexerSplit`, `TopKMerge`: the sharded indexer.
- `DraftCache`: the sparse draft-logit cache.
- `Arith`, `Lists`, `Wrappers`: arithmetic, filtered lists, optional values and results.

## Where the code and its documentation differ

The model follows the code. Each point has its exact condition as a lemma, and an input at which the code
misses what is documented or expected of it.

- The primality test is documented as exact below 2^32. It rejects the prime 61 (`SixtyOneFails`); it rejects no
  other prime (`PrimesAcceptedExcept61`). The next-prime search therefore skips 61 (`NextPrimeExactness`).
- A resumed block hasher looks only at the last media input. That is exact if and only if no earlier media input
  reaches into a block hashed by the call (`ResumeExact`, `RunExact`); otherwise two requests with different
  images can get equal block hashes (`ResumeCanConfuseMedia`).
- A LoRA name and a cache salt enter the keys as plain strings. They are told apart everywhere but in a first block
  without media, where a name and an equal salt give the same hash (`HashIdentifiesRequest`, `NameLooksLikeSalt`).
- Splitting a bucket with unequal layer counts per page size drops layers (`GroupsPartition`, `PackingPartitions`),
  and dealing it to more groups than it has repeats leaves groups empty (`PackingNoneEmpty`); `SplitStateLoses`
  has both. Planning does not go on without the lost layers: the assertion at kv_cache_utils.py:2665-2667 stops it.
- A bucket range past int32 is not checked anywhere; ids leave their bucket exactly then (`BucketExactly`).
- Reading table rows on a rank all of whose heads are padding fails on the memory-map path and depends on
  unrelated bytes on the read path, while the kernel writes zeros (`FastFailsExactlyWithoutRows`, `DiskFailsExactly`,
  `PaddingRankFails`; for a whole step `StageStep`, `FastFailsExactly`).
- A group projected to a stage that has none of its layers keeps the specs of the whole model, so its tensors
  can reach past the allocation (`InsideExactly`, `AbsentGroupSticksOut`).
- Padded head groups repeat the last added-count real groups, which is the last real group only when at most one
  group is added (`LastGroupExactly`, `TwoAddedGroups`); zero-padded scales are 1.0 only for the e8m0 type.
  Neither changes the output (`VirtualHeadsExact`).
- The shared expert's width is computed from whole blocks while its weights are padded from all columns; with a
  partial block left over after full rows of blocks, real columns are cut off (`WidthsExactly`, `SharedExpertLoses`,
  `AlikeLoses`, `PartialBlockCutOff`).

## Model

| member | source | states |
|---|---|---|
| `EngramPrimes.TestWitness` | cuda-gb10-vllm-dsv41-exl3/patches/engram.py:81-90 | one witness round answers yes exactly when the tower a^d, a^2d, a^4d, ... taken modulo n starts at 1 or meets -1, where n - 1 = d * 2^r with d odd |
| `EngramPrimes.MillerRabin` | cuda-gb10-vllm-dsv41-exl3/patches/engram.py:69-91 | the primality loop, trial division included, decides exactly the acceptance predicate the lemmas below are about |
| `EngramPrimes.PrimePassesWitness` | cuda-gb10-vllm-dsv41-exl3/patches/engram.py:81-90 | a prime passes every witness that is not its multiple (Fermat and the square roots of 1 modulo a prime) |
| `EngramPrimes.SixtyOneFails` | cuda-gb10-vllm-dsv41-exl3/patches/engram.py:81-90 | 61 is prime and yet rejected: its own witness is 0 modulo 61 |
| `EngramPrimes.PrimesAcceptedExcept61` | cuda-gb10-vllm-dsv41-exl3/patches/engram.py:69-91 | no prime is ever rejected, of any size, except 61: a prime is accepted if and only if it is not 61 |
| `EngramPrimes.ExactBelow1681` | cuda-gb10-vllm-dsv41-exl3/patches/engram.py:73-75 | below 41 * 41 the test accepts exactly the primes other than 61, composites included |
| `EngramPrimes.FindNextPrime` | cuda-gb10-vllm-dsv41-exl3/patches/engram.py:94-99 | terminates for every start and every finite set of used primes, with the least accepted unused value above start |
| `EngramPrimes.NextPrimeExactness` | cuda-gb10-vllm-dsv41-exl3/patches/engram.py:94-99 | the value is "the smallest prime not handed out" if and only if that prime is not 61 and no free composite before it passes the test; up to 1681 none does |
| `EngramPrimes.DrawSizes` | cuda-gb10-vllm-dsv41-exl3/patches/engram.py:200-204 | one row of sizes: each is the next accepted unused value above the previous one, and the used set grows by exactly these |
| `EngramPrimes.DrawnDistinct` | cuda-gb10-vllm-dsv41-exl3/patches/engram.py:181-182 | sizes drawn in a row are new and pairwise distinct |
| `EngramPrimes.RowsDrawnDistinct` | cuda-gb10-vllm-dsv41-exl3/patches/engram.py:181-206 | rows drawn one after another share no size |
| `EngramPrimes.BuildPrimes` | cuda-gb10-vllm-dsv41-exl3/patches/engram.py:194-207 | all bucket sizes of a layout, over layers, n-gram sizes and heads, are pairwise distinct |
| `EngramPrimes.NoSizeLeftOut` | cuda-gb10-vllm-dsv41-exl3/patches/engram.py:194-204 | no acceptable number from the requested size on is passed over before a drawn one, over all rows |
| `EngramPrimes.SizesIncrease` | cuda-gb10-vllm-dsv41-exl3/patches/engram.py:194-204 | read row after row the sizes increase, so they are the smallest acceptable numbers from the requested size on |
| `NgramHash.UpperBound` | cuda-gb10-vllm-dsv41-exl3/patches/engram.py:296-309 | the binary search returns the number of rows that end at or before the token |
| `NgramHash.UpperBoundIsRow` | cuda-gb10-vllm-dsv41-exl3/patches/engram.py:296-310 | that number is the one row containing the token, however many empty rows or repeated boundaries there are |
| `NgramHash.LoadSource` | cuda-gb10-vllm-dsv41-exl3/patches/engram.py:319-372 | whichever of chunk, lookback window and slot cache answers, the value is that of the history token at that position |
| `NgramHash.Locate` | cuda-gb10-vllm-dsv41-exl3/patches/engram.py:310-313 | the row and the chunk start found for a token are those of its request |
| `NgramHash.MixTerm` | cuda-gb10-vllm-dsv41-exl3/patches/engram.py:373-376 | one lookback carries the sticky blocked flag and the rolling value of the whole-sequence definition one step further |
| `NgramHash.HashLane` | cuda-gb10-vllm-dsv41-exl3/patches/engram.py:314-386 | a kernel lane computes, for every column, the hash of its position in the whole request |
| `Int64.XorBit` | cuda-gb10-vllm-dsv41-exl3/patches/engram.py:376-376 | a bit of the rolling value is set exactly when it is set in one operand and not in the other |
| `Int64.XorCancels` | cuda-gb10-vllm-dsv41-exl3/patches/engram.py:376-376 | a second exclusive or with the same term undoes the first |
| `Int64.TruncModIs` | cuda-gb10-vllm-dsv41-exl3/patches/engram.py:382-382 | the remainder has the sign of the dividend and differs from it by a multiple of the divisor |
| `NgramMeaning.OneTokenDecides` | cuda-gb10-vllm-dsv41-exl3/patches/engram.py:373-376 | of two live histories that differ only in the token s positions back, rolling values short of s are equal, and from s on they are equal exactly when the token times its own multiplier is equal modulo 2^64 |
| `NgramMeaning.EveryTokenCounts` | cuda-gb10-vllm-dsv41-exl3/patches/engram.py:373-376 | with multipliers as drawn that is exactly when the token is the same: a changed token always changes every rolling value that reaches it |
| `NgramMeaning.IdIs` | cuda-gb10-vllm-dsv41-exl3/patches/engram.py:377-386 | a stored id is the start of its column's bucket plus the rolling value of the column's n-gram size modulo the bucket size, whenever the bucket ends within int32 |
| `NgramMeaning.OnlyItsTokens` | cuda-gb10-vllm-dsv41-exl3/patches/engram.py:314-386 | an id depends on no token further back than its n-gram reaches |
| `NgramMeaning.DeadTokenRestarts` | cuda-gb10-vllm-dsv41-exl3/patches/engram.py:372-374 | what follows a dead token is hashed as if the sequence started behind it |
| `NgramMeaning.StartIsPadding` | cuda-gb10-vllm-dsv41-exl3/patches/engram.py:372-374 | the start of a sequence acts as an endless run of padding tokens in front of it |
| `NgramMeaning.OnlyDeadTokensBreak` | cuda-gb10-vllm-dsv41-exl3/patches/engram.py:66-66 | the dead marker is the value of no live token |
| `NgramState.HashIds` | cuda-gb10-vllm-dsv41-exl3/patches/engram.py:254-386 | one launch over a flattened batch gives every token of every request its whole-sequence hashes |
| `NgramState.ChunkingIrrelevant` | cuda-gb10-vllm-dsv41-exl3/patches/engram.py:254-386 | two batches that place the same position of the same history anywhere, in chunks of any size, produce the same ids for it |
| `NgramState.GatherLookback` | cuda-gb10-vllm-dsv41-exl3/patches/model_state.py:22-46 | the window holds the tokens before each request's chunk, newest first, and -1 elsewhere, on every refill of the persistent buffer |
| `NgramState.GatheredWindowSuffices` | cuda-gb10-vllm-dsv41-exl3/patches/model_state.py:22-46 | a window of maxNgram - 1 cells is all the history the hash kernel can ask for, with or without a slot cache |
| `NgramState.SlotCache.Write` | cuda-gb10-vllm-dsv41-exl3/patches/engram.py:220-243 | each token's compressed id (or the dead marker) lands in its slot, slot -1 is skipped, all other slots keep their value |
| `NgramState.WritesKeepAgreement` | cuda-gb10-vllm-dsv41-exl3/patches/engram.py:220-243 | a step's writes keep every kept slot, and every live computed position of every request that stays or joins on prefix-cache hits, equal to its token |
| `NgramState.SlotCache.Run` | cuda-gb10-vllm-dsv41-exl3/patches/engram.py:14-26 | over any run from an empty runner, with requests joining on slots of finished ones, rolling drafts back and leaving, every live position of every request reads back its own token after every step |
| `NgramState.AgreementSuffices` | cuda-gb10-vllm-dsv41-exl3/patches/engram.py:350-369 | with that invariant the slot cache alone supplies the kernel's history |
| `NgramState.ProductFits` | cuda-gb10-vllm-dsv41-exl3/patches/engram.py:153-172 | a compressed id times any multiplier the generator can draw never reaches 2^63 |
| `NgramMeaning.MultipliersAre` | cuda-gb10-vllm-dsv41-exl3/patches/engram.py:158-172 | the multipliers that can be drawn are 1 and the odd numbers below the largest id-safe factor |
| `NgramState.RollingFits` | cuda-gb10-vllm-dsv41-exl3/patches/engram.py:373-376 | the rolling exclusive or never wraps and stays non-negative |
| `NgramState.BucketExactly` | cuda-gb10-vllm-dsv41-exl3/patches/engram.py:377-386 | every non-negative rolling value is stored inside a column's bucket if and only if the bucket ends within int32 |
| `NgramState.IdInBucket` | cuda-gb10-vllm-dsv41-exl3/patches/engram.py:377-386 | a hash id lies in its own column's bucket whenever that one bucket ends within int32 |
| `Int64.WrapIsShift` | cuda-gb10-vllm-dsv41-exl3/patches/engram.py:376-376 | the bitwise wrap-around differs from the exact value by a multiple of 2^bits |
| `Int64.WrapFits` | cuda-gb10-vllm-dsv41-exl3/patches/engram.py:376-376 | and it is the exact value if and only if that fits |
| `NgramState.BucketsDisjoint` | cuda-gb10-vllm-dsv41-exl3/patches/engram.py:207-210 | bucket ranges of different columns do not overlap and stay inside the table |
| `EngramPipeline.HashInHead` | cuda-gb10-vllm-dsv41-exl3/patches/engram.py:377-386 | a whole-sequence hash lies in the bucket range the sharded lookup expects of its head |
| `EngramPipeline.HashStep` | cuda-gb10-vllm-dsv41-exl3/patches/model_state.py:82-118 | one step of the runner: refilling the window from the histories, marking dead tokens and launching gives every token of every request the hash of its whole sequence |
| `EngramPipeline.EmbedStep` | cuda-gb10-vllm-dsv41-exl3/patches/engram.py:1264-1301 | end to end from token histories: for any chunking, batching, rank count and launch grid, every entry whose bucket ends within int32 is the table row of its request's whole-sequence hash |
| `EngramShards.RowsOwned` | cuda-gb10-vllm-dsv41-exl3/patches/engram.py:910-916 | a rank owns no rows exactly when its first head lies past the last one |
| `EngramShards.RunProgram` | cuda-gb10-vllm-dsv41-exl3/patches/engram.py:594-626 | one program of the persistent grid fills exactly the rows of its tiles and leaves all others |
| `EngramShards.KernelLookup` | cuda-gb10-vllm-dsv41-exl3/patches/engram.py:571-626 | the whole grid gives every output row its dequantized table row, or zero for a padded head, for any grid size |
| `EngramShards.HeadLookup` | cuda-gb10-vllm-dsv41-exl3/patches/engram.py:1068-1080 | a head's id is found by the rank that owns the head, in the row its place in the gather names, and yields its full-table row |
| `EngramShards.GatherHeads` | cuda-gb10-vllm-dsv41-exl3/patches/engram.py:1076-1079 | concatenating the ranks per token and truncating puts local head h % part of rank h / part at h |
| `EngramShards.ShardedForward` | cuda-gb10-vllm-dsv41-exl3/patches/engram.py:1068-1080 | lookup on every rank, gather and truncation: every entry whose id lies in its head's bucket is one lookup in the full table |
| `EngramDisk.PreadRows` | cuda-gb10-vllm-dsv41-exl3/patches/engram.py:682-693 | a slice fills its rows and no row already right becomes wrong; it fails exactly when one of its rows cannot be read |
| `EngramDisk.SliceJobs` | cuda-gb10-vllm-dsv41-exl3/patches/engram.py:708-716 | the submitted slices are valid and every row of every job is in one of them |
| `EngramDisk.RunTasks` | cuda-gb10-vllm-dsv41-exl3/patches/engram.py:708-718 | whatever order the slices run in, all rows end up in their places, or the batch fails, exactly when a row is unreadable |
| `EngramDisk.ParallelRead` | cuda-gb10-vllm-dsv41-exl3/patches/engram.py:696-718 | the batch reads every row of every job, for any thread count and chunk cap |
| `EngramDisk.RelOwnedIsLookup` | cuda-gb10-vllm-dsv41-exl3/patches/engram.py:1032-1044 | local row and ownership computed from the padded id columns are those of the lookup kernel |
| `EngramDisk.DiskRelOwned` | cuda-gb10-vllm-dsv41-exl3/patches/engram.py:1032-1044 | the flat row and ownership lists, entry by entry |
| `EngramDisk.ExpandedIsLookup` | cuda-gb10-vllm-dsv41-exl3/patches/engram.py:869-873 | rows read at the de-duplicated ids, indexed by the inverse map and zeroed where not owned, are the resident lookup |
| `EngramDisk.FastGather` | cuda-gb10-vllm-dsv41-exl3/patches/engram.py:648-662 | the pooled row gather equals indexing the view, for any slicing, and fails exactly on an index past the view |
| `EngramDisk.AskedRows` | cuda-gb10-vllm-dsv41-exl3/patches/engram.py:1042-1043 | only rows of the rank are asked for, plus row 0 in place of unowned ids |
| `EngramDisk.FastFailsExactlyWithoutRows` | cuda-gb10-vllm-dsv41-exl3/patches/engram.py:1487-1505 | the memmap path fails if and only if tokens are staged on a rank all of whose heads are padding |
| `EngramDisk.DiskFailsExactly` | cuda-gb10-vllm-dsv41-exl3/patches/engram.py:682-693 | on such a rank the read path succeeds if and only if the files have bytes behind the rank's position; on every other rank always |
| `EngramDisk.PaddingRankAsks` | cuda-gb10-vllm-dsv41-exl3/patches/engram.py:1032-1044 | an instance: four heads over three ranks leave the last rank none, and one token asks it for its row 0 twice |
| `EngramDisk.PaddingRankFails` | cuda-gb10-vllm-dsv41-exl3/patches/engram.py:1487-1505 | on that rank the memory-map path fails, and so does the read path when the files end with the last row |
| `EngramStage.ReadAll` | cuda-gb10-vllm-dsv41-exl3/patches/engram.py:856-868 | all weight and scale reads of all layers in one batch: every read gets its rows, and it fails exactly when some row of some read cannot be read |
| `EngramStage.StageDisk` | cuda-gb10-vllm-dsv41-exl3/patches/engram.py:1462-1473 | plan, de-duplicate, read in one batch, dequantize and expand: on a rank every layer's staged rows are the resident lookup's, and it fails exactly when tokens are staged on a rank of padding heads and some layer's file has nothing behind its rows |
| `EngramStage.StageFast` | cuda-gb10-vllm-dsv41-exl3/patches/engram.py:1487-1521 | the memory-map staging of all layers: the same rows, and it fails exactly when tokens are staged on a rank of padding heads |
| `EngramStage.StageStep` | cuda-gb10-vllm-dsv41-exl3/patches/engram.py:1426-1521 | end to end over all ranks and layers from token histories: hash, stage either way before the forward, gather; on success every entry whose bucket ends within int32 is the table row of its request's whole-sequence hash, as with resident tables; it fails exactly when some rank has only padding and nothing to read for it |
| `EngramStage.FastFailsExactly` | cuda-gb10-vllm-dsv41-exl3/patches/engram.py:910-916 | through the memory map that is exactly when tokens are staged and the last rank's first head is past the last one |
| `FreeBlockQueue.Queue.constructor` | cuda-gb10-vllm-dsv41-exl3/patches/kv_cache_utils.py:253-281 | the links describe exactly the given list between the two fake ends |
| `FreeBlockQueue.Queue.Popleft` | cuda-gb10-vllm-dsv41-exl3/patches/kv_cache_utils.py:283-318 | returns and removes the first block with its links cleared, or reports an empty list |
| `FreeBlockQueue.Queue.PopleftN` | cuda-gb10-vllm-dsv41-exl3/patches/kv_cache_utils.py:320-351 | returns and removes the first n blocks with cleared links |
| `FreeBlockQueue.Queue.Remove` | cuda-gb10-vllm-dsv41-exl3/patches/kv_cache_utils.py:353-371 | deletes exactly the given block from anywhere in the list and clears its links; a block off the list is reported and nothing changes |
| `FreeBlockQueue.Queue.Append` | cuda-gb10-vllm-dsv41-exl3/patches/kv_cache_utils.py:373-394 | the list becomes the old list followed by the block |
| `FreeBlockQueue.Queue.PrependN` | cuda-gb10-vllm-dsv41-exl3/patches/kv_cache_utils.py:396-415 | the list becomes the given blocks followed by the old list |
| `FreeBlockQueue.Queue.AppendN` | cuda-gb10-vllm-dsv41-exl3/patches/kv_cache_utils.py:417-440 | the list becomes the old list followed by the given blocks |
| `FreeBlockQueue.Queue.GetAllFreeBlocks` | cuda-gb10-vllm-dsv41-exl3/patches/kv_cache_utils.py:442-460 | walking the links yields the list |
| `FreeBlockQueue.Queue.BlocksAfter` | cuda-gb10-vllm-dsv41-exl3/patches/kv_cache_utils.py:462-474 | walking from a cursor yields the rest of the list behind it |
| `FreeBlockQueue.Run` | cuda-gb10-vllm-dsv41-exl3/patches/kv_cache_utils.py:253-474 | over any sequence of operations forward links, back links and count always describe the one duplicate-free list the operations describe |
| `FreeBlockQueue.PopManyIsPopOnes` | cuda-gb10-vllm-dsv41-exl3/patches/kv_cache_utils.py:320-351 | popping n blocks at once is popping one block n times |
| `FreeBlockQueue.TakeOutUndoesPutBack` | cuda-gb10-vllm-dsv41-exl3/patches/kv_cache_utils.py:353-394 | putting a block back and taking it out restores the list |
| `Grouping.ApproximateGcd` | cuda-gb10-vllm-dsv41-exl3/patches/kv_cache_utils.py:1901-1933 | errors exactly on an empty or non-positive list; otherwise the largest size of least total padding at or above the floor, or the floor when it exceeds every value |
| `Grouping.PaddingAboveMax` | cuda-gb10-vllm-dsv41-exl3/patches/kv_cache_utils.py:1912-1927 | sizes above every value only pad more, so the bounded search loses nothing |
| `GroupRepeats.PaddingOfLast` | cuda-gb10-vllm-dsv41-exl3/patches/kv_cache_utils.py:1908-1914 | a value's padding is the least amount that makes it a multiple of the size |
| `Grouping.BestSizeIsGcd` | cuda-gb10-vllm-dsv41-exl3/patches/kv_cache_utils.py:1908-1914 | with floor 1 the minimiser is the greatest common divisor |
| `Grouping.ChooseRepeats` | cuda-gb10-vllm-dsv41-exl3/patches/kv_cache_utils.py:1979-2011 | the repeats per group: none without a mixed balanced bucket, else the best size above the mode's floor |
| `GroupRepeats.MinRepeatsIs` | cuda-gb10-vllm-dsv41-exl3/patches/kv_cache_utils.py:1979-1989 | the repeat floor is the length of the longest bucket with equally many layers of each of several page sizes |
| `GroupRepeats.NothingToPack` | cuda-gb10-vllm-dsv41-exl3/patches/kv_cache_utils.py:1979-2011 | there are no repeats exactly when no such bucket exists |
| `GroupRepeats.GroupsAreFewest` | cuda-gb10-vllm-dsv41-exl3/patches/kv_cache_utils.py:2013-2016 | a balanced bucket is split into the fewest groups that have at most the chosen repeats each |
| `GroupRepeats.StateGroupsAreFewest` | cuda-gb10-vllm-dsv41-exl3/patches/kv_cache_utils.py:2027-2056 | state buckets, and sliding windows when nothing is packed, go to the fewest groups that hold no more states than a block already fits |
| `GroupRepeats.MixedStaysWhole` | cuda-gb10-vllm-dsv41-exl3/patches/kv_cache_utils.py:1976-1989 | upstream every balanced bucket that mixes page sizes is one group |
| `Grouping.PackGroups` | cuda-gb10-vllm-dsv41-exl3/patches/kv_cache_utils.py:2034-2071 | the loop over buckets emits the groups the lemmas below are about |
| `Grouping.GroupsPartition` | cuda-gb10-vllm-dsv41-exl3/patches/kv_cache_utils.py:2057-2071 | a bucket's groups hold each of its layers exactly once if and only if it is emitted whole or is balanced |
| `Grouping.PackingPartitions` | cuda-gb10-vllm-dsv41-exl3/patches/kv_cache_utils.py:2047-2071 | all groups together never hold a layer twice, and hold all layers if and only if no unbalanced bucket is split |
| `GroupShape.BucketNoneEmpty` | cuda-gb10-vllm-dsv41-exl3/patches/kv_cache_utils.py:2057-2071 | no group of a bucket is empty if and only if it is emitted whole or is dealt to no more groups than its shortest class has layers |
| `GroupShape.PackingNoneEmpty` | cuda-gb10-vllm-dsv41-exl3/patches/kv_cache_utils.py:2047-2071 | the packing emits no empty group if and only if that holds of every bucket |
| `GroupShape.SinglePageNoneEmpty` | cuda-gb10-vllm-dsv41-exl3/patches/kv_cache_utils.py:2047-2071 | when each state bucket has one page size no emitted group is ever empty |
| `GroupShape.SplitStateLoses` | cuda-gb10-vllm-dsv41-exl3/patches/kv_cache_utils.py:2047-2071 | a family of inputs: beside an attention bucket of n layers of each of two page sizes an unbalanced state bucket is dealt to two groups in both modes, and a layer is in no group; with one small layer a group is empty as well |
| `GroupShape.MixedExists` | cuda-gb10-vllm-dsv41-exl3/patches/kv_cache_utils.py:2047-2071 | buckets of that shape exist |
| `Grouping.AnchorIsExact` | cuda-gb10-vllm-dsv41-exl3/patches/kv_cache_utils.py:2034-2071 | when each state bucket has one page size, the widest group's bytes equal the anchor exactly and no layer is lost |
| `Grouping.FineNeverWider` | cuda-gb10-vllm-dsv41-exl3/patches/kv_cache_utils.py:1990-2011 | for every set of buckets the fine mode's block is no larger than the upstream mode's |
| `GroupShape.FineGroupsAreFull` | cuda-gb10-vllm-dsv41-exl3/patches/kv_cache_utils.py:1990-2016 | in fine mode every emitted group of a balanced attention bucket holds as many layers of each page size as the greatest common divisor says |
| `RoundRobin.ShareIsCeil` | cuda-gb10-vllm-dsv41-exl3/patches/kv_cache_utils.py:2062-2065 | dealing m items to n groups in turn gives group i exactly ceil((m - i) / n), so group 0 is the widest |
| `PrefixHash.GenMmExtraHashKeys` | cuda-gb10-vllm-dsv41-exl3/patches/kv_cache_utils.py:477-541 | the one-pass scan yields exactly the media inputs that overlap the block, in order, with their offsets, and leaves an index that has passed only finished inputs |
| `PrefixHash.GenerateBlockHashExtraKeys` | cuda-gb10-vllm-dsv41-exl3/patches/kv_cache_utils.py:585-620 | LoRA name, overlapping media inputs, first-block salt and prompt embeddings, in that order |
| `PrefixHash.RequestBlockHasher` | cuda-gb10-vllm-dsv41-exl3/patches/kv_cache_utils.py:794-849 | the hasher loop returns the chained hashes of exactly the full blocks not hashed yet |
| `PrefixHash.SkippedKeys` | cuda-gb10-vllm-dsv41-exl3/patches/kv_cache_utils.py:827-829 | leaving out earlier media inputs changes a block's keys exactly when one of them overlaps the block |
| `PrefixHash.ResumeExact` | cuda-gb10-vllm-dsv41-exl3/patches/kv_cache_utils.py:808-849 | a resumed call equals hashing everything at once if and only if no media input but the last overlaps a newly hashed block |
| `PrefixHash.RunExact` | cuda-gb10-vllm-dsv41-exl3/patches/kv_cache_utils.py:808-849 | any number of resumed calls accumulates the one-pass hashes if and only if each resumption was safe in that sense |
| `PrefixHash.EarlyMediaIsSafe` | cuda-gb10-vllm-dsv41-exl3/patches/kv_cache_utils.py:827-829 | in particular when all media inputs but the last end before the first resume point |
| `PrefixHash.ResumeCanConfuseMedia` | cuda-gb10-vllm-dsv41-exl3/patches/kv_cache_utils.py:827-829 | a concrete run in which two requests with different images get equal hashes for the same block |
| `PrefixHash.HashIdentifiesPrefix` | cuda-gb10-vllm-dsv41-exl3/patches/kv_cache_utils.py:623-650 | under an injective hash, i-th hashes are equal if and only if tokens and extra keys of the first i + 1 blocks are equal |
| `PrefixMeaning.HashIdentifiesRequest` | cuda-gb10-vllm-dsv41-exl3/patches/kv_cache_utils.py:585-650 | in terms of the request's fields: hashes of block n - 1 are equal if and only if the first n blocks agree in tokens, in the media inputs that have a token in each block and where they start, in embedding rows, LoRA name and salt, the last two up to an exchange only a first block without media can miss |
| `PrefixMeaning.LabelsSeparate` | cuda-gb10-vllm-dsv41-exl3/patches/kv_cache_utils.py:606-614 | requests that differ in the LoRA name alone, or in the salt alone, share no block hash |
| `PrefixMeaning.NameLooksLikeSalt` | cuda-gb10-vllm-dsv41-exl3/patches/kv_cache_utils.py:606-614 | a LoRA name and an equal salt give the same first block hash and different ones from the second block on |
| `PrefixMeaning.ResumeSafeExactly` | cuda-gb10-vllm-dsv41-exl3/patches/kv_cache_utils.py:827-829 | a resumed call is unsafe exactly when a block it hashes has a token of a media input other than the last |
| `PrefixHash.CoarseViewIdentifiesPrefix` | cuda-gb10-vllm-dsv41-exl3/patches/kv_cache_utils.py:2693-2763 | the coarser block-size view keeps that meaning at its own granularity |
| `PrefixMeaning.CoarseViewIdentifiesRequest` | cuda-gb10-vllm-dsv41-exl3/patches/kv_cache_utils.py:2693-2763 | and so an entry of the view identifies the same fields up to its own end |
| `KvLayout.PlanGroup` | cuda-gb10-vllm-dsv41-exl3/patches/kv_cache_utils.py:1724-1756 | the loop puts every spec of a group behind the bytes of the earlier ones |
| `KvLayout.PlanFromGroups` | cuda-gb10-vllm-dsv41-exl3/patches/kv_cache_utils.py:1612-1766 | errors exactly for a refused layout or an empty block; the planned blocks fit the memory; a model without groups gets one block |
| `KvLayout.RefusedExactly` | cuda-gb10-vllm-dsv41-exl3/patches/kv_cache_utils.py:1578-1609 | refused are the layer-outer layouts of several groups whose layers do not all have one page size |
| `KvLayout.MostBlocks` | cuda-gb10-vllm-dsv41-exl3/patches/kv_cache_utils.py:1612-1640 | without an override the planned blocks are as many as the memory holds |
| `KvLayout.SameGroupApart` | cuda-gb10-vllm-dsv41-exl3/patches/kv_cache_utils.py:1711-1756 | pages of different layers of one group, or different blocks of one layer, never share a byte |
| `KvLayout.DifferentBlocksApart` | cuda-gb10-vllm-dsv41-exl3/patches/kv_cache_utils.py:1711-1756 | under an accepted layout pages of different block ids never share a byte, even across groups that alias the same buffer |
| `KvLayout.InsideExactly` | cuda-gb10-vllm-dsv41-exl3/patches/kv_cache_utils.py:2524-2534 | every page of a group lies inside the allocation if and only if its specs are no wider than a block, which always holds for groups the worker has layers of |
| `KvLayout.AbsentGroupSticksOut` | cuda-gb10-vllm-dsv41-exl3/patches/kv_cache_utils.py:2524-2534 | an instance: an absent group of four-byte pages beside one-byte pages, accepted under both packings, lists a page outside the allocation |
| `KvLayout.MixedLayerOuterCollides` | cuda-gb10-vllm-dsv41-exl3/patches/kv_cache_utils.py:1578-1609 | the refused combination does collide: a concrete layer-outer plan with mixed pages overlaps two blocks |
| `KvLayout.PlanGlm5` | cuda-gb10-vllm-dsv41-exl3/patches/kv_cache_utils.py:1640-1692 | the GLM-5.3-Flash loops emit the tensor of every layer that has a slot, and no other |
| `KvLayout.Glm5PagesApart` | cuda-gb10-vllm-dsv41-exl3/patches/kv_cache_utils.py:1651-1692 | with Mamba layers aliased onto MLA slots and tails onto indexer slots, pages of different blocks are disjoint, and so are different layers of one group |
| `KvLayout.Glm5PagesInside` | cuda-gb10-vllm-dsv41-exl3/patches/kv_cache_utils.py:1651-1692 | every page of every placed layer lies inside the allocation |
| `MambaGroups.GroupCount` | cuda-gb10-vllm-dsv41-exl3/patches/kv_cache_utils.py:1137-1163 | no count exactly when several stages exist and one has Mamba but no MLA layers; otherwise the least count that fits the model and every stage |
| `MambaGroups.DealRoundRobin` | cuda-gb10-vllm-dsv41-exl3/patches/kv_cache_utils.py:1237-1239 | group g receives the layers whose turn is g |
| `MambaGroups.ProjectedTotal` | cuda-gb10-vllm-dsv41-exl3/patches/kv_cache_utils.py:2507-2534 | projecting the groups to a worker splits the worker's Mamba layers among them |
| `MambaGroups.NothingDroppedExactly` | cuda-gb10-vllm-dsv41-exl3/patches/kv_cache_utils.py:1143-1163 | when a stage's layers stand together in the list, no projected group outgrows its MLA slots if and only if its layers number at most groups times slots |
| `MambaGroups.ChosenCountDropsNothing` | cuda-gb10-vllm-dsv41-exl3/patches/kv_cache_utils.py:1137-1163 | whatever the number of stages, one included, the chosen count loses no layer on any worker that serves a stage and whose layers stand together in the list |
| `KvGroups.MergeSpecs` | cuda-gb10-vllm-dsv41-exl3/patches/kv_cache_utils.py:2575-2584 | merging the workers' layers succeeds exactly when every layer name has one spec over all workers, and keeps the order of first appearance |
| `KvGroups.MergedIsConsecutive` | cuda-gb10-vllm-dsv41-exl3/patches/kv_cache_utils.py:2575-2584 | workers hold the same layers or none in common, so the layers of each stand together in the merged list, in whatever order the workers come |
| `KvGroups.HeldIsSum` | cuda-gb10-vllm-dsv41-exl3/patches/kv_cache_utils.py:1559-1575 | sorting a group's layers by spec keeps its bytes: a block holds exactly the pages of the listed layers |
| `KvGroups.RecognizedSound` | cuda-gb10-vllm-dsv41-exl3/patches/kv_cache_utils.py:1248-1333 | in any recognized grouping MLA layers and Mamba states have the MLA page, indexers their own, and no tail is larger than an indexer page |
| `KvGroups.PlanWorker` | cuda-gb10-vllm-dsv41-exl3/patches/kv_cache_utils.py:1612-1766 | a recognized worker is planned with shared slots, any other with the general packing, whose refusal is the only configuration error |
| `Glm5Groups.BuildGroups` | cuda-gb10-vllm-dsv41-exl3/patches/kv_cache_utils.py:1166-1242 | no groups exactly for other models; an assertion exactly for irregular specs; an error exactly for a state larger than an MLA page or a stranded stage; otherwise one attention group, at most one tail group and the least sufficient number of Mamba groups |
| `Glm5Groups.RecognizedExactly` | cuda-gb10-vllm-dsv41-exl3/patches/kv_cache_utils.py:1248-1333 | a worker's projection of these groups is recognized if and only if it has an MLA layer, an indexer, and tails (if the model has any) that match its indexers in number and size; and what is handed on is exactly the worker's own layers |
| `Glm5Groups.EveryLayerPlaced` | cuda-gb10-vllm-dsv41-exl3/patches/kv_cache_utils.py:1651-1692 | every layer of a recognized worker, Mamba layers included, has a memory slot, for any number of stages and ranks and any order of the workers |
| `Glm5Groups.EveryLayerFits` | cuda-gb10-vllm-dsv41-exl3/patches/kv_cache_utils.py:1166-1242 | and the slot, shared or not, has a page that holds the layer's own bytes |
| `Glm5Groups.NoLayerLeftOut` | cuda-gb10-vllm-dsv41-exl3/patches/kv_cache_utils.py:2665-2667 | the assertion that every layer of a worker is in some group always holds for this grouping |
| `AutoFit.ModelConfig.EstimateMaxModelLen` | cuda-gb10-vllm-dsv41-exl3/patches/kv_cache_utils.py:2396-2428 | the search restores the configuration, returns a length that fits or 0, and for memory use that grows with length the largest in range |
| `AutoFit.ModelConfig.AutoFitMaxModelLen` | cuda-gb10-vllm-dsv41-exl3/patches/kv_cache_utils.py:2431-2492 | fails exactly when some worker cannot hold one token; otherwise the configured length is the largest all workers can hold |
| `AutoFit.AutoFitAdmits` | cuda-gb10-vllm-dsv41-exl3/patches/kv_cache_utils.py:2650-2659 | after a successful auto-fit no worker's admission check can fail |
| `AutoFit.GetKvCacheConfigs` | cuda-gb10-vllm-dsv41-exl3/patches/kv_cache_utils.py:2537-2690 | the whole planning: when it succeeds, what it admits, and that auto-fit rules out every longer context |
| `AutoFit.PlanBlocks` | cuda-gb10-vllm-dsv41-exl3/patches/kv_cache_utils.py:2661-2690 | all workers end with one block count: the override, or the least any worker can hold, inside every worker's own memory |
| `AutoFit.PoolHoldsExactly` | cuda-gb10-vllm-dsv41-exl3/patches/kv_cache_utils.py:2661-2690 | the block count the workers agree on holds a demand if and only if the demand fits the memory of each of them less the null block |
| `AutoFit.AdmissionExact` | cuda-gb10-vllm-dsv41-exl3/patches/kv_cache_utils.py:2618-2659 | where every worker's estimate is the request's demand, the admission checks accept exactly the lengths the shared pool holds |
| `WorkerClaims.ProjectedClaim` | cuda-gb10-vllm-dsv41-exl3/patches/kv_cache_utils.py:2515-2534 | projecting a group whose layers claim alike never changes its claim, not even when it is emptied |
| `WorkerClaims.UnrecognizedClaims` | cuda-gb10-vllm-dsv41-exl3/patches/kv_cache_utils.py:2380-2393 | a worker whose projection is not recognized estimates what the whole model's groups claim together, whatever the model |
| `WorkerClaims.RecognizedClaims` | cuda-gb10-vllm-dsv41-exl3/patches/kv_cache_utils.py:2357-2379 | a recognized worker estimates the same if and only if the model has no tails or a tail claims the one block counted for it |
| `WorkerClaims.EveryWorkerClaimsAlike` | cuda-gb10-vllm-dsv41-exl3/patches/kv_cache_utils.py:2340-2393 | with one block per tail every worker, recognized or not, holding whatever layers, estimates the same number of blocks per request |
| `WorkerClaims.AdmittedIsServed` | cuda-gb10-vllm-dsv41-exl3/patches/kv_cache_utils.py:2618-2690 | a request is admitted on all workers if and only if the pool they agree on has its blocks, for any stages, memories and override |
| `WorkerClaims.ServedExactly` | cuda-gb10-vllm-dsv41-exl3/patches/kv_cache_utils.py:2345-2354 | a pool can hand every group of a request its own blocks, enough for each layer of the group and none of them the null block, if and only if the groups' claims together leave one block over |
| `WorkerClaims.AdmittedGetsBlocks` | cuda-gb10-vllm-dsv41-exl3/patches/kv_cache_utils.py:2618-2690 | so a request is admitted on all workers if and only if the agreed pool can hand it its blocks |
| `WorkerClaims.WorkerMonotone` | cuda-gb10-vllm-dsv41-exl3/patches/kv_cache_utils.py:2340-2393 | if no spec claims less for a longer request, no worker needs less memory for one, so the search for the longest context is exact |
| `Glm5Planning.PlanModel` | cuda-gb10-vllm-dsv41-exl3/patches/kv_cache_utils.py:2537-2690 | merge, group, project, fit or check the length, agree on the blocks, lay out: exactly when planning succeeds, and that the shared pool then holds a request of the configured length and, when that was fitted, of no longer one |
| `Glm5Planning.LayOut` | cuda-gb10-vllm-dsv41-exl3/patches/kv_cache_utils.py:2661-2690 | every worker is planned again with exactly the memory of the agreed blocks, and gets that count; refused exactly when a worker's packing cannot be expressed in the layout |
| `Glm5Planning.EveryLayerHasTensor` | cuda-gb10-vllm-dsv41-exl3/patches/kv_cache_utils.py:2661-2690 | in a successful plan every layer of every worker has a tensor, whether its worker is recognized or not |
| `PrefillPlan.ExtendChunk` | cuda-gb10-vllm-dsv41-exl3/patches/sparse_swa.py:275-304 | a chunk takes requests as long as its area allows and records the true maxima |
| `PrefillPlan.GetPrefillChunkPlan` | cuda-gb10-vllm-dsv41-exl3/patches/sparse_swa.py:229-306 | the nested loops produce the greedy plan over the derived widths |
| `PrefillPlan.GatherIsWindow` | cuda-gb10-vllm-dsv41-exl3/patches/sparse_swa.py:258-261 | the gathered suffix is exactly the keys some query of the prefill has in its sliding window |
| `PrefillPlan.CompressedIsComplete` | cuda-gb10-vllm-dsv41-exl3/patches/sparse_swa.py:262-271 | the compressed prefix is exactly the complete groups of the ratio |
| `PrefillPlan.ChunkHolds` | cuda-gb10-vllm-dsv41-exl3/patches/sparse_swa.py:272-304 | a chunk of the plan has room for every complete group and every visible key of each of its requests |
| `PrefillPlan.ChunkIsTight` | cuda-gb10-vllm-dsv41-exl3/patches/sparse_swa.py:272-304 | and no more: some request fills each of its two regions |
| `PrefillPlan.AreaIsWorstCase` | cuda-gb10-vllm-dsv41-exl3/patches/sparse_swa.py:248-257 | the area is that of the configured number of requests of the largest shape, one key wider |
| `PrefillPlan.PlanSafe` | cuda-gb10-vllm-dsv41-exl3/patches/sparse_swa.py:272-306 | chunks are non-empty, contiguous and cover all prefills in order; all are within the workspace if and only if each single request is |
| `PrefillPlan.PlanSafeWithinLimits` | cuda-gb10-vllm-dsv41-exl3/patches/sparse_swa.py:248-257 | for lengths within the model and batch limits every chunk is within the workspace and all but the last hold at least the configured number of requests |
| `PrefillPlan.GreedyStaysAhead` | cuda-gb10-vllm-dsv41-exl3/patches/sparse_swa.py:272-306 | after any number of chunks the greedy plan is at least as far as any plan within the workspace |
| `PrefillPlan.PlanOptimal` | cuda-gb10-vllm-dsv41-exl3/patches/sparse_swa.py:272-306 | no contiguous plan within the workspace has fewer chunks |
| `VocabShard.PaddingUnitIsMultiple` | cuda-gb10-vllm-dsv41-exl3/patches/vocab_parallel_embedding.py:271-272 | the padding unit is a common multiple of the padding size and the rank count |
| `VocabShard.UnitIsLeast` | cuda-gb10-vllm-dsv41-exl3/patches/vocab_parallel_embedding.py:271-272 | and it divides every other common multiple |
| `VocabShard.MakeVocabValid` | cuda-gb10-vllm-dsv41-exl3/patches/vocab_parallel_embedding.py:274-282 | for every vocabulary, added vocabulary, padding and rank count the padded sizes split evenly and are the least that do |
| `VocabShard.IndicesSane` | cuda-gb10-vllm-dsv41-exl3/patches/vocab_parallel_embedding.py:155-170 | the per-rank ranges pass the sanity assertions and fill the rank's share |
| `VocabShard.OwnedByExactlyOne` | cuda-gb10-vllm-dsv41-exl3/patches/vocab_parallel_embedding.py:173-199 | exactly one rank does not mask a given token |
| `VocabShard.MaskedInputHitsToken` | cuda-gb10-vllm-dsv41-exl3/patches/vocab_parallel_embedding.py:173-199 | that rank's local index is the row holding the token, for base and added ids |
| `VocabShard.ShardedLookupExact` | cuda-gb10-vllm-dsv41-exl3/patches/vocab_parallel_embedding.py:506-545 | summing the masked lookups of all ranks is one lookup in the full table |
| `VocabShard.GetShardedToFullMapping` | cuda-gb10-vllm-dsv41-exl3/patches/vocab_parallel_embedding.py:399-462 | the mapping is a permutation of the gathered rows that sends each token id to its logit and the padding behind |
| `VocabShard.MappingMatchesLookup` | cuda-gb10-vllm-dsv41-exl3/patches/vocab_parallel_embedding.py:399-462 | entry t is the gathered position of the row the owner's masked lookup reads for token t |
| `VirtualHeads.PadTensor` | cuda-gb10-vllm-dsv41-exl3/patches/virtual_heads.py:23-45 | fails exactly when more rows are to be repeated than exist; keeps the rows and adds copies of the last ones or fill rows |
| `VirtualHeads.LoadedByGroup` | cuda-gb10-vllm-dsv41-exl3/patches/virtual_heads.py:57-70 | weights and scales alike are padded group by group, whatever their rows per group: real groups unchanged, padded groups copies of real ones or filled |
| `VirtualHeads.LastGroupExactly` | cuda-gb10-vllm-dsv41-exl3/patches/virtual_heads.py:33-36 | the padded groups all repeat the last real group if and only if at most one is added |
| `VirtualHeads.TwoAddedGroups` | cuda-gb10-vllm-dsv41-exl3/patches/virtual_heads.py:33-36 | an instance: of two groups served as four the third is a copy of the first |
| `VirtualHeads.RanksSumToWhole` | cuda-gb10-vllm-dsv41-exl3/patches/virtual_heads.py:62-96 | splitting whole groups over the ranks and summing the partial outputs is the padded layer |
| `VirtualHeads.PaddedOutput` | cuda-gb10-vllm-dsv41-exl3/patches/virtual_heads.py:6-19 | groups with zero output columns add nothing |
| `VirtualHeads.VirtualHeadsExact` | cuda-gb10-vllm-dsv41-exl3/patches/virtual_heads.py:62-96 | padded and sharded, the partial outputs add up to the unpadded, unsharded layer |
| `SharedExpert.PadWeight` | cuda-gb10-vllm-dsv41-exl3/patches/nvidia_model.py:821-835 | the padded axis is the least multiple of a shard on every rank, the original rows first, zeros behind |
| `SharedExpert.WidthsExactly` | cuda-gb10-vllm-dsv41-exl3/patches/dsv4_nvidia_model.py:122-126 | the model width never exceeds the padded weight and equals it, and covers the real columns, if and only if no partial block starts a new row of blocks |
| `SharedExpert.ScalesInStep` | cuda-gb10-vllm-dsv41-exl3/patches/nvidia_model.py:823-830 | padding scales in blocks and weights in elements keeps one scale per block |
| `SharedExpert.RankColumn` | cuda-gb10-vllm-dsv41-exl3/patches/nvidia_model.py:823-835 | a rank's column has the weights and the scale of its place in the whole |
| `SharedExpert.RanksKeep` | cuda-gb10-vllm-dsv41-exl3/patches/dsv4_nvidia_model.py:122-126 | the ranks together compute exactly the columns below the model width |
| `SharedExpert.SharedExpertExact` | cuda-gb10-vllm-dsv41-exl3/patches/dsv4_nvidia_model.py:117-126 | under that condition the partial outputs add up to the unpadded expert |
| `SharedExpert.SharedExpertLoses` | cuda-gb10-vllm-dsv41-exl3/patches/dsv4_nvidia_model.py:122-126 | and only then: otherwise an expert without zero columns loses output |
| `SharedExpert.AlikeLoses` | cuda-gb10-vllm-dsv41-exl3/patches/dsv4_nvidia_model.py:122-126 | for every width outside the condition there is an expert that loses output |
| `SharedExpert.PartCutOff` | cuda-gb10-vllm-dsv41-exl3/patches/dsv4_nvidia_model.py:122-126 | a partial block behind whole rows of blocks over the ranks is always cut off |
| `SharedExpert.PartialBlockCutOff` | cuda-gb10-vllm-dsv41-exl3/patches/dsv4_nvidia_model.py:122-126 | an instance: 130 columns in blocks of 128 on one rank give a model 128 columns wide |
| `ExpertSplit.TpSplit` | cuda-gb10-vllm-dsv41-exl3/patches/exl3_moe.py:267-290 | the counting loop yields the closed-form width and offset of the rank |
| `ExpertSplit.SplitPartitions` | cuda-gb10-vllm-dsv41-exl3/patches/exl3_moe.py:267-290 | the ranks' parts are consecutive and together the whole intermediate dimension |
| `ExpertSplit.AlignedExactly` | cuda-gb10-vllm-dsv41-exl3/patches/exl3_moe.py:274-283 | all widths and offsets are multiples of 128 if and only if the dimension is |
| `ExpertSplit.SplitBalanced` | cuda-gb10-vllm-dsv41-exl3/patches/exl3_moe.py:278-281 | parts differ by at most one block and the first rank never has the larger one |
| `ExpertSplit.Layer.Place` | cuda-gb10-vllm-dsv41-exl3/patches/exl3_moe.py:330-379 | one checkpoint tensor puts exactly the rank's slice into its half of the fused parameter and changes nothing else |
| `ExpertSplit.Layer.LoadWeights` | cuda-gb10-vllm-dsv41-exl3/patches/exl3_moe.py:303-320 | in whatever order tensors arrive, every local expert ends with its slice of every tensor, and an expert listed in full is loaded in full |
| `ExpertSplit.Layer.ListedIsLoaded` | cuda-gb10-vllm-dsv41-exl3/patches/exl3_moe.py:330-379 | read off the fused fields, gate in the first half of w13 and up in the second, a loaded expert is the rank's slice of it |
| `ExpertSplit.StoredIsSlice` | cuda-gb10-vllm-dsv41-exl3/patches/exl3_moe.py:330-379 | what is stored for an expert is one slice of all its projections |
| `ExpertSplit.SplitExpertExact` | cuda-gb10-vllm-dsv41-exl3/patches/exl3_moe.py:267-290 | for a whole number of 128-blocks the partial down-projections, of unequal widths, add up to the unsharded expert |
| `ExpertSplit.LoadedSumExact` | cuda-gb10-vllm-dsv41-exl3/patches/exl3_moe.py:330-379 | what the ranks compute from the fused fields they have loaded adds up to the unsharded expert |
| `IndexerSplit.PerRankCovers` | cuda-gb10-vllm-dsv41-exl3/patches/sparse_attn_indexer.py:224-226 | rows per rank are a multiple of 64 and together cover the chunk |
| `IndexerSplit.PerRankIsLeast` | cuda-gb10-vllm-dsv41-exl3/patches/sparse_attn_indexer.py:224-226 | and no smaller multiple does |
| `IndexerSplit.SliceOfRow` | cuda-gb10-vllm-dsv41-exl3/patches/sparse_attn_indexer.py:218-229 | every row lies in exactly the slice its position in the gather names |
| `IndexerSplit.RowsLocal` | cuda-gb10-vllm-dsv41-exl3/patches/sparse_attn_indexer.py:232-315 | a rank's block holds its rows' results in order and -1 rows behind |
| `IndexerSplit.GatherRanks` | cuda-gb10-vllm-dsv41-exl3/patches/sparse_attn_indexer.py:376-378 | concatenated in rank order, the first rows are the chunk's results in order |
| `IndexerSplit.ScatterGathered` | cuda-gb10-vllm-dsv41-exl3/patches/sparse_attn_indexer.py:318-334 | the buffers receive the first rows, split into indices and candidates, and nothing else |
| `IndexerSplit.PrefillChunkSplit` | cuda-gb10-vllm-dsv41-exl3/patches/sparse_attn_indexer.py:337-387 | for every row count and rank count the buffers end with each row's own result, candidate blocks included, and nothing else changes |
| `IndexerSplit.PrefillChunkWhole` | cuda-gb10-vllm-dsv41-exl3/patches/sparse_attn_indexer.py:783-846 | the unsplit branch has the same effect |
| `IndexerSplit.PrefillChunk` | cuda-gb10-vllm-dsv41-exl3/patches/sparse_attn_indexer.py:754-846 | so the outcome of a chunk does not depend on whether its rows are split; a chunk without keys selects nothing |
| `TopKMerge.TopKSize` | cuda-gb10-vllm-dsv41-exl3/patches/sparse_attn_indexer.py:96-107 | fewer than k ranked above it: exactly min(k, n) of n tokens satisfy that |
| `TopKMerge.SelectedScoresHigher` | cuda-gb10-vllm-dsv41-exl3/patches/sparse_attn_indexer.py:96-107 | a selected token scores at least as high as one left out, and on a tie its id is lower |
| `TopKMerge.MergeExact` | cuda-gb10-vllm-dsv41-exl3/patches/sparse_attn_indexer.py:96-107 | the top K of the ranks' local top Ks is the global top K, however the tokens are spread |
| `TopKMerge.MergedRowExact` | cuda-gb10-vllm-dsv41-exl3/patches/sparse_attn_indexer.py:96-107 | a row selected from the gathered rows holds the global top K, each token once, and has exactly K less that many padded slots, whatever padding the ranks sent |
| `DraftCache.SampledFromDense` | cuda-gb10-vllm-glm53-exl3/overlay/dflash2_speculator.py:80-104 | the token the walk picks has the largest noised logit over the whole cached row, not just among the candidates |
| `DraftCache.NoisedOrder` | cuda-gb10-vllm-glm53-exl3/overlay/dflash2_speculator.py:31-44 | a score beats another exactly when its lead is no less than the temperature times the other's lead in noise |
| `DraftCache.PickedWins` | cuda-gb10-vllm-glm53-exl3/overlay/dflash2_speculator.py:80-104 | in terms of the cached scores: no token of the vocabulary leads the drafted one by more than the temperature times the drafted one's lead in noise, so at temperature 0 the drafted one has the best score |
| `DraftCache.ScaledNoise` | cuda-gb10-vllm-glm53-exl3/overlay/dflash2_speculator.py:32-33 | scaling score and temperature alike changes nothing |
| `DraftCache.OnlyRatioMatters` | cuda-gb10-vllm-glm53-exl3/overlay/dflash2_speculator.py:80-107 | scaling a request's scores and temperature by one positive factor leaves every drafted token as it is |
| `DraftCache.RealizedFollows` | cuda-gb10-vllm-glm53-exl3/overlay/dflash2_speculator.py:66-107 | the scores realized at a step are those that follow the token drafted before it |
| `DraftCache.DenseHolds` | cuda-gb10-vllm-glm53-exl3/overlay/dflash2_speculator.py:135-139 | with distinct candidates a refilled row holds each candidate's score whatever the order of the stores |
| `DraftCache.Speculator.constructor` | cuda-gb10-vllm-glm53-exl3/overlay/dflash2_speculator.py:146-170 | the fresh buffers are a dense refill with no candidates |
| `DraftCache.Speculator.CacheRow` | cuda-gb10-vllm-glm53-exl3/overlay/dflash2_speculator.py:123-140 | clearing the remembered ids and storing the new ones leaves exactly the dense refill, and no other row changes |
| `DraftCache.Speculator.CacheDraftLogits` | cuda-gb10-vllm-glm53-exl3/overlay/dflash2_speculator.py:111-140 | the programs may run in any order; rows of live requests become dense refills, rows of slots not in the batch keep their contents |
| `DraftCache.Speculator.Walk` | cuda-gb10-vllm-glm53-exl3/overlay/dflash2_speculator.py:66-107 | tokens and realized scores of every step are those of the walk definition; a padded entry changes nothing |
| `DraftCache.Speculator.Run` | cuda-gb10-vllm-glm53-exl3/overlay/dflash2_speculator.py:111-140 | over any run of drafting steps from fresh buffers, every row equals a dense refill with the candidates and scores of the last step that drafted for its slot |
| `DraftCache.Speculator.GenerateDraft` | cuda-gb10-vllm-glm53-exl3/overlay/dflash2_speculator.py:214-249 | after a drafting step each live row is -inf except at its candidates, where it holds the scores realized there |

## Left out

- fp8 and ue8m0 decoding, trellis decoding, softmax, attention, rotary embeddings and all other GPU arithmetic: arbitrary functions here.
- EngramPrimes.NextPrimeExactness: from 1681 to 2^32 the composite side is a condition on the test; that no composite passes there rests on a published exhaustive search.
- Building the compressed token map from a tokenizer, and the random generator behind the multipliers: any map and any draw within the bound.
- Hashes of batch-padding tokens past the last row boundary: they belong to no request.
- NgramState.IdInBucket: for a bucket that ends within int32; `BucketExactly` says what happens otherwise.
- NgramState.SlotCache.Run: the block manager is a hypothesis on each step: slots still in use are not handed out again, and two live positions share a slot only for equal tokens.
- EngramPipeline.EmbedStep: one embedding layer of the V2 runner; rows of tokens that pad the batch are not looked up, and the sequence-parallel gather is left out.
- EngramDisk.ParallelRead: a short partial read is one read.
- EngramStage.StageStep: the pinned-buffer copies, streams, events and the cap on tokens per step are left out, and so are the buffers made at start-up (their width is negative when a rank's first head lies past the last one, and a view of no rows may not open); every rank reads the same files.
- torch.unique, pow, all_gather and all-reduce are taken by what their libraries promise.
- PrefixHash.CoarseViewIdentifiesPrefix: non-negative indices only; slices and iteration of the view repeat it.
- PrefixMeaning.HashIdentifiesRequest: media inputs have at least one token each, and an embedding row is a number.
- Grouping.PackGroups: buckets arrive formed; the uniform-type test, the spec classes and the eagle annotation are not part of this model.
- KvLayout.PlanFromGroups: layers arrive grouped by spec, and the strides of the two compact packings are taken from the layout diagram; layouts that split a page and compute_layout_strides itself are not part of this model.
- KvLayout.PlanGlm5: tail pages have the indexer page size, as the grouping pads them.
- MambaGroups.GroupCount: stage boundaries are given, and the layer index in a layer's name is part of the name.
- AutoFit.GetKvCacheConfigs: a worker's memory need is its bytes per block times a block count per length; `WorkerClaims` computes both from projected groups.
- WorkerClaims.EveryWorkerClaimsAlike: a spec's blocks per request length are a parameter; a uniform group claims the most any of its layers does, its attention layers claim alike, a tail claims one block (cuda-gb10-vllm-glm53-exl3/overlay/patch_kpool_tail_slotmap.py:4-6), and padding a page leaves the claim unchanged.
- Glm5Planning.PlanModel: models of this grouping, with registration, speculative retention and eagle annotations left out.
- Glm5Groups.EveryLayerPlaced: ranks of a stage hold the same layers, and a worker's layers are those between its stage's boundaries.
- VirtualHeads.LoadedByGroup: replacing the loaders on parameters, and counting them, is left out; the padding they perform is modelled.
- VirtualHeads.PadTensor: one-byte types other than e8m0 are taken to store zero as byte 0.
- SharedExpert.SharedExpertExact: the column and row parallel loaders are taken as even slices of the padded axis.
- ExpertSplit.Layer.Place: the fused parameters of one expert are one record in an array; older layers without a stored offset are not modelled.
- IndexerSplit.PrefillChunkSplit: all ranks run in one method; the environment agreement check and stream-capture assertions are left out.
- IndexerSplit.PrefillChunk: ends before the merge over context-parallel ranks, which is TopKMerge.
- TopKMerge.MergedRowExact: the selector's order within a row is left open, and token ids are global already.
- DraftCache.Speculator.Walk: one request slot per batch entry rather than per flattened step, and sampling on; candidates of a step are distinct ids, as a top-k gives them.
- Sliding-window index kernels, image visibility, head and model constructors, configuration lookup, downloads, logging, the HTTP server, the Go tools and the build scripts: wiring or easy members.
