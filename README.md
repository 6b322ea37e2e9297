# Image dataset sharding and access, in Dafny

This project models `src/dataset.py`, the data-loading module of an image-classification project. The file defines two PyTorch dataset classes over a table of image records. Each record has a file path (column `image_path`) and a class (column `class`).

- `IterableDataset` is iterated. Under a multi-process data loader, each worker process computes its own contiguous block of table positions from `(num_workers, id)`. It then decodes, optionally transforms and yields the rows of that block one at a time, in increasing position.
- `Dataset` is indexed. `ds[i]` decodes and transforms row `i` when it is asked for.

Both classes re-index the table to positions 0..N-1 when they are built and never change it afterwards. The model therefore uses immutable datatypes, not classes:

- `wrappers.dfy`: `Option` and `Result`. They stand for Python's `None` and for raised exceptions.
- `records.dfy`: a table row (`Record`), the re-indexing done by `reset_index(drop=True)` (`ResetIndex`), and the position `iloc[index]` reads (`Position`). Negative indices count from the end.
- `sharding.dfy`: the block each worker walks (`ShardOf`), Python's `range` (`Range`), and the lemmas that the blocks of workers 0..W-1 tile 0..N-1 with no gap and no overlap.
- `samples.dfy`: making one row into a `(image, class)` sample (`Materialize`). The decoder and the transform are passed in as functions.
- `datasets.dfy`: the two dataset classes. `IterableDataset.Iter` is the generator: it picks the block, and `IterableDataset.YieldRange` runs its `for` loop. `IterableDataset.Produce` specifies what a pass yields. Lemmas relate the outputs of all workers to one pass over the whole table, and to indexed access.

Behaviour of the code worth noting:

- A surplus worker's `end` lies below its `start`: `end = min(start + per_worker, N)`, so N=5, W=8, worker 7 gives start 7 and end 5. `range` then yields nothing. `Shard.Len` is `max(0, end - start)`, and `FiveRowsEightWorkers` shows the case.
- An exception raised inside the generator ends the pass, so nothing after the failing row is yielded by that pass. `Produce` and `Iter` model this: the items before the failing row, then the error.
- `iloc` accepts every index from -N to N-1, so `GetItem(-1)` reads the last row. Only indices outside -N..N-1 fail.
- The two classes each keep their own copy of the table and use their own decoder (`decode_image` for iteration, `Image.open(...).convert("RGB")` for indexing). The model keeps two datatypes, and every operation that decodes takes its decoder as a parameter.

Shard boundaries depend only on `(N, W, id)` because `ShardOf` is a function of those three values and nothing else. Iterating again with the same worker topology therefore visits the same positions.

## Model

| member | source | states |
|---|---|---|
| Records.ResetIndex | src/dataset.py:9 | the re-indexed table has exactly as many rows as the input, and row k is the k-th input row whatever its old index label |
| Records.Position | src/dataset.py:34 | `iloc[index]` succeeds exactly for -N <= index < N, and then reads position index mod N (so -1 is the last row) |
| Datasets.IterableDataset.FromFrame | src/dataset.py:8-10 | the iterable dataset holds the table's rows in their order under positions 0..N-1, with the given transform |
| Datasets.Dataset.FromFrame | src/dataset.py:37-39 | the indexed dataset holds the table's rows in their order under positions 0..N-1, with the given transform |
| Sharding.Range | src/dataset.py:22 | `range(lo, hi)` visits hi - lo positions when lo < hi and none otherwise, the k-th being lo + k |
| Sharding.Shard.Len | src/dataset.py:22 | the number of positions `range(start, end)` visits is 0 exactly when end <= start, and otherwise end - start |
| Sharding.CeilDiv | src/dataset.py:17 | the block size is the ceiling of N / W: W blocks of it cover N, and W blocks of one less do not |
| Sharding.ShardOf | src/dataset.py:13-20 | with no worker context the block is [0, N); otherwise it starts at id * ceil(N / W), and in every case it starts at or above 0 and ends at or below N |
| Sharding.MainProcessTakesAll | src/dataset.py:14-15 | with no worker context the pass visits all N positions, in order 0..N-1 |
| Sharding.ShardInTable | src/dataset.py:19-22 | every position a worker visits is a row of the table, so `iloc[idx]` never fails inside the loop |
| Sharding.SurplusWorkerIdle | src/dataset.py:19-22 | a worker whose block starts at or past N visits nothing, even though its end may lie below its start |
| Sharding.EmptyTableIdle | src/dataset.py:17-22 | with an empty table every worker visits nothing |
| Sharding.MoreWorkersThanRows | src/dataset.py:17-22 | with more workers than rows, each worker with id >= N visits nothing |
| Sharding.BlockQuotient | src/dataset.py:19-20 | a position inside block number id lies at quotient id when divided by the block size |
| Sharding.BlockMembership | src/dataset.py:19-22 | a position lies in block [id * per, min(id * per + per, N)) exactly when it is below N and its quotient by per is id |
| Sharding.ShardMembership | src/dataset.py:17-22 | position i is in worker id's block exactly when 0 <= i < N and i / ceil(N / W) == id |
| Sharding.Owner | src/dataset.py:17-20 | every row has an owning worker among 0..W-1 whose block contains it |
| Sharding.ExactlyOneWorker | src/dataset.py:17-22 | every row is visited by at least one worker, and by no worker other than its owner |
| Sharding.TilingPrefix | src/dataset.py:17-22 | the blocks of workers 0..k-1, laid end to end, are exactly positions 0..min(k * ceil(N / W), N)-1 in order |
| Sharding.ShardsTileTable | src/dataset.py:17-22 | the blocks of workers 0..W-1, laid end to end, are exactly positions 0..N-1 in order: no gap, no overlap |
| Sharding.TilingLength | src/dataset.py:17-22 | the blocks of workers 0..k-1 together hold as many positions as those workers visit |
| Sharding.YieldCountsSumToTotal | src/dataset.py:17-22 | the numbers of rows the W workers visit add up to N |
| Sharding.TenRowsThreeWorkers | src/dataset.py:17-22 | N=10, W=3 gives the blocks [0,4), [4,8), [8,10) |
| Sharding.FiveRowsEightWorkers | src/dataset.py:17-22 | N=5, W=8 gives worker 4 the block [4,5), and worker 7 the block from 7 to 5, which is empty |
| Samples.Materialize | src/dataset.py:24-27 | a sample is made exactly when the decode succeeds and, if a transform is set, the transform succeeds; it carries the row's class; its image is the decoded image when there is no transform and the transform's output when there is one; otherwise the error names the failing step |
| Datasets.IterableDataset.Len | src/dataset.py:30-31 | `__len__` is the number of rows of the whole table, which is also the length of the pass made with no worker context |
| Datasets.Dataset.Len | src/dataset.py:41-42 | `__len__` is the number of rows of the table |
| Datasets.IterableDataset.GetItem | src/dataset.py:33-34 | `__getitem__` returns the stored row itself (nothing decoded) exactly for -N <= index < N, the row at index mod N, and an out-of-range error otherwise |
| Datasets.IterableDataset.Produce | src/dataset.py:22-28 | a pass yields at most one item per position, and all of them exactly when it ends without an exception |
| Datasets.IterableDataset.ProduceAt | src/dataset.py:22-28 | item k of a pass is the sample of the k-th position visited; a pass that stops early stops at the first position whose sample fails, with that failure |
| Datasets.IterableDataset.ProduceAppend | src/dataset.py:22-28 | a pass over a + b is the pass over a, and, when that completes, followed by the pass over b |
| Datasets.IterableDataset.ProduceStep | src/dataset.py:22-28 | visiting one more position after a completed pass over lo..idx-1 adds row idx's sample, or ends the pass with that row's failure |
| Datasets.IterableDataset.ProduceStopsAt | src/dataset.py:22-28 | once a pass has failed, visiting further positions yields nothing more and keeps the failure |
| Datasets.IterableDataset.YieldRange | src/dataset.py:22-28 | the `for idx in range(start, end)` loop yields exactly what a pass over range(start, end) yields, stopping at the first exception |
| Datasets.IterableDataset.BlockItemsInOrder | src/dataset.py:22-28 | within a block, item k is the sample of row start + k and carries that row's class: rows come out in increasing position |
| Datasets.IterableDataset.Iter | src/dataset.py:12-28 | `__iter__` yields exactly what a pass over this worker's block yields, and item k carries the class of row start + k |
| Datasets.IterableDataset.PassCompletes | src/dataset.py:22-28 | when every row can be decoded and transformed, no pass stops early |
| Datasets.IterableDataset.WorkersItemsPrefix | src/dataset.py:17-28 | when every row decodes, the outputs of workers 0..k-1 concatenated are the pass over their blocks laid end to end |
| Datasets.IterableDataset.WorkersTogetherYieldEveryRow | src/dataset.py:12-28 | when every row decodes, every worker completes, and the W outputs concatenated are N items, equal to the main-process pass, item i being the sample of row i |
| Datasets.IterableDataset.LenCountsAllWorkers | src/dataset.py:30-31 | `__len__` is the total the W workers yield together and the main-process pass length, never less than one worker's share |
| Datasets.Dataset.GetItem | src/dataset.py:44-52 | `ds[index]` is an out-of-range error exactly when index is outside -N..N-1, and otherwise the sample of row index mod N, with the decode and transform failures of that row alone |
| Datasets.Dataset.IndexableBelowLen | src/dataset.py:41-45 | exactly the indices from -`__len__` to `__len__`-1 address a row, and a sample read there carries that row's class |
| Datasets.RandomAccessAgreesWithIteration | src/dataset.py:22-52 | for row i, indexed access with the same rows, transform and decoder returns the very sample i's owning worker yields at position i - start, and the raw row `__getitem__` returns carries the same class |

## Left out

- The image decoders `decode_image(path, mode="RGB")` and `Image.open(path).convert("RGB")` and the transform's internals are foreign library calls. They are function parameters; a `None` result stands for a raised exception.
- `torch.utils.data.get_worker_info()` reads the ambient worker context. The context is an explicit `Option<WorkerInfo>` argument. The loader guarantees `num_workers >= 1` and `0 <= id < num_workers`, and `ValidWorker` requires the same.
- Sharding.CeilDiv: computes the exact integer ceiling `(N + W - 1) / W`; the source's `math.ceil(N / float(W))` goes through floating point and agrees with it for N below 2^53.
- Laziness: the generator holds one sample at a time, and a consumer may stop pulling early. The model builds the list of everything a full pass yields; a consumer that stops early sees a prefix of it.
- The parallel execution of workers by the data loader is not modelled. Workers share nothing mutable, so each worker's output is reasoned about alone and the outputs are then joined.
- The pandas DataFrame is a sequence of `FrameRow` values with integer index labels. Column lookup by name, the `KeyError` for a missing column, and `iloc` with slices, lists or boolean masks are not modelled.
- `if self.transform:` tests Python truthiness. The model treats every supplied transform as present, so a transform object that is falsy is not modelled.
- The commented-out lines at src/dataset.py:46 and src/dataset.py:48 have no effect and are not modelled.
