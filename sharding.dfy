/** How `IterableDataset.__iter__` splits the positions 0..N-1 of the table among the worker
    processes of a data loader: each worker takes one contiguous block of ceil(N / W) positions,
    the last block cut short at N, and workers past the end take nothing. */
module Sharding {
  import opened Wrappers

  /** The worker context a loader process reports: how many workers there are and which one
      this is. No context at all (`None`) means iteration runs in the main process. */
  datatype WorkerInfo = WorkerInfo(numWorkers: int, id: int)

  /** What the loader guarantees about the context it hands out; the source relies on it and
      checks nothing. */
  predicate ValidWorker(worker: Option<WorkerInfo>) {
    worker.Some? ==> 1 <= worker.value.numWorkers && 0 <= worker.value.id < worker.value.numWorkers
  }

  function Min(a: int, b: int): int {
    if a <= b then a else b
  }

  /** Python's `range(lo, hi)`: lo, lo+1, ..., hi-1, and nothing at all when hi <= lo. */
  function Range(lo: int, hi: int): (s: seq<int>)
    ensures |s| == if lo < hi then hi - lo else 0
    ensures forall k :: 0 <= k < |s| ==> s[k] == lo + k
  {
    seq(if lo < hi then hi - lo else 0, k => lo + k)
  }

  /** A half-open block [start, end) of positions; `end` may lie below `start`. */
  datatype Shard = Shard(start: int, end: int) {

    /** The number of positions `range(start, end)` visits. */
    function Len(): (r: nat)
      ensures r == 0 <==> end <= start
      ensures start + r == if start <= end then end else start
    {
      if start < end then end - start else 0
    }

    /** The positions visited, in the order they are visited. */
    function Indices(): (s: seq<int>)
      ensures |s| == Len()
    {
      Range(start, end)
    }
  }

  /** `int(math.ceil(N / float(W)))`, the size of every block but the last. */
  function CeilDiv(n: nat, w: int): (q: nat)
    requires 1 <= w
    ensures n <= q * w < n + w
  {
    var q := (n + w - 1) / w;
    assert n + w - 1 == q * w + (n + w - 1) % w;
    q
  }

  /** The block `__iter__` walks for a table of `n` rows under the given worker context. */
  function ShardOf(n: nat, worker: Option<WorkerInfo>): (s: Shard)
    requires ValidWorker(worker)
    ensures 0 <= s.start && s.end <= n
    ensures worker.None? ==> s.start == 0 && s.end == n
    ensures worker.Some? ==> s.start == worker.value.id * CeilDiv(n, worker.value.numWorkers)
  {
    match worker
    case None => Shard(0, n)
    case Some(info) =>
      var perWorker := CeilDiv(n, info.numWorkers);
      var start := info.id * perWorker;
      Shard(start, Min(start + perWorker, n))
  }

  /** The block of worker `id` out of `w`. */
  function WorkerShard(n: nat, w: int, id: int): Shard
    requires 1 <= w && 0 <= id < w
  {
    ShardOf(n, Some(WorkerInfo(w, id)))
  }

  /** The blocks of workers 0..k-1, laid end to end. */
  function Tiling(n: nat, w: int, k: int): (t: seq<int>)
    requires 1 <= w && 0 <= k <= w
    ensures forall j :: 0 <= j < |t| ==> 0 <= t[j] < n
    decreases k
  {
    if k == 0 then [] else Tiling(n, w, k - 1) + WorkerShard(n, w, k - 1).Indices()
  }

  /** The number of items workers 0..k-1 yield between them. */
  function TotalLen(n: nat, w: int, k: int): nat
    requires 1 <= w && 0 <= k <= w
    decreases k
  {
    if k == 0 then 0 else TotalLen(n, w, k - 1) + WorkerShard(n, w, k - 1).Len()
  }

  lemma RangeMembership(lo: int, hi: int, i: int)
    ensures i in Range(lo, hi) <==> lo <= i < hi
  {
    if lo <= i < hi {
      assert Range(lo, hi)[i - lo] == i;
    }
  }

  lemma {:induction false} RangeSplit(lo: int, mid: int, hi: int)
    requires lo <= mid <= hi
    ensures Range(lo, mid) + Range(mid, hi) == Range(lo, hi)
  {
  }

  lemma MulMonotone(a: int, b: int, c: nat)
    ensures a <= b ==> a * c <= b * c
  {
  }

  /** A position p with id*per <= p < (id+1)*per lies in block number p / per. */
  lemma BlockQuotient(p: int, per: int, id: int)
    requires 1 <= per && 0 <= id
    requires id * per <= p < id * per + per
    ensures p / per == id
  {
    var q, r := p / per, p % per;
    assert p == q * per + r && 0 <= r < per;
    MulMonotone(id + 1, q, per);
    MulMonotone(q + 1, id, per);
    assert (id + 1) * per == id * per + per;
    assert (q + 1) * per == q * per + per;
  }

  /** No worker context: the whole table, positions 0..N-1 in order. */
  lemma MainProcessTakesAll(n: nat)
    ensures ShardOf(n, None).Indices() == Range(0, n)
    ensures ShardOf(n, None).Len() == n
  {
  }

  /** Every position a worker visits is a row of the table. */
  lemma {:induction false} ShardInTable(n: nat, worker: Option<WorkerInfo>, i: int)
    requires ValidWorker(worker)
    requires i in ShardOf(n, worker).Indices()
    ensures 0 <= i < n
  {
  }

  /** A worker whose block starts at or past the end yields nothing, although its `end`
      (clipped to N) may lie below its `start`. */
  lemma SurplusWorkerIdle(n: nat, w: int, id: int)
    requires 1 <= w && 0 <= id < w
    requires WorkerShard(n, w, id).start >= n
    ensures WorkerShard(n, w, id).Len() == 0 && WorkerShard(n, w, id).Indices() == []
  {
  }

  /** An empty table gives every worker an empty block. */
  lemma EmptyTableIdle(w: int, id: int)
    requires 1 <= w && 0 <= id < w
    ensures WorkerShard(0, w, id).Indices() == []
  {
  }

  /** With more workers than rows, each worker with id >= N yields nothing: blocks have size 1. */
  lemma {:induction false} MoreWorkersThanRows(n: nat, w: int, id: int)
    requires n < w && n <= id < w
    ensures WorkerShard(n, w, id).Len() == 0
  {
    var per := CeilDiv(n, w);
    MulMonotone(2, per, w);
    if n > 0 && per == 0 {
      assert false;
    }
    assert WorkerShard(n, w, id).start == id * per;
    if per == 1 {
      assert WorkerShard(n, w, id).start == id;
    }
  }

  /** Position i lies in the block [id * per, min(id * per + per, n)) exactly when it is below n
      and id == i / per. */
  lemma BlockMembership(n: nat, per: nat, id: int, i: int)
    requires 0 <= id
    ensures id * per <= i < Min(id * per + per, n) <==> 0 <= i < n && per >= 1 && i / per == id
  {
    if id * per <= i < Min(id * per + per, n) {
      if per == 0 {
        assert false;
      }
      BlockQuotient(i, per, id);
      MulMonotone(0, id, per);
    }
    if 0 <= i < n && per >= 1 && i / per == id {
      assert i == id * per + i % per;
    }
  }

  /** Position i belongs to worker id exactly when i is a row and id == i / ceil(N / W). */
  lemma {:induction false} ShardMembership(n: nat, w: int, id: int, i: int)
    requires 1 <= w && 0 <= id < w
    ensures i in WorkerShard(n, w, id).Indices() <==> 0 <= i < n && i / CeilDiv(n, w) == id
  {
    var per := CeilDiv(n, w);
    var s := WorkerShard(n, w, id);
    RangeMembership(s.start, s.end, i);
    BlockMembership(n, per, id, i);
    if 0 <= i < n && per == 0 {
      assert false;
    }
  }

  /** The worker that visits position i. */
  function Owner(n: nat, w: int, i: int): (id: int)
    requires 1 <= w && 0 <= i < n
    ensures 0 <= id < w
    ensures i in WorkerShard(n, w, id).Indices()
  {
    var per := CeilDiv(n, w);
    var id := i / per;
    MulMonotone(w, id, per);
    if id >= w then
      assert false;
      0
    else
      ShardMembership(n, w, id, i);
      id
  }

  /** Every row is visited by exactly one of workers 0..W-1: no gap and no overlap. */
  lemma {:induction false} ExactlyOneWorker(n: nat, w: int, i: int)
    requires 1 <= w && 0 <= i < n
    ensures exists id :: 0 <= id < w && i in WorkerShard(n, w, id).Indices()
    ensures forall id :: 0 <= id < w && i in WorkerShard(n, w, id).Indices() ==> id == Owner(n, w, i)
  {
    var owner := Owner(n, w, i);
    forall id | 0 <= id < w && i in WorkerShard(n, w, id).Indices()
      ensures id == owner
    {
      ShardMembership(n, w, id, i);
      ShardMembership(n, w, owner, i);
    }
  }

  /** Workers 0..k-1 together cover exactly the first min(k * ceil(N / W), N) positions,
      in increasing order. */
  lemma {:induction false} TilingPrefix(n: nat, w: int, k: int)
    requires 1 <= w && 0 <= k <= w
    ensures Tiling(n, w, k) == Range(0, Min(k * CeilDiv(n, w), n))
  {
    var per := CeilDiv(n, w);
    if k > 0 {
      TilingPrefix(n, w, k - 1);
      var s := WorkerShard(n, w, k - 1);
      assert s.start == (k - 1) * per;
      assert k * per == (k - 1) * per + per;
      if (k - 1) * per >= n {
        assert s.Indices() == [];
        assert Min((k - 1) * per, n) == n == Min(k * per, n);
      } else {
        RangeSplit(0, (k - 1) * per, Min(k * per, n));
      }
    }
  }

  /** The blocks of workers 0..W-1, laid end to end, are exactly 0..N-1. */
  lemma ShardsTileTable(n: nat, w: int)
    requires 1 <= w
    ensures Tiling(n, w, w) == Range(0, n)
  {
    TilingPrefix(n, w, w);
    var per := CeilDiv(n, w);
    assert n <= per * w;
    assert w * per == per * w;
    assert Min(w * per, n) == n;
  }

  lemma {:induction false} TilingLength(n: nat, w: int, k: int)
    requires 1 <= w && 0 <= k <= w
    ensures |Tiling(n, w, k)| == TotalLen(n, w, k)
  {
    if k > 0 {
      TilingLength(n, w, k - 1);
    }
  }

  /** The yield counts of workers 0..W-1 add up to N. */
  lemma YieldCountsSumToTotal(n: nat, w: int)
    requires 1 <= w
    ensures TotalLen(n, w, w) == n
  {
    TilingLength(n, w, w);
    ShardsTileTable(n, w);
  }

  /** The example N = 10, W = 3: blocks [0,4), [4,8), [8,10). */
  lemma TenRowsThreeWorkers()
    ensures WorkerShard(10, 3, 0).Indices() == [0, 1, 2, 3]
    ensures WorkerShard(10, 3, 1).Indices() == [4, 5, 6, 7]
    ensures WorkerShard(10, 3, 2).Indices() == [8, 9]
  {
  }

  /** The example N = 5, W = 8: worker 7 starts at 7 and stops at 5, and visits nothing. */
  lemma FiveRowsEightWorkers()
    ensures WorkerShard(5, 8, 4) == Shard(4, 5)
    ensures WorkerShard(5, 8, 7) == Shard(7, 5) && WorkerShard(5, 8, 7).Indices() == []
  {
  }
}
