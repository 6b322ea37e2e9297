/** The two dataset classes. Both hold the same thing, a table of rows re-indexed 0..N-1 and an
    optional transform, fixed when the object is built and never changed; they differ in how
    samples come out. `IterableDataset` is iterated: each worker process decodes its own block
    of rows, in order, one at a time. `Dataset` is indexed: `ds[i]` decodes row i on the spot. */
module Datasets {
  import opened Wrappers
  import opened Records
  import opened Sharding
  import opened Samples

  /** What a pass of the generator hands its consumer: the samples yielded, in order, and the
      exception that ended the pass early, if one did. A Python generator that raises is
      finished, so nothing follows a failure. */
  datatype Stream<I, L> = Stream(items: seq<Sample<I, L>>, failure: Option<Error>)

  datatype IterableDataset<!I, L> = IterableDataset(rows: seq<Record<L>>, transform: Option<I -> Option<I>>) {

    /** `__init__`: keep the table's rows in order under the positions 0..N-1. */
    static function FromFrame(frame: seq<FrameRow<L>>, transform: Option<I -> Option<I>>): (ds: IterableDataset<I, L>)
      ensures |ds.rows| == |frame|
      ensures forall k :: 0 <= k < |frame| ==> ds.rows[k] == frame[k].record
      ensures ds.transform == transform
    {
      IterableDataset(ResetIndex(frame), transform)
    }

    /** `__len__`: the number of rows in the whole table, not this worker's share. */
    function Len(): (n: nat)
      ensures n == |rows| && n == ShardOf(|rows|, None).Len()
    {
      |rows|
    }

    /** `__getitem__`: the stored row itself, nothing decoded. */
    function GetItem(index: int): (r: Result<Record<L>, Error>)
      ensures r.Ok? <==> -|rows| <= index < |rows|
      ensures r.Ok? ==> r.value == rows[index % |rows|]
      ensures r.Err? ==> r.error == IndexOutOfRange(index)
    {
      match Position(|rows|, index)
      case None => Err(IndexOutOfRange(index))
      case Some(p) => Ok(rows[p])
    }

    predicate ValidPositions(indices: seq<int>) {
      forall k :: 0 <= k < |indices| ==> 0 <= indices[k] < |rows|
    }

    /** The samples the generator yields for `indices`, visited in order: row by row until the
        first row whose decode or transform raises. */
    function Produce(decode: string -> Option<I>, indices: seq<int>): (out: Stream<I, L>)
      requires ValidPositions(indices)
      ensures |out.items| <= |indices|
      ensures out.failure.None? <==> |out.items| == |indices|
      decreases |indices|
    {
      if indices == [] then Stream([], None)
      else
        match Materialize(rows[indices[0]], decode, transform)
        case Err(e) => Stream([], Some(e))
        case Ok(s) =>
          var rest := Produce(decode, indices[1..]);
          Stream([s] + rest.items, rest.failure)
    }

    /** Item k of a pass is the sample of position `indices[k]`; a pass that ends early ends at
        the first position whose sample could not be made, with that position's exception. */
    lemma {:induction false} ProduceAt(decode: string -> Option<I>, indices: seq<int>)
      requires ValidPositions(indices)
      ensures forall k :: 0 <= k < |Produce(decode, indices).items| ==>
                Materialize(rows[indices[k]], decode, transform) == Ok(Produce(decode, indices).items[k])
      ensures Produce(decode, indices).failure.Some? ==>
                Materialize(rows[indices[|Produce(decode, indices).items|]], decode, transform)
                  == Err(Produce(decode, indices).failure.value)
      decreases |indices|
    {
      if indices != [] {
        var rest := indices[1..];
        ProduceAt(decode, rest);
        match Materialize(rows[indices[0]], decode, transform)
        case Err(e) =>
        case Ok(s) =>
          var out := Produce(decode, indices);
          forall k | 0 <= k < |out.items|
            ensures Materialize(rows[indices[k]], decode, transform) == Ok(out.items[k])
          {
            if k > 0 {
              assert indices[k] == rest[k - 1] && out.items[k] == Produce(decode, rest).items[k - 1];
            }
          }
          if out.failure.Some? {
            assert indices[|out.items|] == rest[|Produce(decode, rest).items|];
          }
      }
    }

    lemma ValidPositionsAppend(a: seq<int>, b: seq<int>)
      requires ValidPositions(a) && ValidPositions(b)
      ensures ValidPositions(a + b)
    {
    }

    /** Producing over `a + b` is producing over `a` and, if that got through, over `b`. */
    lemma {:induction false} ProduceAppend(decode: string -> Option<I>, a: seq<int>, b: seq<int>)
      requires ValidPositions(a) && ValidPositions(b)
      ensures ValidPositions(a + b)
      ensures Produce(decode, a + b) ==
                if Produce(decode, a).failure.Some? then Produce(decode, a)
                else Stream(Produce(decode, a).items + Produce(decode, b).items, Produce(decode, b).failure)
    {
      ValidPositionsAppend(a, b);
      if a == [] {
        assert a + b == b;
      } else {
        var ab := a + b;
        assert ab[0] == a[0] && ab[1..] == a[1..] + b;
        ProduceAppend(decode, a[1..], b);
        var pa, pb := Produce(decode, a[1..]), Produce(decode, b);
        match Materialize(rows[a[0]], decode, transform)
        case Err(e) =>
          assert Produce(decode, ab) == Stream([], Some(e));
        case Ok(s) =>
          assert Produce(decode, a) == Stream([s] + pa.items, pa.failure);
          if pa.failure.None? {
            assert [s] + (pa.items + pb.items) == ([s] + pa.items) + pb.items;
          }
      }
    }

    /** A pass over a block yields, as its k-th item, the sample of row start + k: the rows come
        out in increasing position, each carrying its own class. */
    lemma BlockItemsInOrder(decode: string -> Option<I>, shard: Shard)
      requires 0 <= shard.start && shard.end <= |rows|
      ensures ValidPositions(shard.Indices())
      ensures forall k :: 0 <= k < |Produce(decode, shard.Indices()).items| ==>
                shard.start + k < |rows| &&
                Materialize(rows[shard.start + k], decode, transform) == Ok(Produce(decode, shard.Indices()).items[k]) &&
                Produce(decode, shard.Indices()).items[k].classId == rows[shard.start + k].classId
    {
      ProduceAt(decode, shard.Indices());
    }

    /** Extending a completed pass over positions lo..idx-1 by position idx adds that row's
        sample, or ends the pass with that row's failure. */
    lemma ProduceStep(decode: string -> Option<I>, lo: int, idx: int)
      requires 0 <= lo <= idx < |rows|
      requires ValidPositions(Range(lo, idx)) && Produce(decode, Range(lo, idx)).failure.None?
      ensures ValidPositions(Range(lo, idx + 1))
      ensures var r := Materialize(rows[idx], decode, transform);
              Produce(decode, Range(lo, idx + 1)) ==
                if r.Ok? then Stream(Produce(decode, Range(lo, idx)).items + [r.value], None)
                else Stream(Produce(decode, Range(lo, idx)).items, Some(r.error))
    {
      RangeSplit(lo, idx, idx + 1);
      assert Range(idx, idx + 1) == [idx];
      ProduceAppend(decode, Range(lo, idx), [idx]);
      assert [idx][1..] == [];
    }

    /** Once a pass over lo..mid-1 has failed, visiting further positions changes nothing. */
    lemma ProduceStopsAt(decode: string -> Option<I>, lo: int, mid: int, hi: int)
      requires 0 <= lo <= mid <= hi <= |rows|
      requires ValidPositions(Range(lo, mid)) && Produce(decode, Range(lo, mid)).failure.Some?
      ensures ValidPositions(Range(lo, hi))
      ensures Produce(decode, Range(lo, hi)) == Produce(decode, Range(lo, mid))
    {
      RangeSplit(lo, mid, hi);
      ProduceAppend(decode, Range(lo, mid), Range(mid, hi));
    }

    /** The loop of `__iter__`: for each position in `range(lo, hi)`, read the row, decode and
        transform it and yield the sample, stopping at the first exception. */
    method YieldRange(decode: string -> Option<I>, lo: int, hi: int)
      returns (items: seq<Sample<I, L>>, failure: Option<Error>)
      requires 0 <= lo && hi <= |rows|
      ensures ValidPositions(Range(lo, hi))
      ensures Stream(items, failure) == Produce(decode, Range(lo, hi))
    {
      items, failure := [], None;
      var idx := lo;
      while idx < hi
        invariant lo <= idx && (idx <= hi || idx == lo)
        invariant ValidPositions(Range(lo, idx))
        invariant Produce(decode, Range(lo, idx)) == Stream(items, None)
      {
        var r := Materialize(rows[idx], decode, transform);
        ProduceStep(decode, lo, idx);
        if r.Err? {
          failure := Some(r.error);
          ProduceStopsAt(decode, lo, idx + 1, hi);
          return;
        }
        items := items + [r.value];
        idx := idx + 1;
      }
      assert idx == hi || Range(lo, idx) == [] == Range(lo, hi);
    }

    /** `__iter__`: find this process's block of rows, then yield the samples of its rows one by
        one in increasing position, stopping at the first exception. */
    method Iter(decode: string -> Option<I>, worker: Option<WorkerInfo>)
      returns (items: seq<Sample<I, L>>, failure: Option<Error>)
      requires ValidWorker(worker)
      ensures ValidPositions(ShardOf(|rows|, worker).Indices())
      ensures Stream(items, failure) == Produce(decode, ShardOf(|rows|, worker).Indices())
      ensures forall k :: 0 <= k < |items| ==>
                ShardOf(|rows|, worker).start + k < |rows| &&
                items[k].classId == rows[ShardOf(|rows|, worker).start + k].classId
    {
      var shard := ShardOf(|rows|, worker);
      items, failure := YieldRange(decode, shard.start, shard.end);
      BlockItemsInOrder(decode, shard);
    }

    /** The samples workers 0..k-1 out of `w` yield, concatenated in worker order. */
    function WorkersItems(decode: string -> Option<I>, w: int, k: int): seq<Sample<I, L>>
      requires 1 <= w && 0 <= k <= w
      decreases k
    {
      if k == 0 then []
      else WorkersItems(decode, w, k - 1) + Produce(decode, WorkerShard(|rows|, w, k - 1).Indices()).items
    }

    /** Every row of the table can be decoded and transformed with `decode`. */
    predicate AllRowsMaterialize(decode: string -> Option<I>) {
      forall i :: 0 <= i < |rows| ==> Materialize(rows[i], decode, transform).Ok?
    }

    /** When every row can be made into a sample, a pass never stops early. */
    lemma PassCompletes(decode: string -> Option<I>, indices: seq<int>)
      requires ValidPositions(indices) && AllRowsMaterialize(decode)
      ensures Produce(decode, indices).failure.None?
    {
    }

    lemma {:induction false} WorkersItemsPrefix(decode: string -> Option<I>, w: int, k: int)
      requires 1 <= w && 0 <= k <= w && AllRowsMaterialize(decode)
      ensures ValidPositions(Tiling(|rows|, w, k))
      ensures WorkersItems(decode, w, k) == Produce(decode, Tiling(|rows|, w, k)).items
    {
      if k > 0 {
        WorkersItemsPrefix(decode, w, k - 1);
        var s := WorkerShard(|rows|, w, k - 1).Indices();
        PassCompletes(decode, Tiling(|rows|, w, k - 1));
        ProduceAppend(decode, Tiling(|rows|, w, k - 1), s);
      }
    }

    /** When every row decodes and transforms, each of the W workers finishes its pass, and
        between them they yield each row exactly once: their outputs, concatenated in worker
        order, are the N samples of rows 0..N-1, the same samples a pass in the main process
        yields. */
    lemma WorkersTogetherYieldEveryRow(decode: string -> Option<I>, w: int)
      requires 1 <= w && AllRowsMaterialize(decode)
      ensures forall id :: 0 <= id < w ==> Produce(decode, WorkerShard(|rows|, w, id).Indices()).failure.None?
      ensures |WorkersItems(decode, w, w)| == |rows|
      ensures WorkersItems(decode, w, w) == Produce(decode, ShardOf(|rows|, None).Indices()).items
      ensures forall i :: 0 <= i < |rows| ==>
                Materialize(rows[i], decode, transform) == Ok(WorkersItems(decode, w, w)[i])
    {
      forall id | 0 <= id < w
        ensures Produce(decode, WorkerShard(|rows|, w, id).Indices()).failure.None?
      {
        PassCompletes(decode, WorkerShard(|rows|, w, id).Indices());
      }
      ShardsTileTable(|rows|, w);
      WorkersItemsPrefix(decode, w, w);
      PassCompletes(decode, Range(0, |rows|));
      ProduceAt(decode, Range(0, |rows|));
    }

    /** `__len__` counts the whole table, which is what the workers yield between them, and is
        never less than what any one worker yields. */
    lemma LenCountsAllWorkers(w: int)
      requires 1 <= w
      ensures Len() == TotalLen(|rows|, w, w)
      ensures forall id :: 0 <= id < w ==> WorkerShard(|rows|, w, id).Len() <= Len()
      ensures Len() == ShardOf(|rows|, None).Len()
    {
      YieldCountsSumToTotal(|rows|, w);
    }
  }

  datatype Dataset<!I, L> = Dataset(rows: seq<Record<L>>, transform: Option<I -> Option<I>>) {

    /** `__init__`: keep the table's rows in order under the positions 0..N-1. */
    static function FromFrame(frame: seq<FrameRow<L>>, transform: Option<I -> Option<I>>): (ds: Dataset<I, L>)
      ensures |ds.rows| == |frame|
      ensures forall k :: 0 <= k < |frame| ==> ds.rows[k] == frame[k].record
      ensures ds.transform == transform
    {
      Dataset(ResetIndex(frame), transform)
    }

    /** `__len__`: the number of rows. */
    function Len(): (n: nat)
      ensures n == |rows|
    {
      |rows|
    }

    /** `__getitem__`: read the row at `index` (negative counts from the end), open its image with
        `openRgb`, transform it when a transform is set, and pair it with the row's class. */
    function GetItem(openRgb: string -> Option<I>, index: int): (r: Result<Sample<I, L>, Error>)
      ensures r == Err(IndexOutOfRange(index)) <==> !(-|rows| <= index < |rows|)
      ensures -|rows| <= index < |rows| ==> r == Materialize(rows[index % |rows|], openRgb, transform)
    {
      match Position(|rows|, index)
      case None => Err(IndexOutOfRange(index))
      case Some(p) => Materialize(rows[p], openRgb, transform)
    }

    /** Exactly the indices -Len()..Len()-1 address a row; every other index raises IndexError. */
    lemma IndexableBelowLen(openRgb: string -> Option<I>, index: int)
      ensures GetItem(openRgb, index) != Err(IndexOutOfRange(index)) <==> -(Len() as int) <= index < Len()
      ensures GetItem(openRgb, index).Ok? ==>
                index % Len() < Len() && GetItem(openRgb, index).value.classId == rows[index % Len()].classId
    {
    }
  }

  /** Indexed access and iteration agree: for a row i, `Dataset` over the same rows and
      transform returns, with the same decoder, the very sample the worker owning i yields for
      it, at position i - start of that worker's output, once the worker gets that far; and the
      raw row `IterableDataset.__getitem__` returns carries the same class. */
  lemma RandomAccessAgreesWithIteration<I, L>(rows: seq<Record<L>>, transform: Option<I -> Option<I>>,
                                              decode: string -> Option<I>, w: int, i: int)
    requires 1 <= w && 0 <= i < |rows|
    ensures var s := WorkerShard(|rows|, w, Owner(|rows|, w, i));
            var out := IterableDataset(rows, transform).Produce(decode, s.Indices());
            var p := i - s.start;
            0 <= p < |s.Indices()| && s.Indices()[p] == i &&
            (p < |out.items| ==>
               Dataset(rows, transform).GetItem(decode, i) == Ok(out.items[p]) &&
               out.items[p].classId == IterableDataset(rows, transform).GetItem(i).value.classId)
  {
    var ds, dm := IterableDataset(rows, transform), Dataset(rows, transform);
    var s := WorkerShard(|rows|, w, Owner(|rows|, w, i));
    RangeMembership(s.start, s.end, i);
    var p := i - s.start;
    assert 0 <= p < |s.Indices()| && s.Indices()[p] == i;
    ds.BlockItemsInOrder(decode, s);
    var out := ds.Produce(decode, s.Indices());
    if p < |out.items| {
      PositionOfNatural(|rows|, i);
      assert Materialize(rows[i], decode, transform) == Ok(out.items[p]);
      assert dm.GetItem(decode, i) == Materialize(rows[i], decode, transform);
      assert ds.GetItem(i) == Ok(rows[i]);
    }
  }
}
