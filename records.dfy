/** The record table both dataset classes hold: one row per image, addressed by position. */
module Records {
  import opened Wrappers

  /** One row of the table: the image's file path (column "image_path") and its class
      (column "class"). The label type is left open. */
  datatype Record<L> = Record(path: string, classId: L)

  /** A row of the table as handed to a constructor, still carrying the table's own index label. */
  datatype FrameRow<L> = FrameRow(key: int, record: Record<L>)

  /** `reset_index(drop=True)`: the index labels are dropped and the rows keep their order, so
      that thereafter a row is known by its position 0..N-1 alone. */
  function ResetIndex<L>(frame: seq<FrameRow<L>>): (rows: seq<Record<L>>)
    ensures |rows| == |frame|
    ensures forall k :: 0 <= k < |rows| ==> rows[k] == frame[k].record
  {
    if frame == [] then [] else [frame[0].record] + ResetIndex(frame[1..])
  }

  /** The position `iloc[index]` reads in a table of `n` rows: a negative index counts from the
      end, and anything outside -n..n-1 raises IndexError (None here). */
  function Position(n: nat, index: int): (p: Option<nat>)
    ensures p.Some? <==> -(n as int) <= index < n
    ensures p.Some? ==> p.value < n && p.value == index % n
  {
    if 0 <= index < n then Some(index)
    else if -(n as int) <= index < 0 then Some(n + index)
    else None
  }

  /** A non-negative index below n reads the row at that very position. */
  lemma PositionOfNatural(n: nat, index: int)
    requires 0 <= index < n
    ensures index % n == index
  {
  }
}
