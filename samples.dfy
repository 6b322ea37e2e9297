/** Turning one row of the table into a training sample: decode the image at the row's path,
    apply the dataset's transform if it has one, and pair the result with the row's class. */
module Samples {
  import opened Wrappers
  import opened Records

  /** What `(img, label)` holds once produced. */
  datatype Sample<I, L> = Sample(image: I, classId: L)

  /** The exceptions the two dataset classes let through to their callers. */
  datatype Error =
    | IndexOutOfRange(index: int)   // IndexError from `iloc`
    | DecodeFailed(path: string)    // the image file is missing, unreadable or not an image
    | TransformFailed(path: string) // the transform raised on the image decoded from `path`

  /** Decode `row.path` with `decode`, then apply `transform` when one is set (`if self.transform:`).
      The decoder and the transform are supplied from outside; `None` stands for a raised
      exception. */
  function Materialize<I, L>(row: Record<L>, decode: string -> Option<I>,
                             transform: Option<I -> Option<I>>): (r: Result<Sample<I, L>, Error>)
    ensures r.Ok? <==> decode(row.path).Some? &&
                       (transform.Some? ==> transform.value(decode(row.path).value).Some?)
    ensures r.Ok? ==> r.value.classId == row.classId
    ensures r.Ok? && transform.None? ==> r.value.image == decode(row.path).value
    ensures r.Ok? && transform.Some? ==> Some(r.value.image) == transform.value(decode(row.path).value)
    ensures r.Err? ==> r.error == if decode(row.path).None? then DecodeFailed(row.path)
                                  else TransformFailed(row.path)
  {
    match decode(row.path)
    case None => Err(DecodeFailed(row.path))
    case Some(img) =>
      match transform
      case None => Ok(Sample(img, row.classId))
      case Some(f) =>
        match f(img)
        case None => Err(TransformFailed(row.path))
        case Some(img') => Ok(Sample(img', row.classId))
  }
}
