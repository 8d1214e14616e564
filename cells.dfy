/** Optional values, used for the readers that invert the emitter's encodings. */
module Wrappers {
  datatype Option<+T> = None | Some(value: T)
}

/** The values a table cell can hold once the CSV has been read. */
module Cells {
  /** One cell of a table.
      `Null` is a missing value (pandas NaN or None); `Num` is a floating-point
      value, carried as the text Python's `str()` gives for it, because
      floating-point formatting is not part of this model. */
  datatype Cell =
    | Null
    | Str(s: string)
    | Int(i: int)
    | Bool(b: bool)
    | Num(text: string)
}
