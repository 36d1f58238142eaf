/** Failure-carrying values shared by every module of the model.

    The Python parts of the system signal failure by raising; the model
    returns `Err(kind)` with the kind of exception Python would raise. */
module Common {

  /** The exception kinds the modelled code can raise. */
  datatype Error =
    | KeyError        // a missing dictionary key
    | IndexError      // indexing past the end of a list
    | ValueError      // a failed `int(...)` parse, `max` of an empty list, a bad `time(...)`,
                      // saving a form that does not validate
    | MultipleObjectsReturned  // a Django `get()` matching more than one row

  datatype Option<+T> = None | Some(value: T)

  datatype Result<+T> = Ok(value: T) | Err(error: Error)

  /** The list `[lo, lo + 1, ..., hi - 1]`, empty when `hi <= lo`. */
  function Range(lo: int, hi: int): (r: seq<int>)
    ensures |r| == if lo < hi then hi - lo else 0
    ensures forall i :: 0 <= i < |r| ==> r[i] == lo + i
    decreases hi - lo
  {
    if hi <= lo then [] else [lo] + Range(lo + 1, hi)
  }

  function Min(a: int, b: int): int { if a <= b then a else b }

  function Max(a: int, b: int): int { if a >= b then a else b }
}
