/** Shared value types: bytes, optional values, results and the archive error enum. */
module Common {

  /** One byte of archive data. */
  newtype byte = x: int | 0 <= x < 256

  type Bytes = seq<byte>

  /** Swift's `Optional`. */
  datatype Option<+T> = None | Some(value: T) {
    /** Swift's `??` operator. */
    function GetOr(default: T): T {
      if Some? then value else default
    }
  }

  /** A Swift `throws` outcome: a value or the error that was thrown. */
  datatype Result<+T, +E> = Ok(value: T) | Err(error: E)

  /** The errors the archive layer raises (Sources/CHMKit/CHMError.swift). */
  datatype ChmError =
    | OpenFailed(path: string)
    | ExtractionFailed(path: string)
    | EntryNotFound(path: string)
    | TocParseFailed
    | InvalidData

  /**
   * The two text decoders Foundation offers the viewer, `String(data:encoding:)`
   * with `.utf8` and with `.windowsCP1252`. Each may fail (None); what they
   * decode to is not modelled, only whether and in which order they are tried.
   */
  datatype TextCodec = TextCodec(utf8: Bytes -> Option<string>, cp1252: Bytes -> Option<string>)

  /** `first(where:)`: the index of the first element satisfying `p`. */
  function FirstIndex<T>(xs: seq<T>, p: T -> bool): (r: Option<nat>)
    ensures r.Some? ==> r.value < |xs| && p(xs[r.value]) && forall j :: 0 <= j < r.value ==> !p(xs[j])
    ensures r.None? ==> forall j :: 0 <= j < |xs| ==> !p(xs[j])
    decreases |xs|
  {
    if xs == [] then None
    else if p(xs[0]) then Some(0)
    else
      match FirstIndex(xs[1..], p)
      case None => None
      case Some(k) => Some(k + 1)
  }
}
