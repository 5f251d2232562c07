/** Option and Result, the two wrappers used for absent JSON fields and for
    the exceptions the downloader raises. */
module Wrappers {

  datatype Option<+T> = None | Some(value: T) {
    /** `d.get(k, default)` for a field that may be absent */
    function GetOr(default: T): T {
      match this
      case Some(v) => v
      case None => default
    }
  }

  datatype Result<+R, +E> = Success(value: R) | Failure(error: E)
}
