/** Small failure-aware wrappers shared by the ingestion and query models. */
module Wrappers {

  /** A value that may be absent: a missing dictionary key, a `None`. */
  datatype Option<+T> = None | Some(value: T) {
    /** The value, or `default` when absent (Python's `d.get(k, default)`). */
    function GetOr(default: T): T {
      match this
      case Some(v) => v
      case None => default
    }
  }

  /** What an external collaborator call returned: a value, or an exception. */
  datatype Outcome<+T> = Failed | Ok(value: T)
}
