/** Failure-compatible helper types shared by every module of the model. */
module Wrappers {

  /** Kotlin's nullable values: `None` is `null`. */
  datatype Option<+T> = None | Some(value: T) {

    /** `this ?: default` */
    function GetOr(default: T): T {
      match this
      case Some(v) => v
      case None => default
    }
  }

  /** What a content-provider query hands back: the rows of its cursor, or an
      exception (a revoked permission, a provider crash). A null cursor is the
      same as an empty row sequence. */
  datatype Snapshot<+T> = Available(rows: seq<T>) | Unavailable
}
