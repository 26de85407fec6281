/** Optional values: a TypeScript property that may be absent (`x?: T`, `T | undefined`). */
module Wrappers {

  datatype Option<+T> = None | Some(value: T) {

    /** The value, or `default` when absent (what a `{ ...old, ...patch }` spread keeps). */
    function GetOr(default: T): T {
      match this
      case Some(v) => v
      case None => default
    }
  }
}
