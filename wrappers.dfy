/** Optional values: JavaScript's `null` / `NaN` / "absent" results. */
module Wrappers {
  datatype Option<+T> = None | Some(value: T)
}
