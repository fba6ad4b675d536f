/** Optional values: JavaScript's `undefined`/`NaN`/"no match" outcomes. */
module Wrappers {
  datatype Option<+T> = None | Some(value: T)
}
