/** Optional values: `None` stands for JavaScript's `undefined` / a thrown exception. */
module Wrappers {
  datatype Option<+T> = None | Some(value: T)
}
