/** Optional values: `None` stands for JavaScript's `undefined` (a query that yielded no value). */
module Wrappers {
  datatype Option<+T> = None | Some(value: T)
}
