/** Optional values: `None` stands for JavaScript's `undefined`/`null`
    (a missing request field, a query that found no row). */
module Wrappers {
  datatype Option<+T> = None | Some(value: T)
}
