/** Optional values: `None` stands for JavaScript's `undefined`/`null`
    results and for reads that throw, depending on where it is used. */
module Wrappers {

  datatype Option<+T> = None | Some(value: T)
}
