/** Optional values: `None` stands for JavaScript's `null` (or `false`) where the
    source returns "a value or nothing". */
module Wrappers {

  datatype Option<+T> = None | Some(value: T)

}
