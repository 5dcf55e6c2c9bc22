/** Optional values, used for "no result" answers (a rejection that did not
    happen, a directory that cannot be listed). */
module Wrappers {

  datatype Option<+T> = None | Some(value: T)
}
