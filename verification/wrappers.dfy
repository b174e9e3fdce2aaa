/** Optional values: a missing dictionary key, a regex search without a match,
    or a model call that raised instead of answering. */
module Wrappers {

  datatype Option<+T> = None | Some(value: T)
}
