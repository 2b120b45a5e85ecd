/** Optional values, used for fields that persisted or edited data may lack. */
module Wrappers {

  datatype Option<+T> = None | Some(value: T)
}
