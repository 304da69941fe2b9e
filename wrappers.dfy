/** Optional values, for the foreign lookups whose failure the bot tolerates. */
module Wrappers {
  datatype Option<T> = None | Some(value: T)
}
