/** Optional values, used where the game's Go code reports "no value" through an error return. */
module Wrappers {
  datatype Option<+T> = None | Some(value: T)
}
