/** Optional values: an absent child of a syntax node, a lookup miss. */
module Wrappers {

  datatype Option<+T> = None | Some(value: T)
}
