/** Optional values: used for a selection that the draws never complete and for the
    comparee of the last group, which the page leaves undefined. */
module Wrappers {
  datatype Option<+T> = None | Some(value: T)
}
