/** Optional values: a pandas cell that may be NaT/NaN is modelled as an Option. */
module Wrappers {

  datatype Option<+T> = None | Some(value: T)
}
