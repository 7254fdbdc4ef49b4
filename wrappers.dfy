/** Optional values, standing for the source's `std::optional`, its invalid
    model indices and its "dialog was cancelled" returns. */
module Wrappers {

  datatype Option<+T> = None | Some(value: T)
}
