/** Optional values, standing for Python's `None` and for a lookup that found nothing. */
module Wrappers {

  datatype Option<+T> = None | Some(value: T)
}
