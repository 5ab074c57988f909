/** Optional values: a request header or socket address that may be absent. */
module Wrappers {

  datatype Option<+T> = None | Some(value: T)

}
