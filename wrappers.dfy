/** Optional values: Java's nullable references are modelled as Option. */
module Wrappers {

  datatype Option<+T> = None | Some(value: T)

}
