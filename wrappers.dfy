/** Optional values: `None` stands for a value that is absent (a request field
    that was not sent, a string that does not parse, a key that matches no row). */
module Wrappers {

  datatype Option<+T> = None | Some(value: T)
}
