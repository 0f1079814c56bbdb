/** The optional value used for the quick pick's answer, a fetch that may fail
    and a request that may not be issued. */
module Wrappers {

  datatype Option<+T> = None | Some(value: T)
}
