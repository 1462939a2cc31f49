/** Failure-compatible option type used where the clock algebra returns nil
    for an input shape it does not handle. */
module Wrappers {

  datatype Option<+T> = None | Some(value: T)

}
