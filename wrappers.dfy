/** The optional value used where the script raises an exception that is not
    caught and so ends the run. */
module Wrappers {
  datatype Option<+T> = None | Some(value: T)
}
