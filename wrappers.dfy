/** An optional value: the model's stand-in for a Java reference that may be null,
    and for a call of the source that does not return normally. */
module Wrappers {

  datatype Option<+T> = None | Some(value: T)

}
