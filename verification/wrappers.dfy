/** The optional value used wherever the assist's code returns an `Option`. */
module Wrappers {

  /** `None` is the "no suggestion" / "not found" outcome; `Some` carries the value. */
  datatype Option<T> = None | Some(value: T)
}
