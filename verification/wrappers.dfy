/** The optional-value type shared by the decoders and matchers of this model. */
module Wrappers {

  /** A value that may be absent: a failed match or a malformed encoding is None. */
  datatype Option<+T> = None | Some(value: T)
}
