/** An optional value: the model's stand-in for a nullable reference. */
module Wrappers {

  datatype Option<+T> = None | Some(value: T) {

    /** Applies `f` to the encapsulated value, if there is one. */
    function Map<U>(f: T -> U): Option<U> {
      match this
      case None => None
      case Some(v) => Some(f(v))
    }
  }
}
