/** The optional value used wherever the system returns "nothing found"
    (Python `None`, a C++ null pointer, a (-1,-1) sentinel or a missing map entry). */
module Wrappers {
  datatype Option<T> = None | Some(value: T) {
    predicate IsSome() { this.Some? }

    function GetOr(default: T): (r: T)
      ensures this.Some? ==> r == this.value
      ensures this.None? ==> r == default
    {
      match this
      case Some(v) => v
      case None => default
    }
  }
}
