/** Small wrapper datatypes shared by the gateway and the table services. */
module Wrappers {

  /** An optional value: a JSON key that may be missing, a query parameter that may be omitted. */
  datatype Option<+T> = None | Some(value: T) {
    function GetOr(default: T): T {
      match this
      case Some(v) => v
      case None => default
    }
  }

  /** A field of a partial-update payload: either left out of the request or set to a value.
      This is what a Pydantic model dumped with `exclude_unset=True` distinguishes. */
  datatype Patch<+T> = Unset | Set(value: T) {
    function Or(current: T): T {
      match this
      case Set(v) => v
      case Unset => current
    }
  }
}
