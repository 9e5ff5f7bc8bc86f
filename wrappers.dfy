/** The optional value used wherever the search tool may or may not have something:
    an OCR result that could not be produced, a shape without a text frame, a missing
    JSON field, an output path the caller did not give. */
module Wrappers {

  datatype Option<+T> = None | Some(value: T) {

    /** The value, or `default` when there is none (Python's `dict.get(key, default)`). */
    function GetOr(default: T): (r: T)
      ensures Some? ==> r == value
      ensures None? ==> r == default
    {
      match this
      case Some(v) => v
      case None => default
    }
  }
}
