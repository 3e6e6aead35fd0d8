/** Values shared by the Python and JavaScript halves of the model: an absent
    value (Python's `None`, JavaScript's `undefined`/`null`) and a Python call
    that either returns or raises. */
module Values {

  /** A value that may be absent. */
  datatype Option<T> = None | Some(value: T)

  /** The outcome of a Python call: it returns a value, or it raises an
      exception whose `str(e)` is `message`. */
  datatype Raises<T> = Returned(value: T) | Raised(message: string)

  /** A string is truthy, in Python and in JavaScript alike, when it is present
      and non-empty. */
  predicate Truthy(v: Option<string>) {
    v.Some? && v.value != ""
  }

  /** `v or fallback` in Python, `v || fallback` in JavaScript, for a string
      that may be absent. */
  function OrElse(v: Option<string>, fallback: string): string {
    if Truthy(v) then v.value else fallback
  }

  /** `v or ''`: an absent string reads as the empty one. */
  function OrEmpty(v: Option<string>): string {
    OrElse(v, "")
  }
}
