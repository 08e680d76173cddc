/** Values that several handlers of the page share: an optional value (a
    storage entry or an element that may be absent) and the text a boolean
    becomes when it is written to an attribute or to storage. */
module Dom {

  datatype Option<T> = None | Some(value: T)

  /** `setAttribute(name, b)` and `localStorage.setItem(key, b)` both store the
      string conversion of a JavaScript boolean. */
  function BoolText(b: bool): string
  {
    if b then "true" else "false"
  }
}
