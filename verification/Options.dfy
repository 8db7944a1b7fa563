/** A value that may be missing, as Python's `None` and `dict.get` make it. */
module Options {
  datatype Option<+T> = None | Some(value: T)

  /** Python truthiness of an optional string: present and not empty. */
  predicate Truthy(s: Option<string>) {
    s.Some? && s.value != ""
  }

  /** `a or b` on optional strings. */
  function Or(a: Option<string>, b: Option<string>): Option<string> {
    if Truthy(a) then a else b
  }
}
