/** Python's `Optional[...]` as a datatype. */
module Options {
  datatype Option<+T> = None | Some(value: T)

  /** Python truthiness of an optional string: `None` and `""` are both false. */
  predicate Truthy(o: Option<string>) {
    o.Some? && o.value != ""
  }

  /** `str(x) if x else None`: how every optional column is read back from a row. */
  function ReadBack(o: Option<string>): Option<string> {
    if Truthy(o) then o else None
  }
}
