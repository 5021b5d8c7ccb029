/** Field values of the inbound event payloads, as the JavaScript handlers see them. */
module Values {

  /** A payload field. `None` stands for a field that is missing (`undefined`), `null`,
      or, for an opaque payload, any other value JavaScript treats as falsy. */
  datatype Option<+T> = None | Some(value: T)

  /** JavaScript truthiness of a string-valued field: `undefined`, `null` and `""` are falsy;
      every other string, whitespace-only ones included, is truthy. */
  predicate Truthy(o: Option<string>)
  {
    o.Some? && o.value != ""
  }

  /** The expression `o || d` on a string-valued field. */
  function Or(o: Option<string>, d: string): (r: string)
    ensures Truthy(o) ==> r == o.value
    ensures !Truthy(o) ==> r == d
    ensures d != "" ==> Truthy(Some(r))
  {
    if Truthy(o) then o.value else d
  }
}
