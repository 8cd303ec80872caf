/** The slice of JavaScript's value semantics the client's logic depends on. */
module Js {
  import opened Wrappers

  /** Truthiness of a string-or-undefined value: `undefined`, `null` and the
      empty string are falsy, every other string is truthy. */
  predicate Truthy(v: Option<string>) {
    v.Some? && v.value != ""
  }

  /** The expression `v || fallback` for a string-or-undefined `v`. */
  function Or(v: Option<string>, fallback: string): (r: string)
    ensures Truthy(v) ==> r == v.value
    ensures r == fallback || v == Some(r)
    ensures fallback != "" ==> r != ""
  {
    if Truthy(v) then v.value else fallback
  }
}
