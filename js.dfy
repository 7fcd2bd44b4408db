/** The few JavaScript value rules the controllers, the middleware and the
    list component depend on: a value that may be `undefined`/`null`, and
    which strings JavaScript treats as falsy. */
module Js {

  /** `None` stands for `undefined` or `null`; `Some(v)` for a present value. */
  datatype Option<+T> = None | Some(value: T)

  /** A request field, a header or an environment variable: absent or a string. */
  type Text = Option<string>

  /** JavaScript truthiness of an optional string: `undefined`, `null` and the
      empty string are falsy, every other string is truthy. */
  predicate Truthy(t: Text)
  {
    t.Some? && t.value != ""
  }

  /** `t || fallback` for an optional string. */
  function Or(t: Text, fallback: string): (r: string)
    ensures Truthy(t) ==> r == t.value
    ensures !Truthy(t) ==> r == fallback
    ensures r != "" <==> Truthy(t) || fallback != ""
  {
    if Truthy(t) then t.value else fallback
  }
}
