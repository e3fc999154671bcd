/** JavaScript values that the routes and components inspect. */
module Js {

  /** `undefined` (None) or a present value. */
  datatype Option<+T> = None | Some(value: T)

  /** Truthiness of an optional string: `undefined` (None) and "" are falsy. */
  predicate Falsy(v: Option<string>)
  {
    v.None? || v.value == ""
  }

  /** A destructuring default, `const { x = d } = obj`, applied when `x` is undefined. */
  function OrDefault(v: Option<string>, d: string): string
  {
    if v.Some? then v.value else d
  }
}
