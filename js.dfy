/**
 * JavaScript values as the repositories see them: optional properties,
 * numbers kept opaque apart from their truthiness, and the two mutable
 * objects a caller hands in (a `{ value }` box and an array that is pushed to).
 */
module Js {

  /** An optional property or a nullable column: `None` stands for `undefined` and for `null`. */
  datatype Option<+T> = None | Some(value: T)

  /** A JavaScript number; only whether it is truthy matters to the model. */
  datatype JsNumber = NaN | Number(value: real)

  /** `x ? … : …` on an optional bigint or number-valued identifier: `0`, `0n` and `undefined` are falsy. */
  predicate TruthyInt(x: Option<int>) {
    x.Some? && x.value != 0
  }

  /** `s ? … : …` on an optional string: `""` and `undefined` are falsy. */
  predicate TruthyText(s: Option<string>) {
    s.Some? && s.value != ""
  }

  /** `n ? … : …` on an optional number: `0`, `-0`, `NaN` and `undefined` are falsy. */
  predicate TruthyNumber(n: Option<JsNumber>) {
    n.Some? && n.value.Number? && n.value.value != 0.0
  }

  /** An object whose one property the callee overwrites, such as `id: { value: bigint }` or a record passed by reference. */
  class Ref<T> {
    var value: T

    constructor (v: T)
      ensures value == v
    {
      value := v;
    }
  }

  /** A JavaScript array the callee appends to with `push`. */
  class JsArray<T> {
    var elems: seq<T>

    constructor (init: seq<T>)
      ensures elems == init
    {
      elems := init;
    }

    method Push(x: T)
      modifies this
      ensures elems == old(elems) + [x]
    {
      elems := elems + [x];
    }
  }
}
