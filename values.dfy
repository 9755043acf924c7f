/** JavaScript values as the monument service sees them: fields that may be
    undefined, numbers that may be NaN, and TypeErrors thrown while mapping. */
module Values {

  /** A value that may be `undefined` (or `null`) in the JavaScript source. */
  datatype Option<+T> = None | Some(value: T)

  /** The outcome of an expression that may throw (a TypeError, here). */
  datatype Result<+T> = Ok(value: T) | Thrown

  /** A JavaScript number. Reals stand for the doubles; infinities are not modelled. */
  datatype Num = Finite(value: real) | NaN

  /** JavaScript `a <= b` on numbers: false as soon as either side is NaN. */
  predicate LessEq(a: Num, b: Num)
  {
    a.Finite? && b.Finite? && a.value <= b.value
  }

  /** JavaScript truthiness of an optional string: undefined and "" are falsy. */
  predicate TruthyText(s: Option<string>)
  {
    s.Some? && s.value != ""
  }

  /** JavaScript truthiness of an optional integer: undefined (and NaN) and 0 are falsy. */
  predicate TruthyInt(n: Option<int>)
  {
    n.Some? && n.value != 0
  }
}
