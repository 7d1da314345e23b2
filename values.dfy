/**
 JavaScript values as the graph construction sees them: an attribute that holds a
 number or is `undefined`, and a running maximum that starts at `-Infinity`.
 */
module Values {

  /** `None` stands for JavaScript's `undefined`. */
  datatype Option<+T> = None | Some(value: T)

  /** A JavaScript number that is either `-Infinity` or finite. */
  datatype Extended = NegInfinity | Finite(value: real)

  /** JavaScript's `x > m` for a finite number `x`. */
  predicate Greater(x: real, m: Extended)
  {
    m.NegInfinity? || x > m.value
  }

  /** `m` is a finite number no smaller than `x`. */
  predicate Bounds(m: Extended, x: real)
  {
    m.Finite? && x <= m.value
  }
}
