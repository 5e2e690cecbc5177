/** Values shared by both scripts: optional cells and IEEE-style floats with NaN. */
module Numbers {

  /** A cell that may be absent. */
  datatype Option<+T> = None | Some(value: T)

  /** A float read from a table: a finite value, or NaN (pandas' marker for an empty cell). */
  datatype Float = Finite(x: real) | NaN

  /** Python's `a <= b` on floats: every comparison involving NaN is false. */
  predicate Le(a: Float, b: Float)
  {
    a.Finite? && b.Finite? && a.x <= b.x
  }

  /** Python's chained comparison `lo <= x <= hi` once all three operands are known. */
  predicate Within(lo: Float, x: Float, hi: Float)
  {
    Le(lo, x) && Le(x, hi)
  }
}
