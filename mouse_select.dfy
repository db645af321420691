/**
 * A mouse selection: the cell where the drag started and the cell where it ended, each a
 * `(column, row)` pair of `u16`, compared as tuples.
 */
module MouseSelection {
  type u16 = x: int | 0 <= x < 0x1_0000

  type Cell = (u16, u16)

  datatype MouseSelect = MouseSelect(start: Cell, end: Cell)

  /** Tuple order: by the first coordinate, then by the second. */
  predicate Less(a: Cell, b: Cell)
  {
    a.0 < b.0 || (a.0 == b.0 && a.1 < b.1)
  }

  predicate LessEq(a: Cell, b: Cell)
  {
    Less(a, b) || a == b
  }

  /**
   * `MouseSelect::legalization`: the same two cells, the earlier one first; a selection
   * already in order comes back as it is.
   */
  function Legalization(m: MouseSelect): (r: MouseSelect)
    ensures LessEq(r.start, r.end)
    ensures r == m || r == MouseSelect(m.end, m.start)
    ensures LessEq(m.start, m.end) ==> r == m
  {
    if Less(m.start, m.end) then MouseSelect(m.start, m.end) else MouseSelect(m.end, m.start)
  }

  /** Tuple order is total: of two different cells, one is before the other. */
  lemma LessTotal(a: Cell, b: Cell)
    ensures a == b || Less(a, b) || Less(b, a)
    ensures !(Less(a, b) && Less(b, a))
  {
  }

  /** Legalizing twice is legalizing once. */
  lemma LegalizationIdempotent(m: MouseSelect)
    ensures Legalization(Legalization(m)) == Legalization(m)
  {
  }

  /** A selection and its reverse legalize to the same thing: the drag direction is forgotten. */
  lemma LegalizationForgetsDirection(m: MouseSelect)
    ensures Legalization(MouseSelect(m.end, m.start)) == Legalization(m)
  {
    LessTotal(m.start, m.end);
  }
}
