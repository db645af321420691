/**
 * The 1-based line window both text caches answer: `get_lines_range(start, end)` clips
 * `end` to one past the last line and returns lines `start` up to `end - 1`, with the
 * `usize` arithmetic saturating rather than failing.
 */
module LineRange {
  import opened Numeric

  /**
   * A terminal colour. Colours are opaque here: only `White`, which the assembly view
   * paints every line with, is singled out.
   */
  datatype Color = White | OtherColor(name: string)

  /** One highlighted line: coloured spans of text. */
  type HighlightLine = seq<(Color, string)>

  /**
   * `lines.iter().skip(start - 1).take(end' - start)` with `end' = min(len + 1, end)`,
   * together with `start` and `end'`: the start as given, the end clipped to one past the
   * last line, and for a start of at least 1 exactly lines `start .. end' - 1` (1-based),
   * none when the window is empty or begins past the last line.
   */
  function LinesRange<T>(xs: seq<T>, start: usize, end: usize): (r: (seq<T>, usize, usize))
    requires |xs| < USIZE_MAX
    ensures r.1 == start && r.2 == Min(|xs| + 1, end)
    ensures start >= 1 ==> |r.0| == Max(0, r.2 - start)
    ensures start >= 1 ==> forall k | 0 <= k < |r.0| :: r.0[k] == xs[start - 1 + k]
    ensures |r.0| <= SatSub(r.2, start) && r.0 <= xs[Min(SatSub(start, 1), |xs|)..]
  {
    var n := SatAdd(|xs|, 1);
    var e := Min(n, end);
    var skip := Min(SatSub(start, 1), |xs|);
    var take := Min(SatSub(e, start), |xs| - skip);
    (xs[skip..skip + take], start, e)
  }

  /** A start of 0 reads like a start of 1 but yields one more line when that line exists. */
  lemma StartZero<T>(xs: seq<T>, end: usize)
    requires |xs| < USIZE_MAX && 1 <= end <= |xs|
    ensures LinesRange(xs, 0, end).0 == LinesRange(xs, 1, end).0 + [xs[end - 1]]
  {
  }

  /** With 61 lines, the window (4, 36) is lines 4..35 and is returned as (4, 36). */
  lemma SixtyOneLinesMiddle<T>(xs: seq<T>)
    requires |xs| == 61
    ensures LinesRange(xs, 4, 36) == (xs[3..35], 4, 36)
  {
  }

  /** With 61 lines, the window (50, 65) is clipped: lines 50..61, returned as (50, 62). */
  lemma SixtyOneLinesEnd<T>(xs: seq<T>)
    requires |xs| == 61
    ensures LinesRange(xs, 50, 65) == (xs[49..61], 50, 62)
  {
  }
}
