/**
 * The `Interval` interface with its default methods and its only implementation,
 * `IndexInterval`: an immutable (start, end) pair. The predicates treat both
 * endpoints as included, whatever the interface's doc comment says.
 */
module Intervals {

  /** An `IndexInterval`: the constructor stores both arguments unchecked. */
  datatype Interval = Interval(start: int, end: int) {

    /** `length()`: negative exactly when the constructor was given `start > end`. */
    function Length(): (r: int)
      ensures r >= 0 <==> start <= end
      ensures start + r == end
    {
      end - start
    }

    /** The point `k` lies in the closed range [start, end]. */
    predicate Includes(k: int)
    {
      start <= k <= end
    }

    /** `isAdjacent(other)`: one interval begins right after the other ends. */
    predicate IsAdjacent(other: Interval)
    {
      start == other.end + 1 || end + 1 == other.start
    }

    /** `overlaps(o)`, written as in the source with its two identical disjuncts. */
    function Overlaps(o: Interval): (r: bool)
      ensures r <==> start <= o.end && o.start <= end
    {
      (start <= o.end && end >= o.start) || (end >= o.start && start <= o.end)
    }

    /** `compareTo(o)`: lexicographic on (start, end), answering -1, 0 or 1. */
    function CompareTo(o: Interval): (r: int)
      ensures -1 <= r <= 1
      ensures r == 0 <==> this == o
      ensures r < 0 <==> start < o.start || (start == o.start && end < o.end)
    {
      if start > o.start then 1
      else if start < o.start then -1
      else if end > o.end then 1
      else if end < o.end then -1
      else 0
    }
  }

  /** The constructor does no validation: a reversed pair is kept as given and has a negative length. */
  lemma UncheckedConstruction(start: int, end: int)
    requires end < start
    ensures Interval(start, end).start == start && Interval(start, end).end == end
    ensures Interval(start, end).Length() < 0
  {
  }

  /**
   * Overlap of well-formed closed intervals is exactly having a point in common.
   * (A reversed interval such as [3,1] contains no point yet overlaps [0,5].)
   */
  lemma OverlapsIffSharedPoint(a: Interval, b: Interval)
    requires a.start <= a.end && b.start <= b.end
    ensures a.Overlaps(b) <==> exists k :: a.Includes(k) && b.Includes(k)
  {
    if a.Overlaps(b) {
      var k := if a.start < b.start then b.start else a.start;
      assert a.Includes(k) && b.Includes(k);
    }
  }

  /** Intervals that touch at a single endpoint overlap: [0,4] and [4,6]. */
  lemma TouchingEndpointsOverlap()
    ensures Interval(0, 4).Overlaps(Interval(4, 6))
    ensures !Interval(0, 4).Overlaps(Interval(5, 6))
  {
  }

  lemma OverlapsSymmetric(a: Interval, b: Interval)
    ensures a.Overlaps(b) == b.Overlaps(a)
  {
  }

  lemma OverlapsReflexive(a: Interval)
    requires a.start <= a.end
    ensures a.Overlaps(a)
  {
  }

  lemma AdjacentSymmetric(a: Interval, b: Interval)
    ensures a.IsAdjacent(b) == b.IsAdjacent(a)
  {
  }

  /** Adjacent well-formed intervals share no point. */
  lemma AdjacentNeverOverlap(a: Interval, b: Interval)
    requires a.start <= a.end && b.start <= b.end
    requires a.IsAdjacent(b)
    ensures !a.Overlaps(b)
  {
  }

  /** `compareTo` is antisymmetric: swapping the operands flips the sign. */
  lemma CompareAntisymmetric(a: Interval, b: Interval)
    ensures a.CompareTo(b) == -b.CompareTo(a)
  {
  }

  /** `compareTo` is transitive, so together with antisymmetry it is a total order. */
  lemma CompareTransitive(a: Interval, b: Interval, c: Interval)
    requires a.CompareTo(b) <= 0 && b.CompareTo(c) <= 0
    ensures a.CompareTo(c) <= 0
    ensures a.CompareTo(b) < 0 || b.CompareTo(c) < 0 ==> a.CompareTo(c) < 0
  {
  }
}
