/**
 * The contract of `IntervalTree`, the ordered collection of claimed character
 * ranges the tagger builds for each sentence. Only what the callers and the
 * unit test rely on is modelled: the stored set of intervals and the answers
 * to `insert`, `contains`, `overlaps` and `nextAvailable`.
 */
module IntervalTrees {
  import opened Intervals

  /** Every stored interval has start <= end. */
  ghost predicate WellFormed(s: set<Interval>)
  {
    forall x :: x in s ==> x.start <= x.end
  }

  /** No two different stored intervals share a point. */
  ghost predicate Disjoint(s: set<Interval>)
  {
    forall x, y :: x in s && y in s && x != y ==> !x.Overlaps(y)
  }

  /** Some stored interval overlaps the query. */
  predicate OverlapsAny(s: set<Interval>, q: Interval)
  {
    exists x :: x in s && x.Overlaps(q)
  }

  /** The stored intervals that overlap `q`. */
  ghost function Overlappers(s: set<Interval>, q: Interval): set<Interval>
  {
    set x | x in s && x.Overlaps(q)
  }

  /** `m` is the largest end among the intervals of `s`, or `floor` when none ends later. */
  ghost predicate IsMaxEnd(s: set<Interval>, floor: int, m: int)
  {
    floor <= m && (forall x :: x in s ==> x.end <= m) && (m == floor || exists x :: x in s && x.end == m)
  }

  /** The largest end among the intervals of `s`, or `floor` when none ends later. */
  ghost function MaxEnd(s: set<Interval>, floor: int): (m: int)
    ensures floor <= m
    decreases |s|
  {
    if s == {} then floor
    else
      var x :| x in s;
      MaxEnd(s - {x}, if x.end > floor then x.end else floor)
  }

  lemma {:induction false} MaxEndIsMax(s: set<Interval>, floor: int)
    ensures IsMaxEnd(s, floor, MaxEnd(s, floor))
    decreases |s|
  {
    if s != {} {
      var x :| x in s && MaxEnd(s, floor) == MaxEnd(s - {x}, if x.end > floor then x.end else floor);
      var f := if x.end > floor then x.end else floor;
      MaxEndIsMax(s - {x}, f);
      var m := MaxEnd(s, floor);
      forall y | y in s ensures y.end <= m {
        if y != x {
          assert y in s - {x};
        }
      }
      if m != f {
        var y :| y in s - {x} && y.end == m;
        assert y in s;
      }
    }
  }

  /** Visiting one more interval: the largest end so far grows to its end when that is later. */
  lemma MaxEndStep(s: set<Interval>, floor: int, m: int, x: Interval)
    requires IsMaxEnd(s, floor, m)
    ensures IsMaxEnd(s + {x}, floor, if x.end > m then x.end else m)
  {
    var m' := if x.end > m then x.end else m;
    if m' != floor && m' == m {
      var y :| y in s && y.end == m;
      assert y in s + {x};
    }
  }

  /** The overlappers of one more interval. */
  lemma OverlappersAdd(s: set<Interval>, q: Interval, x: Interval)
    ensures Overlappers(s + {x}, q) == Overlappers(s, q) + (if x.Overlaps(q) then {x} else {})
  {
  }

  /** One step of the scan of `nextAvailable`: visiting `x` keeps the largest end among the overlappers seen. */
  lemma ScanStep(seen: set<Interval>, q: Interval, m: int, x: Interval)
    requires IsMaxEnd(Overlappers(seen, q), q.start - 1, m)
    ensures IsMaxEnd(Overlappers(seen + {x}, q), q.start - 1, if x.Overlaps(q) && x.end > m then x.end else m)
  {
    OverlappersAdd(seen, q, x);
    if x.Overlaps(q) {
      MaxEndStep(Overlappers(seen, q), q.start - 1, m, x);
    }
  }

  /** The largest end is the only value with the properties of a largest end. */
  lemma MaxEndUnique(s: set<Interval>, floor: int, m: int)
    requires IsMaxEnd(s, floor, m)
    ensures m == MaxEnd(s, floor)
  {
    var m' := MaxEnd(s, floor);
    MaxEndIsMax(s, floor);
    if m != floor {
      var x :| x in s && x.end == m;
      assert m <= m';
    }
    if m' != floor {
      var x :| x in s && x.end == m';
      assert m' <= m;
    }
  }

  /**
   * The answer of `nextAvailable(q)`: `q.start` when no stored interval
   * overlaps `q`, otherwise one past the largest end among those that do.
   * What the answer means is stated by `NextFreeSpec`.
   */
  ghost function NextFree(s: set<Interval>, q: Interval): (n: int)
    ensures q.start <= n
  {
    MaxEnd(Overlappers(s, q), q.start - 1) + 1
  }

  /**
   * `nextAvailable` hands back the query's own start exactly when nothing
   * overlaps the query; otherwise it hands back the first position after the
   * overlapping interval that ends last.
   */
  lemma NextFreeSpec(s: set<Interval>, q: Interval)
    ensures NextFree(s, q) == q.start <==> !OverlapsAny(s, q)
    ensures OverlapsAny(s, q) ==> exists x :: x in s && x.Overlaps(q) && NextFree(s, q) == x.end + 1
    ensures forall x :: x in s && x.Overlaps(q) ==> x.end < NextFree(s, q)
  {
    var o := Overlappers(s, q);
    MaxEndIsMax(o, q.start - 1);
    if OverlapsAny(s, q) {
      var x :| x in s && x.Overlaps(q);
      assert x in o;
    }
  }

  class IntervalTree {
    /** The intervals inserted so far. */
    var intervals: set<Interval>

    ghost predicate Valid()
      reads this
    {
      WellFormed(intervals) && Disjoint(intervals)
    }

    constructor()
      ensures Valid() && intervals == {}
    {
      intervals := {};
    }

    /** `insert`: the caller guarantees the new interval overlaps nothing stored. */
    method Insert(iv: Interval)
      requires Valid()
      requires iv.start <= iv.end && !OverlapsAny(intervals, iv)
      modifies this
      ensures Valid()
      ensures intervals == old(intervals) + {iv}
    {
      intervals := intervals + {iv};
    }

    /** `contains`: exact membership, by the comparator's notion of equality. */
    method Contains(q: Interval) returns (b: bool)
      ensures b <==> exists x :: x in intervals && x.CompareTo(q) == 0
    {
      b := q in intervals;
    }

    /**
     * `overlaps`: some stored interval reaches the query by the endpoint comparison;
     * for a well-formed query that is the same as sharing a point with it.
     */
    method Overlaps(q: Interval) returns (b: bool)
      requires Valid()
      ensures b <==> exists x :: x in intervals && x.start <= q.end && q.start <= x.end
      ensures q.start <= q.end ==> (b <==> exists x, k :: x in intervals && x.Includes(k) && q.Includes(k))
    {
      b := OverlapsAny(intervals, q);
      if q.start > q.end {
      } else if b {
        var x :| x in intervals && x.Overlaps(q);
        OverlapsIffSharedPoint(x, q);
      } else {
        forall x, k | x in intervals && x.Includes(k) && q.Includes(k) ensures false {
          OverlapsIffSharedPoint(x, q);
        }
      }
    }

    /** `nextAvailable`: visits every stored interval, keeping the largest end among those overlapping `q`. */
    method NextAvailable(q: Interval) returns (n: int)
      ensures n == NextFree(intervals, q)
    {
      var m := q.start - 1;
      var rest := intervals;
      ghost var seen: set<Interval> := {};
      while rest != {}
        invariant seen + rest == intervals
        invariant IsMaxEnd(Overlappers(seen, q), q.start - 1, m)
        decreases |rest|
      {
        var x :| x in rest;
        ScanStep(seen, q, m, x);
        m := if x.Overlaps(q) && x.end > m then x.end else m;
        seen := seen + {x};
        rest := rest - {x};
      }
      assert seen == intervals;
      MaxEndUnique(Overlappers(intervals, q), q.start - 1, m);
      n := m + 1;
    }
  }
}
