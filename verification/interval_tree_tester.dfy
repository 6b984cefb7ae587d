/**
 * The unit test of the interval tree: the fixture inserts five disjoint
 * intervals and the test queries `contains` and `nextAvailable`.
 */
module IntervalTreeTester {
  import opened Intervals
  import opened IntervalTrees

  /** The intervals the fixture inserts. */
  function Fixture(): set<Interval>
  {
    {Interval(0, 4), Interval(5, 7), Interval(10, 12), Interval(18, 20), Interval(15, 17)}
  }

  /** `setUp`: five successive inserts into a fresh tree. */
  method SetUp() returns (it: IntervalTree)
    ensures fresh(it) && it.Valid()
    ensures it.intervals == Fixture()
  {
    it := new IntervalTree();
    it.Insert(Interval(0, 4));
    it.Insert(Interval(5, 7));
    it.Insert(Interval(10, 12));
    it.Insert(Interval(18, 20));
    it.Insert(Interval(15, 17));
  }

  /** `testQuery`: the answers the five assertions of the test expect. */
  method TestQuery() returns (hasExact: bool, hasWide: bool, next56: int, next812: int, next46: int)
    ensures hasExact && !hasWide
    ensures next56 == 8 && next812 == 13 && next46 == 8
  {
    var it := SetUp();
    FixtureAnswers();
    hasExact := it.Contains(Interval(10, 12));
    hasWide := it.Contains(Interval(0, 12));
    next56 := it.NextAvailable(Interval(5, 6));
    next812 := it.NextAvailable(Interval(8, 12));
    next46 := it.NextAvailable(Interval(4, 6));
  }

  /** Which fixture intervals each query of the test overlaps, and the answers that follow. */
  lemma FixtureAnswers()
    ensures NextFree(Fixture(), Interval(5, 6)) == 8
    ensures NextFree(Fixture(), Interval(8, 12)) == 13
    ensures NextFree(Fixture(), Interval(4, 6)) == 8
  {
    FixtureNext56();
    FixtureNext812();
    FixtureNext46();
  }

  /** [5,6] overlaps [5,7] alone. */
  lemma FixtureNext56()
    ensures NextFree(Fixture(), Interval(5, 6)) == 8
  {
    NextFreeSpec(Fixture(), Interval(5, 6));
    assert forall x :: x in Fixture() && x.Overlaps(Interval(5, 6)) ==> x == Interval(5, 7);
    assert Interval(5, 7).Overlaps(Interval(5, 6));
  }

  /** [8,12] overlaps [10,12] alone. */
  lemma FixtureNext812()
    ensures NextFree(Fixture(), Interval(8, 12)) == 13
  {
    NextFreeSpec(Fixture(), Interval(8, 12));
    assert forall x :: x in Fixture() && x.Overlaps(Interval(8, 12)) ==> x == Interval(10, 12);
    assert Interval(10, 12).Overlaps(Interval(8, 12));
  }

  /** [4,6] overlaps [0,4] and [5,7], and the later end wins. */
  lemma FixtureNext46()
    ensures NextFree(Fixture(), Interval(4, 6)) == 8
  {
    NextFreeSpec(Fixture(), Interval(4, 6));
    assert forall x :: x in Fixture() && x.Overlaps(Interval(4, 6)) ==> x == Interval(0, 4) || x == Interval(5, 7);
    assert Interval(5, 7).Overlaps(Interval(4, 6));
  }

  /**
   * `nextAvailable` skips only the intervals overlapping the query: the index
   * it returns for [8,12] starts a window [13,17] that still overlaps [15,17].
   */
  lemma NextAvailableNeedNotBeFree()
    ensures NextFree(Fixture(), Interval(8, 12)) == 13 && OverlapsAny(Fixture(), Interval(13, 17))
  {
    FixtureAnswers();
    assert Interval(15, 17) in Fixture() && Interval(15, 17).Overlaps(Interval(13, 17));
  }
}
