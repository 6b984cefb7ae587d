/**
 * What Stage B guarantees about the text it writes for one sentence: the
 * segments cover the sentence exactly once and in order, every tag carries a
 * gloss the dictionary holds for the tagged text, and a sentence whose
 * claims come from Stage A never fails unless the citation rule pushed a
 * span into its neighbour.
 */
module EmitProperties {
  import opened Wrappers
  import opened Strings
  import opened Intervals
  import opened IntervalTrees
  import opened Dictionaries
  import opened Tagging
  import opened ClaimProperties

  lemma TextsCons(seg: Segment, rest: seq<Segment>)
    ensures Texts([seg] + rest) == seg.text + Texts(rest)
  {
    assert ([seg] + rest)[1..] == rest;
  }

  lemma RenderCons(seg: Segment, rest: seq<Segment>)
    ensures Render([seg] + rest) == seg.Rendered() + Render(rest)
  {
    assert ([seg] + rest)[1..] == rest;
  }

  /** A claimed span, extended or not by the citation rule, stays inside the sentence. */
  lemma SpanEndInside(s: string, n: int, lits: Literals)
    requires n <= |s|
    ensures n <= SpanEnd(s, n, lits) <= |s|
  {
  }

  /** The segments of a successful Stage B spell the sentence from `j` on, tags stripped. */
  lemma {:induction false} EmitTexts(s: string, c: set<Interval>, d: Dict, pick: Chooser, lits: Literals, j: nat)
    requires j <= |s|
    ensures Emit(s, c, d, pick, lits, j).Ok? ==> Texts(Emit(s, c, d, pick, lits, j).value) == s[j..]
    decreases |s| - j, 1
  {
    if j < |s| && Emit(s, c, d, pick, lits, j).Ok? {
      if NextFree(c, Interval(j, j)) == j {
        EmitTexts(s, c, d, pick, lits, j + 1);
        TextsCons(CharSegment(s[j], d, pick), Emit(s, c, d, pick, lits, j + 1).value);
        assert [s[j]] + s[j + 1..] == s[j..];
      } else {
        EmitSpanTexts(s, c, d, pick, lits, j);
      }
    }
  }

  /** The step of `EmitTexts` at the start `j` of a claimed span. */
  lemma {:induction false} EmitSpanTexts(s: string, c: set<Interval>, d: Dict, pick: Chooser, lits: Literals, j: nat)
    requires j < |s| && NextFree(c, Interval(j, j)) != j
    requires Emit(s, c, d, pick, lits, j).Ok?
    ensures Texts(Emit(s, c, d, pick, lits, j).value) == s[j..]
    decreases |s| - j, 0
  {
    var n := NextFree(c, Interval(j, j));
    NextFreeSpec(c, Interval(j, j));
    var next := SpanEnd(s, n, lits);
    SpanEndInside(s, n, lits);
    EmitTexts(s, c, d, pick, lits, next);
    TextsCons(SpanSegment(s, j, n, Get(d, s[j..n]), pick, lits), Emit(s, c, d, pick, lits, next).value);
    assert s[j..next] + s[next..] == s[j..];
  }

  /** Position `j` is not strictly inside a claimed interval. */
  ghost predicate AtBoundary(c: set<Interval>, j: int)
  {
    forall x :: x in c ==> !(x.start < j <= x.end)
  }

  /** No claimed interval is directly followed by a citation marker. */
  ghost predicate NoCitationAfter(s: string, c: set<Interval>, lits: Literals)
  {
    forall x :: x in c ==> !LawFollows(s, x.end + 1, lits)
  }

  /**
   * Stage B succeeds on disjoint claims of dictionary terms inside the
   * sentence when no claim is followed by a citation marker.
   */
  lemma {:induction false} EmitOk(s: string, c: set<Interval>, d: Dict, pick: Chooser, lits: Literals, j: nat)
    requires j <= |s|
    requires ClaimedIn(s, d, c, 1, |s|) && Disjoint(c)
    requires AtBoundary(c, j) && NoCitationAfter(s, c, lits)
    ensures Emit(s, c, d, pick, lits, j).Ok?
    decreases |s| - j
  {
    if j < |s| {
      var n := NextFree(c, Interval(j, j));
      if n == j {
        assert AtBoundary(c, j + 1) by {
          NextFreeSpec(c, Interval(j, j));
          forall x | x in c ensures !(x.start < j + 1 <= x.end) {
            assert !x.Overlaps(Interval(j, j));
          }
        }
        EmitOk(s, c, d, pick, lits, j + 1);
      } else {
        EmitSpanOk(s, c, d, pick, lits, j);
      }
    }
  }

  /** The step of `EmitOk` at the start `j` of a claimed interval. */
  lemma {:induction false} EmitSpanOk(s: string, c: set<Interval>, d: Dict, pick: Chooser, lits: Literals, j: nat)
    requires j < |s|
    requires ClaimedIn(s, d, c, 1, |s|) && Disjoint(c)
    requires AtBoundary(c, j) && NoCitationAfter(s, c, lits)
    requires NextFree(c, Interval(j, j)) != j
    ensures Emit(s, c, d, pick, lits, j).Ok?
    decreases |s| - j, 0
  {
    var n := NextFree(c, Interval(j, j));
    var x :| x in c && x.Overlaps(Interval(j, j)) && n == x.end + 1 by {
      NextFreeSpec(c, Interval(j, j));
    }
    assert x.start == j;
    assert n <= |s| && HasGlosses(Get(d, s[j..n])) && !LawFollows(s, n, lits);
    BoundaryAfter(c, x);
    EmitOk(s, c, d, pick, lits, n);
  }

  /** The position just after a claimed interval is at a boundary, the claims being disjoint. */
  lemma BoundaryAfter(c: set<Interval>, x: Interval)
    requires Disjoint(c) && x in c && x.start <= x.end
    ensures AtBoundary(c, x.end + 1)
  {
    forall y | y in c ensures !(y.start < x.end + 1 <= y.end) {
      if y != x {
        assert !y.Overlaps(x);
      }
    }
  }

  /** The glosses with the citation suffix `LAW_ENG` appended. */
  ghost function LawGlosses(g: set<string>): set<string>
  {
    set x | x in g :: x + LAW_ENG
  }

  /**
   * A tag carries a gloss of its own text, or — when the citation rule
   * extended the span by one character — a gloss of the text without that
   * character, suffixed `LAW_ENG`.
   */
  ghost predicate Justified(d: Dict, seg: Segment)
  {
    seg.Tagged? ==>
      seg.gloss in Get(d, seg.text) ||
      (|seg.text| > 0 && seg.gloss in LawGlosses(Get(d, seg.text[..|seg.text| - 1])))
  }

  /** Every tag Stage B writes is justified by the dictionary. */
  lemma {:induction false} EmitJustified(s: string, c: set<Interval>, d: Dict, pick: Chooser, lits: Literals, j: nat)
    requires IsChooser(pick)
    ensures Emit(s, c, d, pick, lits, j).Ok? ==>
      forall i :: 0 <= i < |Emit(s, c, d, pick, lits, j).value| ==> Justified(d, Emit(s, c, d, pick, lits, j).value[i])
    decreases |s| - j
  {
    var r := Emit(s, c, d, pick, lits, j);
    if j < |s| && r.Ok? {
      var n := NextFree(c, Interval(j, j));
      var seg, next;
      if n == j {
        seg, next := CharSegment(s[j], d, pick), j + 1;
        var g := Get(d, [s[j]]);
        if HasGlosses(g) {
          var x :| x in g;
          assert pick(g) in g;
        }
      } else {
        var g := Get(d, s[j..n]);
        seg, next := SpanSegment(s, j, n, g, pick, lits), SpanEnd(s, n, lits);
        var x :| x in g;
        assert pick(g) in g;
        if LawFollows(s, n, lits) {
          assert s[j..next][..|s[j..next]| - 1] == s[j..n];
          assert pick(g) + LAW_ENG in LawGlosses(g);
        }
      }
      assert Justified(d, seg);
      EmitJustified(s, c, d, pick, lits, next);
      assert r.value == [seg] + Emit(s, c, d, pick, lits, next).value;
    }
  }

  /** A tag around two or more characters does not carry the `IGNORE` sentinel. */
  ghost predicate NotIgnored(lits: Literals, seg: Segment)
  {
    seg.Tagged? && |seg.text| >= 2 ==> !HasSubstring(seg.gloss, lits.ignore)
  }

  /**
   * The `IGNORE` rule: no tag Stage B writes around two or more characters
   * carries a gloss holding the sentinel. Only a claimed span can be that
   * long, and a span whose gloss holds it is written raw.
   */
  lemma {:induction false} EmitNoIgnoredTags(s: string, c: set<Interval>, d: Dict, pick: Chooser, lits: Literals, j: nat)
    ensures Emit(s, c, d, pick, lits, j).Ok? ==>
      forall i :: 0 <= i < |Emit(s, c, d, pick, lits, j).value| ==> NotIgnored(lits, Emit(s, c, d, pick, lits, j).value[i])
    decreases |s| - j
  {
    var r := Emit(s, c, d, pick, lits, j);
    if j < |s| && r.Ok? {
      var n := NextFree(c, Interval(j, j));
      var seg, next;
      if n == j {
        seg, next := CharSegment(s[j], d, pick), j + 1;
      } else {
        seg, next := SpanSegment(s, j, n, Get(d, s[j..n]), pick, lits), SpanEnd(s, n, lits);
      }
      EmitNoIgnoredTags(s, c, d, pick, lits, next);
      assert r.value == [seg] + Emit(s, c, d, pick, lits, next).value;
    }
  }

  /**
   * The segment Stage B writes for a claimed interval `x` when it reaches its
   * start: the citation rule makes it end one character past `x`, with the
   * gloss suffixed `LAW_ENG`, exactly when a marker follows `x`; the span is
   * tagged exactly when that gloss does not hold `IGNORE`; Stage B then goes
   * on from the span's end.
   */
  lemma EmitClaimedSpan(s: string, c: set<Interval>, d: Dict, pick: Chooser, lits: Literals, x: Interval)
    requires Disjoint(c) && x in c && 0 <= x.start <= x.end < |s|
    requires Emit(s, c, d, pick, lits, x.start).Ok?
    ensures var law := LawFollows(s, x.end + 1, lits);
      var end := if law then x.end + 2 else x.end + 1;
      var first := pick(Get(d, s[x.start..x.end + 1]));
      var gloss := if law then first + LAW_ENG else first;
      var e := Emit(s, c, d, pick, lits, x.start).value;
      end <= |s| && e != [] && e[0].text == s[x.start..end] &&
      (e[0].Tagged? <==> !HasSubstring(gloss, lits.ignore)) &&
      (e[0].Tagged? ==> e[0].gloss == gloss) &&
      Emit(s, c, d, pick, lits, end).Ok? && e[1..] == Emit(s, c, d, pick, lits, end).value
  {
    ClaimStartSkips(c, x);
    var n := x.end + 1;
    assert n <= |s|;
    var next := SpanEnd(s, n, lits);
    var e := Emit(s, c, d, pick, lits, x.start);
    assert e == Then([SpanSegment(s, x.start, n, Get(d, s[x.start..n]), pick, lits)], Emit(s, c, d, pick, lits, next));
  }

  /** Among disjoint claims, `nextAvailable` at the start of a claim lands just past that claim. */
  lemma ClaimStartSkips(c: set<Interval>, x: Interval)
    requires Disjoint(c) && x in c && x.start <= x.end
    ensures NextFree(c, Interval(x.start, x.start)) == x.end + 1
  {
    var q := Interval(x.start, x.start);
    NextFreeSpec(c, q);
    assert x.Overlaps(q);
    var y :| y in c && y.Overlaps(q) && NextFree(c, q) == y.end + 1;
    if y != x {
      assert y.Overlaps(x);
      assert false;
    }
  }

  /** Stage B on a sentence with nothing claimed: one segment per character. */
  ghost function CharSegments(t: string, d: Dict, pick: Chooser): (segs: seq<Segment>)
    ensures |segs| == |t|
  {
    if t == [] then [] else [CharSegment(t[0], d, pick)] + CharSegments(t[1..], d, pick)
  }

  /** With nothing claimed, Stage B writes every character on its own. */
  lemma {:induction false} EmitUnclaimed(s: string, d: Dict, pick: Chooser, lits: Literals, j: nat)
    requires j <= |s|
    ensures Emit(s, {}, d, pick, lits, j) == Ok(CharSegments(s[j..], d, pick))
    decreases |s| - j
  {
    if j < |s| {
      NextFreeSpec({}, Interval(j, j));
      EmitUnclaimed(s, d, pick, lits, j + 1);
      assert s[j..][1..] == s[j + 1..];
    }
  }

  /** Characters without glosses are written unchanged. */
  lemma {:induction false} RenderUnglossed(t: string, d: Dict, pick: Chooser)
    requires forall ch :: !ContainsKey(d, [ch])
    ensures Render(CharSegments(t, d, pick)) == t
    decreases |t|
  {
    if t != [] {
      RenderUnglossed(t[1..], d, pick);
      RenderCons(CharSegment(t[0], d, pick), CharSegments(t[1..], d, pick));
      assert [t[0]] + t[1..] == t;
    }
  }

  /**
   * Stage A followed by Stage B succeeds on a sentence none of whose claimed
   * terms is followed by a citation marker.
   */
  lemma TagSentenceOk(s: string, d: Dict, pick: Chooser, lits: Literals, maxLen: int)
    requires maxLen >= 1
    requires NoCitationAfter(s, Claims(s, d, maxLen), lits)
    ensures TagSentence(s, d, pick, lits, maxLen).Ok?
    ensures Texts(TagSentence(s, d, pick, lits, maxLen).value) == s
  {
    var c := Claims(s, d, maxLen);
    ClaimsProps(s, d, maxLen);
    assert ClaimedIn(s, d, c, 1, |s|);
    EmitOk(s, c, d, pick, lits, 0);
    EmitTexts(s, c, d, pick, lits, 0);
  }
}
