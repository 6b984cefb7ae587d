/**
 * What Stage A guarantees about the intervals it claims in a sentence:
 * every claimed range lies in the sentence and spells a dictionary key, no
 * two claimed ranges overlap, and the claiming is longest first — a key
 * window of any tried width that was not claimed overlaps a claim at least
 * as wide.
 */
module ClaimProperties {
  import opened Intervals
  import opened IntervalTrees
  import opened Dictionaries
  import opened Tagging

  /** The number of characters an interval covers. */
  function Width(x: Interval): int
  {
    x.end - x.start + 1
  }

  /** The narrowest width Stage A claims when its widest window is `maxLen`. */
  function MinWidth(maxLen: int): int
  {
    if maxLen >= 2 then 2 else maxLen
  }

  /**
   * Every interval of `c` lies inside `s`, is between `lo` and `hi`
   * characters wide, and spells a term of the dictionary.
   */
  ghost predicate ClaimedIn(s: string, d: Dict, c: set<Interval>, lo: int, hi: int)
  {
    forall x :: x in c ==>
      0 <= x.start <= x.end < |s| && lo <= Width(x) <= hi && ContainsKey(d, s[x.start..x.end + 1])
  }

  /** The window of width `L` at `j` lies in `s` and spells a term of the dictionary. */
  ghost predicate KeyWindow(s: string, d: Dict, j: int, L: int)
  {
    0 <= j && 0 <= L && j + L <= |s| && ContainsKey(d, s[j..j + L])
  }

  /** Some interval of `c`, at least `L` wide, overlaps the window of width `L` at `j`. */
  ghost predicate Blocked(c: set<Interval>, j: int, L: int)
  {
    exists x :: x in c && Width(x) >= L && x.Overlaps(Window(j, L))
  }

  /** Every key window of width `L` starting before `upto` is blocked by `c`. */
  ghost predicate Covered(s: string, d: Dict, c: set<Interval>, L: int, upto: int)
  {
    forall j :: 0 <= j < upto && KeyWindow(s, d, j, L) ==> Blocked(c, j, L)
  }

  /** Every key window of every width from `lo` to `hi` is blocked by `c`. */
  ghost predicate AllCovered(s: string, d: Dict, c: set<Interval>, lo: int, hi: int)
  {
    forall L :: lo <= L <= hi ==> Covered(s, d, c, L, |s|)
  }

  lemma CoveredMono(s: string, d: Dict, c: set<Interval>, c': set<Interval>, L: int, upto: int)
    requires c <= c' && Covered(s, d, c, L, upto)
    ensures Covered(s, d, c', L, upto)
  {
    forall j | 0 <= j < upto && KeyWindow(s, d, j, L) ensures Blocked(c', j, L) {
      var x :| x in c && Width(x) >= L && x.Overlaps(Window(j, L));
      assert x in c';
    }
  }

  /**
   * When `nextAvailable` moves the scan of width `w` from `j` to `n`, every
   * window of width `w` starting in between is blocked.
   */
  lemma SkipBlocked(c: set<Interval>, w: int, j: int)
    requires forall x :: x in c ==> Width(x) >= w
    ensures forall j' :: j <= j' < NextFree(c, Window(j, w)) ==> Blocked(c, j', w)
  {
    var n := NextFree(c, Window(j, w));
    NextFreeSpec(c, Window(j, w));
    if n != j {
      var x :| x in c && x.Overlaps(Window(j, w)) && n == x.end + 1;
      forall j' | j <= j' < n ensures Blocked(c, j', w) {
        assert x.Overlaps(Window(j', w));
      }
    }
  }

  /** A new interval that overlaps nothing in a disjoint set keeps the set disjoint. */
  lemma DisjointAdd(c: set<Interval>, iv: Interval)
    requires Disjoint(c) && !OverlapsAny(c, iv)
    ensures Disjoint(c + {iv})
  {
    forall x, y | x in c + {iv} && y in c + {iv} && x != y ensures !x.Overlaps(y) {
      if x == iv {
        OverlapsSymmetric(x, y);
      }
    }
  }

  /** The first pass: its claims are key windows of width `w`, disjoint, and cover every key window of width `w`. */
  lemma {:induction false} FirstPassProps(s: string, d: Dict, w: int, c: set<Interval>, j: nat)
    requires w >= 1
    requires ClaimedIn(s, d, c, w, w) && Disjoint(c)
    requires forall x :: x in c ==> x.end < j
    requires Covered(s, d, c, w, j)
    ensures c <= FirstPass(s, d, w, c, j)
    ensures ClaimedIn(s, d, FirstPass(s, d, w, c, j), w, w)
    ensures Disjoint(FirstPass(s, d, w, c, j))
    ensures Covered(s, d, FirstPass(s, d, w, c, j), w, |s|)
    decreases |s| - j
  {
    if j >= |s| || j + w - 1 >= |s| {
      forall j' | 0 <= j' < |s| && KeyWindow(s, d, j', w) ensures Blocked(c, j', w) {
      }
    } else if ContainsKey(d, s[j..j + w]) {
      var iv := Window(j, w);
      var c' := c + {iv};
      assert !OverlapsAny(c, iv);
      DisjointAdd(c, iv);
      CoveredMono(s, d, c, c', w, j);
      forall j' | 0 <= j' < j + w && KeyWindow(s, d, j', w) ensures Blocked(c', j', w) {
        if j' >= j {
          assert iv.Overlaps(Window(j', w));
        }
      }
      FirstPassProps(s, d, w, c', j + w);
    } else {
      FirstPassProps(s, d, w, c, j + 1);
    }
  }

  /** The end of the pass from `c` that reached `r`: `r` extends `c` soundly, disjointly, and covers width `w`. */
  ghost predicate PassDone(s: string, d: Dict, w: int, c: set<Interval>, r: set<Interval>, hi: int)
  {
    c <= r && ClaimedIn(s, d, r, w, hi) && Disjoint(r) && Covered(s, d, r, w, |s|)
  }

  lemma PassDoneTrans(s: string, d: Dict, w: int, c: set<Interval>, c': set<Interval>, r: set<Interval>, hi: int)
    requires c <= c' && PassDone(s, d, w, c', r, hi)
    ensures PassDone(s, d, w, c, r, hi)
  {
  }

  /** A later pass of width `w`: the same, given earlier claims at least `w` wide. */
  lemma {:induction false} PassProps(s: string, d: Dict, w: int, c: set<Interval>, j: int, hi: int)
    requires 1 <= w <= hi && j >= 0
    requires ClaimedIn(s, d, c, w, hi) && Disjoint(c)
    requires Covered(s, d, c, w, j)
    ensures PassDone(s, d, w, c, Pass(s, d, w, c, j), hi)
    decreases |s| - j, 1
  {
    if j >= |s| || j + w - 1 >= |s| {
      PassEnd(s, d, w, c, j);
    } else {
      if NextFree(c, Window(j, w)) != j {
        PassSkip(s, d, w, c, j, hi);
      } else if ContainsKey(d, s[j..j + w]) {
        assert !OverlapsAny(c, Window(j, w)) by {
          NextFreeSpec(c, Window(j, w));
        }
        PassClaim(s, d, w, c, j, hi);
      } else {
        PassProps(s, d, w, c, j + 1, hi);
      }
    }
  }

  /** No window of width `w` starts at or after `j`, so covering up to `j` covers the sentence. */
  lemma PassEnd(s: string, d: Dict, w: int, c: set<Interval>, j: int)
    requires w >= 1 && j + w - 1 >= |s|
    requires Covered(s, d, c, w, j)
    ensures Covered(s, d, c, w, |s|)
  {
    forall j' | 0 <= j' < |s| && KeyWindow(s, d, j', w) ensures Blocked(c, j', w) {
    }
  }

  /** The step of a later pass that skips the claimed ranges overlapping the window at `j`. */
  lemma {:induction false} PassSkip(s: string, d: Dict, w: int, c: set<Interval>, j: int, hi: int)
    requires 1 <= w <= hi && 0 <= j && j + w - 1 < |s|
    requires ClaimedIn(s, d, c, w, hi) && Disjoint(c)
    requires Covered(s, d, c, w, j)
    requires NextFree(c, Window(j, w)) != j
    ensures PassDone(s, d, w, c, Pass(s, d, w, c, NextFree(c, Window(j, w))), hi)
    decreases |s| - j, 0
  {
    var n := NextFree(c, Window(j, w));
    NextFreeSpec(c, Window(j, w));
    assert Covered(s, d, c, w, n) by {
      SkipBlocked(c, w, j);
    }
    PassProps(s, d, w, c, n, hi);
  }

  /** The step of a later pass that claims the free key window at `j`. */
  lemma {:induction false} PassClaim(s: string, d: Dict, w: int, c: set<Interval>, j: int, hi: int)
    requires 1 <= w <= hi && 0 <= j && j + w - 1 < |s|
    requires ClaimedIn(s, d, c, w, hi) && Disjoint(c)
    requires Covered(s, d, c, w, j)
    requires !OverlapsAny(c, Window(j, w)) && ContainsKey(d, s[j..j + w])
    ensures PassDone(s, d, w, c, Pass(s, d, w, c + {Window(j, w)}, j + w), hi)
    decreases |s| - j, 0
  {
    var c' := c + {Window(j, w)};
    ClaimInside(s, d, w, c, j, hi);
    DisjointAdd(c, Window(j, w));
    ClaimCovers(s, d, w, c, j);
    PassProps(s, d, w, c', j + w, hi);
    PassDoneTrans(s, d, w, c, c', Pass(s, d, w, c', j + w), hi);
  }

  /** Claiming a key window of width `w` inside the sentence keeps every claim a key inside it. */
  lemma ClaimInside(s: string, d: Dict, w: int, c: set<Interval>, j: int, hi: int)
    requires 1 <= w <= hi && 0 <= j && j + w - 1 < |s|
    requires ClaimedIn(s, d, c, w, hi) && ContainsKey(d, s[j..j + w])
    ensures ClaimedIn(s, d, c + {Window(j, w)}, w, hi)
  {
  }

  /** After claiming the window at `j`, every key window starting before its end is blocked. */
  lemma ClaimCovers(s: string, d: Dict, w: int, c: set<Interval>, j: int)
    requires 1 <= w && 0 <= j
    requires Covered(s, d, c, w, j)
    ensures Covered(s, d, c + {Window(j, w)}, w, j + w)
  {
    var iv := Window(j, w);
    var c' := c + {iv};
    CoveredMono(s, d, c, c', w, j);
    forall j' | 0 <= j' < j + w && KeyWindow(s, d, j', w) ensures Blocked(c', j', w) {
      if j' >= j {
        assert iv.Overlaps(Window(j', w));
      }
    }
  }

  /** The passes of widths `w` down to 2 keep the claims sound and disjoint, and cover each width. */
  lemma {:induction false} ShorterPassesProps(s: string, d: Dict, w: int, c: set<Interval>, hi: int)
    requires 0 <= w < hi
    requires ClaimedIn(s, d, c, w + 1, hi) && Disjoint(c) && AllCovered(s, d, c, w + 1, hi)
    ensures ClaimedIn(s, d, ShorterPasses(s, d, w, c), MinWidth(w + 1), hi)
    ensures Disjoint(ShorterPasses(s, d, w, c))
    ensures AllCovered(s, d, ShorterPasses(s, d, w, c), MinWidth(w + 1), hi)
    decreases w
  {
    if w > 1 {
      var n := NextFree(c, Window(0, w));
      SkipBlocked(c, w, 0);
      assert Covered(s, d, c, w, n);
      var c' := Pass(s, d, w, c, n);
      PassProps(s, d, w, c, n, hi);
      assert PassDone(s, d, w, c, c', hi);
      forall L | w <= L <= hi ensures Covered(s, d, c', L, |s|) {
        if L > w {
          CoveredMono(s, d, c, c', L, |s|);
        }
      }
      ShorterPassesProps(s, d, w - 1, c', hi);
    }
  }

  /**
   * Stage A on a sentence: every claimed range lies in the sentence, spells a
   * dictionary term and is between `MinWidth(maxLen)` and `maxLen` wide; no
   * two claimed ranges overlap; and every key window of a tried width
   * overlaps a claim at least as wide.
   */
  lemma ClaimsProps(s: string, d: Dict, maxLen: int)
    requires maxLen >= 1
    ensures ClaimedIn(s, d, Claims(s, d, maxLen), MinWidth(maxLen), maxLen)
    ensures WellFormed(Claims(s, d, maxLen)) && Disjoint(Claims(s, d, maxLen))
    ensures AllCovered(s, d, Claims(s, d, maxLen), MinWidth(maxLen), maxLen)
  {
    FirstPassProps(s, d, maxLen, {}, 0);
    ShorterPassesProps(s, d, maxLen - 1, FirstPass(s, d, maxLen, {}, 0), maxLen);
  }

  /** A dictionary whose terms are all narrower than the narrowest tried width yields no claims. */
  lemma NoClaimsWithoutLongTerms(s: string, d: Dict, maxLen: int)
    requires maxLen >= 1
    requires forall k :: ContainsKey(d, k) ==> |k| < MinWidth(maxLen)
    ensures Claims(s, d, maxLen) == {}
  {
    ClaimsProps(s, d, maxLen);
    var r := Claims(s, d, maxLen);
    assert forall x :: x in r ==> |s[x.start..x.end + 1]| >= MinWidth(maxLen);
  }
}
