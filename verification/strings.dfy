/** String helpers standing for the `java.lang.String` operations the source relies on. */
module Strings {

  /** `s.indexOf(c)` for a character known to occur in `s`. */
  function IndexOf(s: string, c: char): (i: nat)
    requires c in s
    ensures i < |s| && s[i] == c && c !in s[..i]
  {
    if s[0] == c then 0 else 1 + IndexOf(s[1..], c)
  }

  /** `s.contains(t)`: `t` occurs in `s` as a contiguous substring. */
  predicate HasSubstring(s: string, t: string)
  {
    t <= s || (|s| > 0 && HasSubstring(s[1..], t))
  }

  /** An occurrence one position further into `s` is an occurrence in its tail. */
  lemma OccursShift(s: string, t: string, i: int)
    requires |s| > 0 && 0 <= i
    ensures OccursAt(s, t, i + 1) <==> OccursAt(s[1..], t, i)
  {
    if i + 1 + |t| <= |s| {
      assert s[1..][i..i + |t|] == s[i + 1..i + 1 + |t|];
    }
  }

  /** `HasSubstring` agrees with the positional definition of an occurrence. */
  lemma {:induction false} HasSubstringIffOccurs(s: string, t: string)
    ensures HasSubstring(s, t) <==> exists i :: 0 <= i <= |s| - |t| && OccursAt(s, t, i)
  {
    if t <= s {
      assert OccursAt(s, t, 0);
    } else if |s| > 0 {
      HasSubstringIffOccurs(s[1..], t);
      if HasSubstring(s[1..], t) {
        var i :| 0 <= i <= |s[1..]| - |t| && OccursAt(s[1..], t, i);
        OccursShift(s, t, i);
      } else {
        forall i | 0 <= i <= |s| - |t| ensures !OccursAt(s, t, i) {
          if i > 0 {
            OccursShift(s, t, i - 1);
          }
        }
      }
    }
  }

  /** `t` occurs in `s` starting at index `i`. */
  ghost predicate OccursAt(s: string, t: string, i: int)
  {
    0 <= i && i + |t| <= |s| && s[i..i + |t|] == t
  }

  /** `s.replace(String.valueOf(c), r)`: every occurrence of `c` replaced by `r`. */
  function Replace(s: string, c: char, r: string): (res: string)
    ensures c !in r ==> c !in res
    ensures c !in s ==> res == s
    ensures |r| == 1 ==> |res| == |s| && forall i :: 0 <= i < |s| ==> res[i] == (if s[i] == c then r[0] else s[i])
  {
    if s == [] then []
    else
      var rest := Replace(s[1..], c, r);
      var res := (if s[0] == c then r else [s[0]]) + rest;
      assert |r| == 1 ==> forall i :: 1 <= i < |s| ==> res[i] == rest[i - 1] && s[i] == s[1..][i - 1];
      res
  }

  /** What `s.replace` writes for one character of `s`. */
  function ReplacedChar(ch: char, c: char, r: string): string
  {
    if ch == c then r else [ch]
  }

  /**
   * Replacing is writing, for each character of `s` in order, `r` where the
   * character is `c` and the character itself otherwise.
   */
  lemma {:induction false} ReplacePieces(s: string, c: char, r: string)
    ensures Replace(s, c, r) == Concat(seq(|s|, i requires 0 <= i < |s| => ReplacedChar(s[i], c, r)))
    decreases |s|
  {
    var pieces := seq(|s|, i requires 0 <= i < |s| => ReplacedChar(s[i], c, r));
    if s != [] {
      ReplacePieces(s[1..], c, r);
      assert pieces[1..] == seq(|s[1..]|, i requires 0 <= i < |s[1..]| => ReplacedChar(s[1..][i], c, r));
    } else {
      assert pieces == [];
    }
  }

  /** A text holding `c` exactly once between `a` and `b` has that one `c` replaced by `r`. */
  lemma {:induction false} ReplaceAround(a: string, b: string, c: char, r: string)
    requires c !in a && c !in b
    ensures Replace(a + [c] + b, c, r) == a + r + b
    decreases |a|
  {
    if a == [] {
      assert (a + [c] + b)[1..] == b;
    } else {
      ReplaceAround(a[1..], b, c, r);
      assert (a + [c] + b)[1..] == a[1..] + [c] + b;
    }
  }

  /** The pieces of `ss` written one after the other. */
  function Concat(ss: seq<string>): string
  {
    if ss == [] then [] else ss[0] + Concat(ss[1..])
  }

  lemma {:induction false} ConcatAppend(a: seq<string>, b: seq<string>)
    ensures Concat(a + b) == Concat(a) + Concat(b)
  {
    if a == [] {
      assert a + b == b;
    } else {
      assert (a + b)[1..] == a[1..] + b;
      ConcatAppend(a[1..], b);
    }
  }

  /** The pieces of `ss` with the character `sep` written between consecutive pieces. */
  function Join(ss: seq<string>, sep: char): string
  {
    if ss == [] then []
    else if |ss| == 1 then ss[0]
    else ss[0] + [sep] + Join(ss[1..], sep)
  }

  /** The `"<%s>%s</%s>"` tag format, with the gloss on both markers. */
  function Tag(gloss: string, text: string): (r: string)
    ensures |r| == 2 * |gloss| + |text| + 5
    ensures r[1..1 + |gloss|] == gloss
  {
    "<" + gloss + ">" + text + "</" + gloss + ">"
  }

  /** Different glosses on the same text give different tags. */
  lemma TagInjective(g1: string, g2: string, text: string)
    requires Tag(g1, text) == Tag(g2, text)
    ensures g1 == g2
  {
    assert |g1| == |g2|;
    assert g1 == Tag(g1, text)[1..1 + |g1|];
  }
}
