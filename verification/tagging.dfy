/**
 * The annotation algorithm of `docTagger.annotate` and `docTagger.process`,
 * as functions of the sentence, the dictionary and the literals.
 *
 * Stage A claims dictionary terms longest first: one pass per window width,
 * from the widest down to 2, each recording its matches in the sentence's
 * interval tree. Stage B walks the sentence left to right and writes every
 * character once, either raw or inside a `<gloss>text</gloss>` tag.
 */
module Tagging {
  import opened Wrappers
  import opened Strings
  import opened Intervals
  import opened IntervalTrees
  import opened Dictionaries

  /** `LAW_LNG`: the length of the two citation markers. */
  const LAW_LNG := 2
  /** `INIT_WL`: the widest window `annotate` tries. */
  const INIT_WL := 12
  /** `LAW_ENG`: the suffix put on the gloss of a span extended by the citation rule. */
  const LAW_ENG := "-law"

  /**
   * The string constants of the tagger: the sentence terminator, the two
   * citation markers `LAW_CHN` and `LAW_CHN_Q`, and the suppression sentinel
   * `IGNORE`.
   */
  datatype Literals = Literals(terminator: char, lawChn: string, lawChnQ: string, ignore: string)

  /** One piece of output: a stretch of the sentence written raw or inside a tag. */
  datatype Segment = Raw(text: string) | Tagged(gloss: string, text: string) {
    function Rendered(): string
    {
      match this
      case Raw(t) => t
      case Tagged(g, t) => Tag(g, t)
    }
  }

  /** The output text of a run of segments. */
  function Render(segs: seq<Segment>): string
  {
    if segs == [] then [] else segs[0].Rendered() + Render(segs[1..])
  }

  /** The sentence text a run of segments covers, tags stripped. */
  function Texts(segs: seq<Segment>): string
  {
    if segs == [] then [] else segs[0].text + Texts(segs[1..])
  }

  lemma {:induction false} RenderAppend(a: seq<Segment>, b: seq<Segment>)
    ensures Render(a + b) == Render(a) + Render(b)
  {
    if a != [] {
      assert (a + b)[1..] == a[1..] + b;
      RenderAppend(a[1..], b);
    } else {
      assert a + b == b;
    }
  }

  lemma RenderSnoc(a: seq<Segment>, seg: Segment)
    ensures Render(a + [seg]) == Render(a) + seg.Rendered()
  {
    RenderAppend(a, [seg]);
    assert [seg][1..] == [];
  }

  lemma {:induction false} TextsAppend(a: seq<Segment>, b: seq<Segment>)
    ensures Texts(a + b) == Texts(a) + Texts(b)
  {
    if a != [] {
      assert (a + b)[1..] == a[1..] + b;
      TextsAppend(a[1..], b);
    } else {
      assert a + b == b;
    }
  }

  /** The segments `done` followed by the outcome `r` of the rest of the work. */
  function Then(done: seq<Segment>, r: Result<seq<Segment>>): Result<seq<Segment>>
  {
    match r
    case Ok(rest) => Ok(done + rest)
    case Err(e) => Err(e)
  }

  lemma ThenNothing(r: Result<seq<Segment>>)
    ensures Then([], r) == r
  {
    if r.Ok? {
      assert [] + r.value == r.value;
    }
  }

  lemma ThenThen(a: seq<Segment>, b: seq<Segment>, r: Result<seq<Segment>>)
    ensures Then(a, Then(b, r)) == Then(a + b, r)
  {
    if r.Ok? {
      assert a + (b + r.value) == (a + b) + r.value;
    }
  }

  /** A result of segments rendered to text. */
  function RenderResult(r: Result<seq<Segment>>): Result<string>
  {
    match r
    case Ok(segs) => Ok(Render(segs))
    case Err(e) => Err(e)
  }

  // ----- Stage A: claiming windows -----

  /** `new IndexInterval(j, j + w - 1)`: the window of width `w` at `j`. */
  function Window(j: int, w: int): Interval
  {
    Interval(j, j + w - 1)
  }

  /**
   * The first pass, width `w`: every window that is a dictionary key is
   * claimed and the scan resumes after it. It consults no tree.
   */
  ghost function FirstPass(s: string, d: Dict, w: int, c: set<Interval>, j: nat): set<Interval>
    requires w >= 1
    decreases |s| - j
  {
    if j >= |s| || j + w - 1 >= |s| then c
    else if ContainsKey(d, s[j..j + w]) then FirstPass(s, d, w, c + {Window(j, w)}, j + w)
    else FirstPass(s, d, w, c, j + 1)
  }

  /**
   * A later pass, width `w`: a window that overlaps a claimed interval makes
   * the scan jump to `nextAvailable`; a free window that is a key is claimed.
   */
  ghost function Pass(s: string, d: Dict, w: int, c: set<Interval>, j: int): set<Interval>
    requires w >= 1 && j >= 0
    decreases |s| - j
  {
    if j >= |s| || j + w - 1 >= |s| then c
    else
      var n := NextFree(c, Window(j, w));
      if n != j then Pass(s, d, w, c, n)
      else if ContainsKey(d, s[j..j + w]) then Pass(s, d, w, c + {Window(j, w)}, j + w)
      else Pass(s, d, w, c, j + 1)
  }

  /** The passes of widths `w`, `w - 1`, ..., 2, each starting at `nextAvailable([0, w - 1])`. */
  ghost function ShorterPasses(s: string, d: Dict, w: int, c: set<Interval>): set<Interval>
    decreases w
  {
    if w <= 1 then c
    else ShorterPasses(s, d, w - 1, Pass(s, d, w, c, NextFree(c, Window(0, w))))
  }

  /** The intervals Stage A claims in sentence `s` with widest window `maxLen`. */
  ghost function Claims(s: string, d: Dict, maxLen: int): set<Interval>
    requires maxLen >= 1
  {
    ShorterPasses(s, d, maxLen - 1, FirstPass(s, d, maxLen, {}, 0))
  }

  // ----- Stage B: emission -----

  /**
   * The citation rule's test at the end `n` of a claimed span: the two
   * characters there spell `LAW_CHN` or `LAW_CHN_Q`, and more text follows them.
   */
  predicate LawFollows(s: string, n: int, lits: Literals)
  {
    0 <= n && n + LAW_LNG < |s| &&
    (s[n..n + LAW_LNG] == lits.lawChn || s[n..n + LAW_LNG] == lits.lawChnQ)
  }

  /** The segment written for an unclaimed character: tagged with its first gloss when it has one, raw otherwise. */
  function CharSegment(ch: char, d: Dict, pick: Chooser): Segment
  {
    var glosses := Get(d, [ch]);
    if HasGlosses(glosses) then Tagged(pick(glosses), [ch]) else Raw([ch])
  }

  /** Where a claimed span `[j, n)` really ends: one further when the citation rule fires. */
  ghost function SpanEnd(s: string, n: int, lits: Literals): int
  {
    if LawFollows(s, n, lits) then n + 1 else n
  }

  /**
   * The segment written for a claimed span `[j, n)` with glosses `glosses`:
   * the first gloss, suffixed `LAW_ENG` when the citation rule fires, around
   * the span's text, or the text alone when that gloss holds `IGNORE`.
   */
  ghost function SpanSegment(s: string, j: nat, n: int, glosses: set<string>, pick: Chooser, lits: Literals): Segment
    requires j <= n <= |s|
  {
    var next := SpanEnd(s, n, lits);
    var gloss := if LawFollows(s, n, lits) then pick(glosses) + LAW_ENG else pick(glosses);
    if HasSubstring(gloss, lits.ignore) then Raw(s[j..next]) else Tagged(gloss, s[j..next])
  }

  /**
   * The segments Stage B writes from position `j` on, given the claimed
   * intervals `c`. An unclaimed character is tagged with a gloss of its own
   * when it has one; a claimed span is tagged with a gloss of the span, after
   * the citation rule and unless the gloss holds the `IGNORE` sentinel. A
   * claimed span without glosses (`toArray()[0]` of an empty array) or ending
   * past the sentence (`substring`) throws.
   */
  ghost function Emit(s: string, c: set<Interval>, d: Dict, pick: Chooser, lits: Literals, j: nat): Result<seq<Segment>>
    decreases |s| - j
  {
    if j >= |s| then Ok([])
    else
      var n := NextFree(c, Interval(j, j));
      if n == j then
        Then([CharSegment(s[j], d, pick)], Emit(s, c, d, pick, lits, j + 1))
      else if n > |s| then
        Err(StringIndexOutOfBounds)
      else
        var glosses := Get(d, s[j..n]);
        if !HasGlosses(glosses) then
          Err(ArrayIndexOutOfBounds)
        else
          Then([SpanSegment(s, j, n, glosses, pick, lits)], Emit(s, c, d, pick, lits, SpanEnd(s, n, lits)))
  }

  /** Stage A followed by Stage B on one sentence. */
  ghost function TagSentence(s: string, d: Dict, pick: Chooser, lits: Literals, maxLen: int): Result<seq<Segment>>
    requires maxLen >= 1
  {
    Emit(s, Claims(s, d, maxLen), d, pick, lits, 0)
  }

  // ----- Sentences -----

  /**
   * `content.split("(?<=" + terminator + ")")`: the text cut after every
   * terminator, each terminator staying at the end of its sentence. The
   * empty piece a final terminator would leave is dropped, and an empty
   * text is one empty sentence.
   */
  function SplitAfter(s: string, t: char): seq<string>
    decreases |s|
  {
    if t !in s then [s]
    else
      var i := IndexOf(s, t);
      if i + 1 == |s| then [s] else [s[..i + 1]] + SplitAfter(s[i + 1..], t)
  }

  /** The pieces of `s` between terminators, terminators removed, trailing empty pieces kept. */
  function Pieces(s: string, t: char): seq<string>
    decreases |s|
  {
    if t !in s then [s]
    else
      var i := IndexOf(s, t);
      [s[..i]] + Pieces(s[i + 1..], t)
  }

  /** The pieces without their trailing empty ones. */
  function DropTrailingEmpty(p: seq<string>): seq<string>
  {
    if p != [] && p[|p| - 1] == [] then DropTrailingEmpty(p[..|p| - 1]) else p
  }

  /**
   * `content.split(terminator)`: the pieces between terminators with the
   * trailing empty ones dropped; a text without a terminator is one piece.
   */
  function SplitOn(s: string, t: char): seq<string>
  {
    if t in s then DropTrailingEmpty(Pieces(s, t)) else [s]
  }

  /** `annotate`: the segments of every sentence, one after the other; the first failing sentence fails it. */
  ghost function AnnotateSegments(sentences: seq<string>, d: Dict, pick: Chooser, lits: Literals): Result<seq<Segment>>
  {
    if sentences == [] then Ok([])
    else
      match TagSentence(sentences[0], d, pick, lits, INIT_WL)
      case Err(e) => Err(e)
      case Ok(first) => Then(first, AnnotateSegments(sentences[1..], d, pick, lits))
  }

  /** The output of `annotate(content)`. */
  ghost function AnnotateSpec(content: string, d: Dict, pick: Chooser, lits: Literals): Result<string>
  {
    RenderResult(AnnotateSegments(SplitAfter(content, lits.terminator), d, pick, lits))
  }

  /** `pre` written before the text of `r`. */
  function After(pre: string, r: Result<string>): Result<string>
  {
    match r
    case Ok(rest) => Ok(pre + rest)
    case Err(e) => Err(e)
  }

  lemma AfterNothing(r: Result<string>)
    ensures After([], r) == r
  {
    if r.Ok? {
      assert [] + r.value == r.value;
    }
  }

  lemma AfterAfter(a: string, b: string, r: Result<string>)
    ensures After(a, After(b, r)) == After(a + b, r)
  {
    if r.Ok? {
      assert a + (b + r.value) == (a + b) + r.value;
    }
  }

  /**
   * `process`: each sentence tagged with widest window `n`, the terminator
   * written after every sentence but the last.
   */
  ghost function ProcessSentences(sentences: seq<string>, d: Dict, pick: Chooser, lits: Literals, n: int): Result<string>
    requires n >= 1
  {
    if sentences == [] then Ok([])
    else
      match TagSentence(sentences[0], d, pick, lits, n)
      case Err(e) => Err(e)
      case Ok(first) =>
        var sep := if |sentences| > 1 then [lits.terminator] else [];
        After(Render(first) + sep, ProcessSentences(sentences[1..], d, pick, lits, n))
  }

  /** The first sentence of a list: its error stops the list, its text comes first otherwise. */
  lemma ProcessSentencesStep(sentences: seq<string>, d: Dict, pick: Chooser, lits: Literals, n: int)
    requires n >= 1 && sentences != []
    ensures TagSentence(sentences[0], d, pick, lits, n).Err? ==>
      ProcessSentences(sentences, d, pick, lits, n) == Err(TagSentence(sentences[0], d, pick, lits, n).error)
    ensures TagSentence(sentences[0], d, pick, lits, n).Ok? ==>
      ProcessSentences(sentences, d, pick, lits, n) ==
        After(Render(TagSentence(sentences[0], d, pick, lits, n).value) + (if |sentences| > 1 then [lits.terminator] else []),
          ProcessSentences(sentences[1..], d, pick, lits, n))
  {
  }

  /** The text `process` writes for a document `content`. */
  ghost function ProcessSpec(content: string, d: Dict, pick: Chooser, lits: Literals, n: int): Result<string>
    requires n >= 1
  {
    ProcessSentences(SplitOn(content, lits.terminator), d, pick, lits, n)
  }
}
