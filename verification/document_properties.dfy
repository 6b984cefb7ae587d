/**
 * What `annotate` and `process` guarantee about a whole document: how the
 * document is cut into sentences, that the tagged output spells the
 * document once tags are stripped, that a dictionary without terms leaves
 * the text as it was, and the worked example of the tagger's documentation.
 */
module DocumentProperties {
  import opened Wrappers
  import opened Strings
  import opened Intervals
  import opened IntervalTrees
  import opened Dictionaries
  import opened Tagging
  import opened ClaimProperties
  import opened EmitProperties

  lemma ConcatCons(a: string, rest: seq<string>)
    ensures Concat([a] + rest) == a + Concat(rest)
  {
    assert ([a] + rest)[1..] == rest;
  }

  /** The sentences `annotate` cuts a document into spell the document again. */
  lemma {:induction false} SplitAfterConcat(s: string, t: char)
    ensures Concat(SplitAfter(s, t)) == s
    decreases |s|
  {
    if t in s && IndexOf(s, t) + 1 != |s| {
      var i := IndexOf(s, t);
      SplitAfterConcat(s[i + 1..], t);
      ConcatCons(s[..i + 1], SplitAfter(s[i + 1..], t));
      assert s[..i + 1] + s[i + 1..] == s;
    } else {
      assert s + [] == s;
    }
  }

  /** `p` ends with the terminator `t` and holds no other. */
  ghost predicate EndsSentence(p: string, t: char)
  {
    |p| > 0 && p[|p| - 1] == t && t !in p[..|p| - 1]
  }

  /** Every sentence but the last ends with the terminator and holds no other terminator. */
  lemma {:induction false} SplitAfterSentences(s: string, t: char)
    ensures |SplitAfter(s, t)| >= 1
    ensures forall k :: 0 <= k < |SplitAfter(s, t)| - 1 ==> EndsSentence(SplitAfter(s, t)[k], t)
    decreases |s|
  {
    if t in s && IndexOf(s, t) + 1 != |s| {
      var i := IndexOf(s, t);
      var rest := SplitAfter(s[i + 1..], t);
      SplitAfterSentences(s[i + 1..], t);
      var ss := SplitAfter(s, t);
      assert ss == [s[..i + 1]] + rest;
      assert EndsSentence(s[..i + 1], t) by {
        assert s[..i + 1][..i] == s[..i];
      }
      forall k | 0 <= k < |ss| - 1 ensures EndsSentence(ss[k], t) {
        if k > 0 {
          assert ss[k] == rest[k - 1];
        }
      }
    }
  }

  /** Joining the pieces between terminators with the terminator gives the text back. */
  lemma {:induction false} JoinPieces(s: string, t: char)
    ensures |Pieces(s, t)| >= 1
    ensures Join(Pieces(s, t), t) == s
    ensures forall k :: 0 <= k < |Pieces(s, t)| ==> t !in Pieces(s, t)[k]
  {
    PiecesJoin(s, t);
    PiecesFree(s, t);
  }

  lemma {:induction false} PiecesJoin(s: string, t: char)
    ensures |Pieces(s, t)| >= 1
    ensures Join(Pieces(s, t), t) == s
    decreases |s|
  {
    if t in s {
      var i := IndexOf(s, t);
      var rest := Pieces(s[i + 1..], t);
      PiecesJoin(s[i + 1..], t);
      var p := [s[..i]] + rest;
      assert Pieces(s, t) == p;
      assert p[1..] == rest;
      assert Join(p, t) == s[..i] + [t] + Join(rest, t);
      assert s[..i] + [t] + s[i + 1..] == s;
    }
  }

  lemma {:induction false} PiecesFree(s: string, t: char)
    ensures forall k :: 0 <= k < |Pieces(s, t)| ==> t !in Pieces(s, t)[k]
    decreases |s|
  {
    if t in s {
      var i := IndexOf(s, t);
      PiecesFree(s[i + 1..], t);
      var p := Pieces(s, t);
      assert p == [s[..i]] + Pieces(s[i + 1..], t);
      forall k | 0 <= k < |p| ensures t !in p[k] {
        if k > 0 {
          assert p[k] == Pieces(s[i + 1..], t)[k - 1];
        }
      }
    }
  }

  /** `k` copies of the character `t`. */
  function Repeat(t: char, k: nat): (r: string)
    ensures |r| == k && forall i :: 0 <= i < k ==> r[i] == t
  {
    if k == 0 then [] else Repeat(t, k - 1) + [t]
  }

  lemma {:induction false} JoinSnoc(r: seq<string>, x: string, t: char)
    requires r != []
    ensures Join(r + [x], t) == Join(r, t) + [t] + x
    decreases |r|
  {
    if |r| == 1 {
      assert (r + [x])[1..] == [x];
    } else {
      JoinSnoc(r[1..], x, t);
      assert (r + [x])[1..] == r[1..] + [x];
    }
  }

  /** Dropping trailing empty pieces drops only terminators from the end of the joined text. */
  lemma {:induction false} DropTrailingEmptyJoin(p: seq<string>, t: char)
    ensures DropTrailingEmpty(p) <= p
    ensures exists k: nat :: Join(p, t) == Join(DropTrailingEmpty(p), t) + Repeat(t, k)
    decreases |p|
  {
    if p != [] && p[|p| - 1] == [] {
      var q := p[..|p| - 1];
      DropTrailingEmptyJoin(q, t);
      var k: nat :| Join(q, t) == Join(DropTrailingEmpty(q), t) + Repeat(t, k);
      assert p == q + [[]];
      if q != [] {
        JoinSnoc(q, [], t);
        assert Join(p, t) == Join(DropTrailingEmpty(p), t) + Repeat(t, k + 1);
      } else {
        assert Join(p, t) == Join(DropTrailingEmpty(p), t) + Repeat(t, 0);
      }
    } else {
      assert Join(p, t) == Join(DropTrailingEmpty(p), t) + Repeat(t, 0);
    }
  }

  /** Dropping trailing empty pieces leaves no piece list or one whose last piece is not empty. */
  lemma {:induction false} DropTrailingEmptyLast(p: seq<string>)
    ensures DropTrailingEmpty(p) == [] || DropTrailingEmpty(p)[|DropTrailingEmpty(p)| - 1] != []
    decreases |p|
  {
    if p != [] && p[|p| - 1] == [] {
      DropTrailingEmptyLast(p[..|p| - 1]);
    }
  }

  /** Joined pieces end with the last character of the last piece, when it has one. */
  lemma {:induction false} JoinLast(r: seq<string>, t: char)
    requires r != [] && r[|r| - 1] != []
    ensures |Join(r, t)| > 0 && Join(r, t)[|Join(r, t)| - 1] == r[|r| - 1][|r[|r| - 1]| - 1]
    decreases |r|
  {
    if |r| > 1 {
      JoinLast(r[1..], t);
      assert r[1..][|r[1..]| - 1] == r[|r| - 1];
    }
  }

  /**
   * The sentences `process` cuts a document into hold no terminator, and
   * joined with the terminator they give the document back up to the
   * terminators it ends with, all of which are dropped.
   */
  lemma SplitOnSentences(s: string, t: char)
    ensures forall k :: 0 <= k < |SplitOn(s, t)| ==> t !in SplitOn(s, t)[k]
    ensures exists n: nat :: s == Join(SplitOn(s, t), t) + Repeat(t, n)
    ensures var j := Join(SplitOn(s, t), t); |j| == 0 || j[|j| - 1] != t
  {
    if t in s {
      JoinPieces(s, t);
      DropTrailingEmptyJoin(Pieces(s, t), t);
      var r := DropTrailingEmpty(Pieces(s, t));
      forall k | 0 <= k < |r| ensures t !in r[k] {
        assert r[k] == Pieces(s, t)[k];
      }
    } else {
      assert s == Join([s], t) + Repeat(t, 0);
    }
    SplitOnLast(s, t);
  }

  /** The joined sentences do not end with a terminator. */
  lemma SplitOnLast(s: string, t: char)
    requires forall k :: 0 <= k < |SplitOn(s, t)| ==> t !in SplitOn(s, t)[k]
    ensures var j := Join(SplitOn(s, t), t); |j| == 0 || j[|j| - 1] != t
  {
    var r := SplitOn(s, t);
    if t in s {
      DropTrailingEmptyLast(Pieces(s, t));
    }
    if r != [] && r[|r| - 1] != [] {
      JoinLast(r, t);
      var last := r[|r| - 1];
      assert last[|last| - 1] in last;
    }
  }

  /** When `annotate` succeeds, its tags stripped give the document back. */
  lemma {:induction false} AnnotateTexts(sentences: seq<string>, d: Dict, pick: Chooser, lits: Literals)
    ensures AnnotateSegments(sentences, d, pick, lits).Ok? ==>
      Texts(AnnotateSegments(sentences, d, pick, lits).value) == Concat(sentences)
    decreases |sentences|
  {
    var r := AnnotateSegments(sentences, d, pick, lits);
    if sentences != [] && r.Ok? {
      var first := TagSentence(sentences[0], d, pick, lits, INIT_WL).value;
      AnnotateTexts(sentences[1..], d, pick, lits);
      EmitTexts(sentences[0], Claims(sentences[0], d, INIT_WL), d, pick, lits, 0);
      TextsAppend(first, AnnotateSegments(sentences[1..], d, pick, lits).value);
      ConcatCons(sentences[0], sentences[1..]);
      assert [sentences[0]] + sentences[1..] == sentences;
    }
  }

  /** The tags stripped from `annotate`'s output give the whole document back. */
  lemma AnnotateKeepsText(content: string, d: Dict, pick: Chooser, lits: Literals)
    ensures AnnotateSegments(SplitAfter(content, lits.terminator), d, pick, lits).Ok? ==>
      Texts(AnnotateSegments(SplitAfter(content, lits.terminator), d, pick, lits).value) == content
  {
    AnnotateTexts(SplitAfter(content, lits.terminator), d, pick, lits);
    SplitAfterConcat(content, lits.terminator);
  }

  /**
   * The segments `process` writes: those of every sentence, with the
   * terminator written raw between consecutive sentences; the first failing
   * sentence fails it.
   */
  ghost function ProcessSegments(sentences: seq<string>, d: Dict, pick: Chooser, lits: Literals, n: int): Result<seq<Segment>>
    requires n >= 1
  {
    if sentences == [] then Ok([])
    else
      match TagSentence(sentences[0], d, pick, lits, n)
      case Err(e) => Err(e)
      case Ok(first) =>
        var sep := if |sentences| > 1 then [Raw([lits.terminator])] else [];
        Then(first + sep, ProcessSegments(sentences[1..], d, pick, lits, n))
  }

  lemma RenderThen(a: seq<Segment>, r: Result<seq<Segment>>)
    ensures RenderResult(Then(a, r)) == After(Render(a), RenderResult(r))
  {
    if r.Ok? {
      RenderAppend(a, r.value);
    }
  }

  /** The first sentence of a list: its error stops `process`, its segments and the separator come first otherwise. */
  lemma ProcessSegmentsStep(sentences: seq<string>, d: Dict, pick: Chooser, lits: Literals, n: int)
    requires n >= 1 && sentences != []
    ensures TagSentence(sentences[0], d, pick, lits, n).Err? ==>
      ProcessSegments(sentences, d, pick, lits, n) == Err(TagSentence(sentences[0], d, pick, lits, n).error)
    ensures TagSentence(sentences[0], d, pick, lits, n).Ok? ==>
      ProcessSegments(sentences, d, pick, lits, n) ==
        Then(TagSentence(sentences[0], d, pick, lits, n).value + (if |sentences| > 1 then [Raw([lits.terminator])] else []),
          ProcessSegments(sentences[1..], d, pick, lits, n))
  {
  }

  /** The text of the separator is the terminator, or nothing after the last sentence. */
  lemma RenderSeparator(t: char, more: bool)
    ensures Render(if more then [Raw([t])] else []) == if more then [t] else []
  {
    if more {
      RenderSnoc([], Raw([t]));
      assert [] + [Raw([t])] == [Raw([t])];
    }
  }

  /** The text `process` writes is the rendering of its segments. */
  lemma {:induction false} ProcessRendered(sentences: seq<string>, d: Dict, pick: Chooser, lits: Literals, n: int)
    requires n >= 1
    ensures ProcessSentences(sentences, d, pick, lits, n) == RenderResult(ProcessSegments(sentences, d, pick, lits, n))
    decreases |sentences|
  {
    if sentences != [] {
      ProcessSentencesStep(sentences, d, pick, lits, n);
      ProcessSegmentsStep(sentences, d, pick, lits, n);
      ProcessRendered(sentences[1..], d, pick, lits, n);
      var tagged := TagSentence(sentences[0], d, pick, lits, n);
      if tagged.Ok? {
        var more := |sentences| > 1;
        var sep: seq<Segment> := if more then [Raw([lits.terminator])] else [];
        var rest := ProcessSegments(sentences[1..], d, pick, lits, n);
        RenderThen(tagged.value + sep, rest);
        RenderAppend(tagged.value, sep);
        RenderSeparator(lits.terminator, more);
        assert Render(tagged.value + sep) == Render(tagged.value) + (if more then [lits.terminator] else []);
      }
    }
  }

  /** When `process` succeeds, its segments spell the sentences joined by the terminator. */
  lemma {:induction false} ProcessSegmentTexts(sentences: seq<string>, d: Dict, pick: Chooser, lits: Literals, n: int)
    requires n >= 1
    ensures ProcessSegments(sentences, d, pick, lits, n).Ok? ==>
      Texts(ProcessSegments(sentences, d, pick, lits, n).value) == Join(sentences, lits.terminator)
    decreases |sentences|
  {
    var r := ProcessSegments(sentences, d, pick, lits, n);
    if sentences != [] && r.Ok? {
      var s0 := sentences[0];
      var first := TagSentence(s0, d, pick, lits, n).value;
      EmitTexts(s0, Claims(s0, d, n), d, pick, lits, 0);
      assert s0[0..] == s0;
      ProcessSegmentTexts(sentences[1..], d, pick, lits, n);
      var rest := ProcessSegments(sentences[1..], d, pick, lits, n).value;
      var sep: seq<Segment> := if |sentences| > 1 then [Raw([lits.terminator])] else [];
      assert r.value == (first + sep) + rest;
      TextsAppend(first + sep, rest);
      TextsAppend(first, sep);
      if |sentences| > 1 {
        TextsCons(Raw([lits.terminator]), []);
        assert Texts(sep) == [lits.terminator];
        assert Join(sentences, lits.terminator) == s0 + [lits.terminator] + Join(sentences[1..], lits.terminator);
      } else {
        assert sentences[1..] == [] && rest == [] && Texts(sep) == [];
      }
    }
  }

  /**
   * When `process` succeeds, its output is the rendering of segments that
   * spell the document's sentences joined by the terminator: the document
   * without the terminators it ends with.
   */
  lemma ProcessKeepsText(content: string, d: Dict, pick: Chooser, lits: Literals, n: int)
    requires n >= 1
    ensures ProcessSpec(content, d, pick, lits, n) == RenderResult(ProcessSegments(SplitOn(content, lits.terminator), d, pick, lits, n))
    ensures ProcessSegments(SplitOn(content, lits.terminator), d, pick, lits, n).Ok? ==>
      Texts(ProcessSegments(SplitOn(content, lits.terminator), d, pick, lits, n).value) == Join(SplitOn(content, lits.terminator), lits.terminator)
    ensures ProcessSegments(SplitOn(content, lits.terminator), d, pick, lits, n).Ok? ==>
      exists k: nat :: content == Texts(ProcessSegments(SplitOn(content, lits.terminator), d, pick, lits, n).value) + Repeat(lits.terminator, k)
  {
    var sentences := SplitOn(content, lits.terminator);
    ProcessRendered(sentences, d, pick, lits, n);
    ProcessSegmentTexts(sentences, d, pick, lits, n);
    SplitOnSentences(content, lits.terminator);
  }

  /** A dictionary without terms: the sentence is written unchanged. */
  lemma TagSentenceNoTerms(s: string, d: Dict, pick: Chooser, lits: Literals, maxLen: int)
    requires maxLen >= 1
    requires forall k :: !ContainsKey(d, k)
    ensures TagSentence(s, d, pick, lits, maxLen).Ok?
    ensures Render(TagSentence(s, d, pick, lits, maxLen).value) == s
  {
    NoClaimsWithoutLongTerms(s, d, maxLen);
    EmitUnclaimed(s, d, pick, lits, 0);
    RenderUnglossed(s, d, pick);
  }

  lemma {:induction false} AnnotateNoTermsSegments(sentences: seq<string>, d: Dict, pick: Chooser, lits: Literals)
    requires forall k :: !ContainsKey(d, k)
    ensures AnnotateSegments(sentences, d, pick, lits).Ok?
    ensures Render(AnnotateSegments(sentences, d, pick, lits).value) == Concat(sentences)
    decreases |sentences|
  {
    if sentences != [] {
      var first := TagSentence(sentences[0], d, pick, lits, INIT_WL);
      TagSentenceNoTerms(sentences[0], d, pick, lits, INIT_WL);
      AnnotateNoTermsSegments(sentences[1..], d, pick, lits);
      RenderAppend(first.value, AnnotateSegments(sentences[1..], d, pick, lits).value);
      ConcatCons(sentences[0], sentences[1..]);
      assert [sentences[0]] + sentences[1..] == sentences;
    }
  }

  /** `annotate` with a dictionary without terms gives the document back unchanged. */
  lemma AnnotateNoTerms(content: string, d: Dict, pick: Chooser, lits: Literals)
    requires forall k :: !ContainsKey(d, k)
    ensures AnnotateSpec(content, d, pick, lits) == Ok(content)
  {
    AnnotateNoTermsSegments(SplitAfter(content, lits.terminator), d, pick, lits);
    SplitAfterConcat(content, lits.terminator);
  }

  lemma {:induction false} ProcessNoTermsSentences(sentences: seq<string>, d: Dict, pick: Chooser, lits: Literals, n: int)
    requires n >= 1
    requires forall k :: !ContainsKey(d, k)
    ensures ProcessSentences(sentences, d, pick, lits, n) == Ok(Join(sentences, lits.terminator))
    decreases |sentences|
  {
    if sentences != [] {
      var t := lits.terminator;
      var first := TagSentence(sentences[0], d, pick, lits, n);
      assert first.Ok? && Render(first.value) == sentences[0] by {
        TagSentenceNoTerms(sentences[0], d, pick, lits, n);
      }
      ProcessNoTermsSentences(sentences[1..], d, pick, lits, n);
      ProcessSentencesStep(sentences, d, pick, lits, n);
      var sep := if |sentences| > 1 then [t] else [];
      if |sentences| == 1 {
        assert sentences[1..] == [];
        assert sep == [] && Join(sentences[1..], t) == [];
        assert sentences[0] + [] == sentences[0];
      } else {
        assert sentences[0] + sep + Join(sentences[1..], t) == Join(sentences, t);
      }
    }
  }

  /**
   * `process` with a dictionary without terms writes the sentences joined by
   * the terminator: the document without the terminators it ends with.
   */
  lemma ProcessNoTerms(content: string, d: Dict, pick: Chooser, lits: Literals, n: int)
    requires n >= 1
    requires forall k :: !ContainsKey(d, k)
    ensures ProcessSpec(content, d, pick, lits, n) == Ok(Join(SplitOn(content, lits.terminator), lits.terminator))
    ensures exists m: nat :: content == ProcessSpec(content, d, pick, lits, n).value + Repeat(lits.terminator, m)
  {
    ProcessNoTermsSentences(SplitOn(content, lits.terminator), d, pick, lits, n);
    SplitOnSentences(content, lits.terminator);
  }

  /** The dictionary of the documented example: two single-character terms. */
  function ExampleDict(): Dict
  {
    map["法" := {"law"}, "人" := {"person"}]
  }

  /** Stage B on the characters of the example, nothing claimed. */
  lemma ExampleCharacters(pick: Chooser)
    requires IsChooser(pick)
    ensures CharSegments("法人", ExampleDict(), pick) == [Tagged("law", "法"), Tagged("person", "人")]
    ensures CharSegments("法人。", ExampleDict(), pick) == [Tagged("law", "法"), Tagged("person", "人"), Raw("。")]
  {
    var d := ExampleDict();
    assert "law" in {"law"} && "person" in {"person"};
    assert pick({"law"}) == "law" && pick({"person"}) == "person";
    assert Get(d, "法") == {"law"} && Get(d, "人") == {"person"} && Get(d, "。") == {};
    assert CharSegment('法', d, pick) == Tagged("law", "法");
    assert CharSegment('人', d, pick) == Tagged("person", "人");
    assert CharSegment('。', d, pick) == Raw("。");
    assert "法人。"[1..] == "人。" && "人。"[1..] == "。" && "法人"[1..] == "人";
  }

  /** Two or three segments render one after the other. */
  lemma RenderFew(a: Segment, b: Segment, c: Segment)
    ensures Render([a, b]) == a.Rendered() + b.Rendered()
    ensures Render([a, b, c]) == a.Rendered() + b.Rendered() + c.Rendered()
  {
    var one: seq<Segment> := [a];
    var two: seq<Segment> := [a, b];
    RenderSnoc([], a);
    assert [] + [a] == one;
    RenderSnoc(one, b);
    assert one + [b] == two;
    RenderSnoc(two, c);
    assert two + [c] == [a, b, c];
  }

  /** The text Stage B writes for the example's segments: the two tags, then the terminator raw. */
  lemma ExampleRender()
    ensures Render([Tagged("law", "法"), Tagged("person", "人")]) == Tag("law", "法") + Tag("person", "人")
    ensures Render([Tagged("law", "法"), Tagged("person", "人"), Raw("。")]) == Tag("law", "法") + Tag("person", "人") + "。"
  {
    RenderFew(Tagged("law", "法"), Tagged("person", "人"), Raw("。"));
  }

  /** No claims in the example: its terms are single characters. */
  lemma ExampleClaims(s: string, maxLen: int)
    requires maxLen >= 2
    ensures Claims(s, ExampleDict(), maxLen) == {}
  {
    var d := ExampleDict();
    forall k | ContainsKey(d, k) ensures |k| < MinWidth(maxLen) {
      assert k in d;
    }
    NoClaimsWithoutLongTerms(s, d, maxLen);
  }

  /** Stage A and Stage B on the example sentence. */
  lemma ExampleTagSentence(pick: Chooser, lits: Literals)
    requires IsChooser(pick)
    ensures TagSentence("法人。", ExampleDict(), pick, lits, INIT_WL) == Ok([Tagged("law", "法"), Tagged("person", "人"), Raw("。")])
  {
    var s := "法人。";
    ExampleClaims(s, INIT_WL);
    EmitUnclaimed(s, ExampleDict(), pick, lits, 0);
    ExampleCharacters(pick);
    assert s[0..] == s;
  }

  /** `annotate` cuts the example into one sentence, terminator kept. */
  lemma ExampleSplit()
    ensures SplitAfter("法人。", '。') == ["法人。"]
  {
    assert IndexOf("法人。", '。') == 2;
  }

  /** A single sentence gathers the segments Stage B writes for it. */
  lemma AnnotateOne(s: string, d: Dict, pick: Chooser, lits: Literals)
    ensures AnnotateSegments([s], d, pick, lits) == TagSentence(s, d, pick, lits, INIT_WL)
  {
    var one: seq<string> := [s];
    assert one[1..] == [];
    match TagSentence(s, d, pick, lits, INIT_WL)
    case Err(e) =>
    case Ok(segs) =>
      assert segs + [] == segs;
  }

  /**
   * The documented example: with "法" glossed "law" and "人" glossed
   * "person", Stage A finds no two-character term in "法人。" and Stage B
   * tags both characters on their own; `annotate` keeps the terminator at
   * the end of the sentence.
   */
  lemma ExampleAnnotate(pick: Chooser, lits: Literals)
    requires IsChooser(pick) && lits.terminator == '。'
    ensures AnnotateSpec("法人。", ExampleDict(), pick, lits) == Ok(Tag("law", "法") + Tag("person", "人") + "。")
  {
    ExampleSplit();
    AnnotateOne("法人。", ExampleDict(), pick, lits);
    ExampleTagSentence(pick, lits);
    ExampleRender();
  }

  /** `process` cuts the example at its terminator, leaving one sentence without it. */
  lemma ExampleSplitOn()
    ensures SplitOn("法人。", '。') == ["法人"]
  {
    var s := "法人。";
    assert IndexOf(s, '。') == 2;
    assert s[..2] == "法人" && s[3..] == "";
    assert Pieces(s, '。') == ["法人", ""];
  }

  /** A single sentence is written by `process` without a terminator after it. */
  lemma ProcessOne(s: string, d: Dict, pick: Chooser, lits: Literals, n: int)
    requires n >= 1
    ensures ProcessSentences([s], d, pick, lits, n) == RenderResult(TagSentence(s, d, pick, lits, n))
  {
    var one: seq<string> := [s];
    assert one[1..] == [];
    match TagSentence(s, d, pick, lits, n)
    case Err(e) =>
    case Ok(segs) =>
      assert Render(segs) + [] + [] == Render(segs);
  }

  /** Stage A and Stage B on the example sentence without its terminator. */
  lemma ExampleTagBare(pick: Chooser, lits: Literals)
    requires IsChooser(pick)
    ensures TagSentence("法人", ExampleDict(), pick, lits, 2) == Ok([Tagged("law", "法"), Tagged("person", "人")])
  {
    var s := "法人";
    ExampleClaims(s, 2);
    EmitUnclaimed(s, ExampleDict(), pick, lits, 0);
    ExampleCharacters(pick);
    assert s[0..] == s;
  }

  /** The same example through `process`, which cuts the terminator away. */
  lemma ExampleProcess(pick: Chooser, lits: Literals)
    requires IsChooser(pick) && lits.terminator == '。'
    ensures ProcessSpec("法人。", ExampleDict(), pick, lits, 2) == Ok(Tag("law", "法") + Tag("person", "人"))
  {
    ExampleSplitOn();
    ProcessOne("法人", ExampleDict(), pick, lits, 2);
    ExampleTagBare(pick, lits);
    ExampleRender();
  }
}
