/**
 * The `docTagger` object: a dictionary it loads and then reads, and the two
 * tagging loops of `annotate` and `process`, written as the step-by-step
 * algorithm over a fresh interval tree per sentence and a growing output.
 */
module DocTaggers {
  import opened Wrappers
  import opened Strings
  import opened Intervals
  import opened IntervalTrees
  import opened Dictionaries
  import opened Tagging

  class DocTagger {
    /** The shared `HashMultimap` the tagger reads. */
    var dict: Dict
    /** The order in which the multimap's value sets list their members. */
    const pick: Chooser
    /** The terminator, citation markers and suppression sentinel. */
    const lits: Literals

    constructor(dict: Dict, pick: Chooser, lits: Literals)
      ensures this.dict == dict && this.pick == pick && this.lits == lits
    {
      this.dict := dict;
      this.pick := pick;
      this.lits := lits;
    }

    /** `loadDict`: puts the (term, gloss) pair of each row; a short row throws midway. */
    method LoadDict(rows: seq<seq<string>>) returns (ok: bool)
      modifies this
      ensures (dict, ok) == LoadRows(old(dict), rows)
    {
      var i := 0;
      while i < |rows|
        invariant 0 <= i <= |rows|
        invariant LoadRows(dict, rows[i..]) == LoadRows(old(dict), rows)
      {
        var dictLine := rows[i];
        assert rows[i..][1..] == rows[i + 1..];
        if |dictLine| <= CHN_IDX {
          return false;
        }
        var gloss := dictLine[GLOSS_IDX];
        if '~' in dictLine[TEMPLATE_IDX] {
          gloss := Replace(dictLine[TEMPLATE_IDX], '~', gloss);
        }
        if ' ' in gloss {
          gloss := Replace(gloss, ' ', "-");
        }
        dict := Put(dict, dictLine[CHN_IDX], gloss);
        i := i + 1;
      }
      ok := true;
    }

    /** Stage A: the passes of widths `maxLen` down to 2 over a fresh tree. */
    method ClaimWindows(s: string, maxLen: int) returns (ist: IntervalTree)
      requires maxLen >= 1
      ensures fresh(ist) && ist.Valid()
      ensures ist.intervals == Claims(s, dict, maxLen)
    {
      ist := new IntervalTree();
      var wordLength := maxLen;
      FirstRound(s, wordLength, ist);
      wordLength := wordLength - 1;
      while wordLength > 1
        invariant ist.Valid()
        invariant ShorterPasses(s, dict, wordLength, ist.intervals) == Claims(s, dict, maxLen)
      {
        LaterRound(s, wordLength, ist);
        wordLength := wordLength - 1;
      }
    }

    /** The first pass over an empty tree: claims every key window of width `w`, left to right. */
    method FirstRound(s: string, w: int, ist: IntervalTree)
      requires w >= 1 && ist.Valid() && ist.intervals == {}
      modifies ist
      ensures ist.Valid()
      ensures ist.intervals == FirstPass(s, dict, w, {}, 0)
    {
      var j := 0;
      while j < |s|
        invariant ist.Valid()
        invariant forall x :: x in ist.intervals ==> x.end < j
        invariant FirstPass(s, dict, w, ist.intervals, j) == FirstPass(s, dict, w, {}, 0)
        decreases |s| - j
      {
        var endIndex := j + w - 1;
        if endIndex >= |s| {
          break;
        }
        if ContainsKey(dict, s[j..endIndex + 1]) {
          ist.Insert(Interval(j, endIndex));
          j := endIndex + 1;
        } else {
          j := j + 1;
        }
      }
    }

    /** A later pass of width `w`: skips claimed ranges and claims free key windows. */
    method LaterRound(s: string, w: int, ist: IntervalTree)
      requires w >= 1 && ist.Valid()
      modifies ist
      ensures ist.Valid()
      ensures ist.intervals == Pass(s, dict, w, old(ist.intervals), NextFree(old(ist.intervals), Window(0, w)))
    {
      var j := ist.NextAvailable(Interval(0, w - 1));
      ghost var target := Pass(s, dict, w, ist.intervals, j);
      while j < |s|
        invariant j >= 0
        invariant ist.Valid()
        invariant Pass(s, dict, w, ist.intervals, j) == target
        decreases |s| - j
      {
        if j + w - 1 >= |s| {
          break;
        }
        j := LaterStep(s, w, ist, j);
      }
    }

    /** One step of a later pass at `j`, where the window of width `w` fits in the sentence. */
    method LaterStep(s: string, w: int, ist: IntervalTree, j: int) returns (j': int)
      requires w >= 1 && j >= 0 && j + w - 1 < |s| && ist.Valid()
      modifies ist
      ensures ist.Valid() && j' > j
      ensures Pass(s, dict, w, ist.intervals, j') == Pass(s, dict, w, old(ist.intervals), j)
    {
      var endIndex := j + w - 1;
      var nextPos := ist.NextAvailable(Interval(j, endIndex));
      assert Window(j, w) == Interval(j, endIndex);
      NextFreeSpec(ist.intervals, Window(j, w));
      if j == nextPos {
        if ContainsKey(dict, s[j..endIndex + 1]) {
          ist.Insert(Interval(j, endIndex));
          j' := endIndex + 1;
        } else {
          j' := j + 1;
        }
      } else {
        j' := nextPos;
      }
    }

    /**
     * Stage B at a claimed span `[j, nextPos)`: the span, extended by one
     * character when a citation marker follows it, with its first gloss
     * (suffixed `LAW_ENG` when extended), unless that gloss holds `IGNORE`.
     * A span without glosses throws when its first gloss is taken.
     */
    method WriteSpan(s: string, j: nat, nextPos: int) returns (r: Result<(Segment, nat)>)
      requires j < nextPos <= |s|
      ensures r.Err? <==> !HasGlosses(Get(dict, s[j..nextPos]))
      ensures r.Err? ==> r.error == ArrayIndexOutOfBounds
      ensures r.Ok? ==> r.value.1 == SpanEnd(s, nextPos, lits) && j < r.value.1 <= |s|
      ensures r.Ok? ==> r.value.0 == SpanSegment(s, j, nextPos, Get(dict, s[j..nextPos]), pick, lits)
    {
      var cnWord := s[j..nextPos];
      var matchWords := Get(dict, cnWord);
      var enWord;
      var next := nextPos;
      var law := nextPos + LAW_LNG < |s| &&
        (s[nextPos..nextPos + LAW_LNG] == lits.lawChn || s[nextPos..nextPos + LAW_LNG] == lits.lawChnQ);
      assert law == LawFollows(s, nextPos, lits);
      if law {
        cnWord := s[j..nextPos + 1];
        if !HasGlosses(matchWords) {
          return Err(ArrayIndexOutOfBounds);
        }
        enWord := pick(matchWords) + LAW_ENG;
        next := nextPos + 1;
      } else {
        if !HasGlosses(matchWords) {
          return Err(ArrayIndexOutOfBounds);
        }
        enWord := pick(matchWords);
      }
      if !HasSubstring(enWord, lits.ignore) {
        r := Ok((Tagged(enWord, cnWord), next));
      } else {
        r := Ok((Raw(cnWord), next));
      }
    }

    /** Stage B: writes sentence `s` left to right against the claimed intervals of `ist`. */
    method EmitSentence(s: string, ist: IntervalTree) returns (r: Result<string>)
      ensures r == RenderResult(Emit(s, ist.intervals, dict, pick, lits, 0))
    {
      var builder := "";
      ghost var done: seq<Segment> := [];
      var j := 0;
      ThenNothing(Emit(s, ist.intervals, dict, pick, lits, 0));
      while j < |s|
        invariant builder == Render(done)
        invariant Emit(s, ist.intervals, dict, pick, lits, 0) == Then(done, Emit(s, ist.intervals, dict, pick, lits, j))
        decreases |s| - j
      {
        var nextPos := ist.NextAvailable(Interval(j, j));
        ghost var rest := Emit(s, ist.intervals, dict, pick, lits, j);
        ghost var seg: Segment;
        if nextPos == j {
          var matchWords := Get(dict, [s[j]]);
          if !HasGlosses(matchWords) {
            seg := Raw([s[j]]);
            builder := builder + [s[j]];
          } else {
            var enWord := pick(matchWords);
            seg := Tagged(enWord, [s[j]]);
            builder := builder + Tag(enWord, [s[j]]);
          }
          j := j + 1;
          assert rest == Then([seg], Emit(s, ist.intervals, dict, pick, lits, j));
        } else {
          if nextPos > |s| {
            assert rest == Err(StringIndexOutOfBounds);
            return Err(StringIndexOutOfBounds);
          }
          var step := WriteSpan(s, j, nextPos);
          if step.Err? {
            assert rest == Err(ArrayIndexOutOfBounds);
            return Err(step.error);
          }
          seg := step.value.0;
          builder := builder + step.value.0.Rendered();
          j := step.value.1;
          assert rest == Then([seg], Emit(s, ist.intervals, dict, pick, lits, j));
        }
        RenderSnoc(done, seg);
        ThenThen(done, [seg], Emit(s, ist.intervals, dict, pick, lits, j));
        done := done + [seg];
      }
      assert done + [] == done;
      r := Ok(builder);
    }

    /** `annotate`: every sentence of `content` claimed with window 12, written, and concatenated. */
    method Annotate(content: string) returns (r: Result<string>)
      ensures r == AnnotateSpec(content, dict, pick, lits)
    {
      var sentences := SplitAfter(content, lits.terminator);
      var builder := "";
      ghost var done: seq<Segment> := [];
      var i := 0;
      ThenNothing(AnnotateSegments(sentences, dict, pick, lits));
      while i < |sentences|
        invariant 0 <= i <= |sentences|
        invariant builder == Render(done)
        invariant AnnotateSegments(sentences, dict, pick, lits) == Then(done, AnnotateSegments(sentences[i..], dict, pick, lits))
      {
        assert sentences[i..][1..] == sentences[i + 1..];
        var ist := ClaimWindows(sentences[i], INIT_WL);
        var out := EmitSentence(sentences[i], ist);
        if out.Err? {
          return Err(out.error);
        }
        ghost var segs := TagSentence(sentences[i], dict, pick, lits, INIT_WL).value;
        RenderAppend(done, segs);
        ThenThen(done, segs, AnnotateSegments(sentences[i + 1..], dict, pick, lits));
        builder := builder + out.value;
        done := done + segs;
        i := i + 1;
      }
      assert done + [] == done;
      r := Ok(builder);
    }

    /** `process`: every sentence claimed with window `n`, written, terminators between them. */
    method Process(content: string, n: int) returns (r: Result<string>)
      requires n >= 1
      ensures r == ProcessSpec(content, dict, pick, lits, n)
    {
      var sentences := SplitOn(content, lits.terminator);
      var writer := "";
      var i := 0;
      AfterNothing(ProcessSpec(content, dict, pick, lits, n));
      while i < |sentences|
        invariant 0 <= i <= |sentences|
        invariant ProcessSpec(content, dict, pick, lits, n) == After(writer, ProcessSentences(sentences[i..], dict, pick, lits, n))
      {
        ghost var rest := sentences[i..];
        assert rest[0] == sentences[i] && rest[1..] == sentences[i + 1..];
        assert |rest| > 1 <==> i < |sentences| - 1;
        ProcessSentencesStep(rest, dict, pick, lits, n);
        var ist := ClaimWindows(sentences[i], n);
        var out := EmitSentence(sentences[i], ist);
        if out.Err? {
          return Err(out.error);
        }
        ghost var sep := if i < |sentences| - 1 then [lits.terminator] else [];
        ghost var later := ProcessSentences(sentences[i + 1..], dict, pick, lits, n);
        AfterAfter(out.value, sep, later);
        AfterAfter(writer, out.value, After(sep, later));
        writer := writer + out.value;
        if i < |sentences| - 1 {
          AfterAfter(writer, [lits.terminator], later);
          writer := writer + [lits.terminator];
        } else {
          AfterNothing(later);
        }
        i := i + 1;
      }
      assert writer + [] == writer;
      r := Ok(writer);
    }
  }
}
