# Chinese legal-text tagger: interval tree, annotation engine, multimap and hash join

This project models the core of a Java document tagger. The tagger tags Chinese
legal text with English glosses taken from a CSV dictionary. It does so in three
layers, plus two side components:

- **Intervals.** An `Interval` is a `(start, end)` pair. Its only implementation,
  `IndexInterval`, stores the pair unchecked. The predicates `overlaps` and
  `isAdjacent` treat both endpoints as included, and `compareTo` orders
  intervals lexicographically.
- **The interval tree.** Its source is not part of this model. Its contract is
  modelled as seen by its unit test and its callers: a set of pairwise-disjoint
  claimed ranges, with `insert`, `contains`, `overlaps` and `nextAvailable`.
  `nextAvailable(q)` answers `q.start` when nothing overlaps `q`, and otherwise
  one past the largest end among the intervals that overlap `q`.
- **The annotation engine** (`docTagger.annotate` and the loops of
  `docTagger.process`). Each sentence is processed in two stages, each using a
  fresh tree:
  - **Stage A** claims dictionary terms longest first, one pass per window width
    from `INIT_WL` = 12 (or `n`) down to 2.
  - **Stage B** walks the sentence left to right and writes every character
    exactly once: raw, inside a `<gloss>text</gloss>` tag, or as part of a
    claimed span. A span may be extended by one character by the citation
    ("law") rule, which suffixes its gloss `-law`. A span whose gloss holds the
    `IGNORE` sentinel is written raw.

  The dictionary is a Guava `HashMultimap` from a term to a set of glosses. Each
  CSV row is transformed into a (term, gloss) pair before it is put.
- **`Multimap`.** A `Hashtable` of insertion-ordered `LinkedList`s, with
  null-checked `put` and `get`.
- **`hashJoin`.** A symmetric ("double-pipelined") hash join of dictionary rows
  against noun tokens of a document. It alternates between the two inputs and
  probes one table before inserting into the other. It also has a one-sided
  simple join and a dictionary load that counts key lengths in a histogram.

The model's form follows the source:
- **Objects that update their fields are classes** with `modifies` clauses:
  `IntervalTree`, `DocTagger`, `Multimap`, `HashJoin`.
- **Each loop is a method with invariants.** Every loop of the tagger and of the
  join is a `while` loop, proved equal to a specification function over
  sequences.
- **The specification functions carry the lemmas.** The lemmas state what the
  algorithm guarantees:
  - claimed ranges are in range, disjoint, dictionary keys and longest first;
  - the output spells the input;
  - every tag is justified by the dictionary;
  - a token and a row that arrive once each are matched exactly once by the
    symmetric join, whichever comes first (a repeated noun is matched a number of
    times that depends on the arrival order);
  - the histogram counts every row.

Exceptions thrown by the source are modelled as `Err` results in
`Wrappers.Result`:
- `ArrayIndexOutOfBoundsException`: `toArray()[0]` of an empty set, a short CSV
  row, or a key too long for the histogram.
- `StringIndexOutOfBoundsException`: a span that ends past the sentence.
- `NullPointerException`: a null `put`/`get` argument to `Multimap`.

Things that belong to the Java runtime are parameters of the model:
- **Hash-set order.** The member a hash set happens to list first
  (`toArray()[0]`) is a fixed but arbitrary `Chooser` function. Lemmas assume
  only that it picks a member.
- **String literals.** The sentence terminator, the two citation markers and the
  `IGNORE` sentinel form a `Literals` parameter.

The source texts of these literals are mis-encoded:
- The terminator is written as a two-character string. The model treats it as
  one character.
- `LAW_CHN` is written as four characters although the comparison takes two.
  The model compares the two characters just after the span with the
  parameter, so as written (four characters) the citation rule never fires, and
  any two-character marker gives the evident intent.

The `Interval` doc comment calls intervals closed-open, but `overlaps` and
`isAdjacent` use closed endpoints. The model follows the code.

## Model

| member | source | states |
|---|---|---|
| Intervals.Interval.Length | docTagger/Interval.java:21-23 | start plus the length is the end; the length is non-negative exactly when start <= end |
| Intervals.Interval.Overlaps | docTagger/Interval.java:36-38 | closed-interval intersection: true iff start <= o.end and o.start <= end |
| Intervals.Interval.CompareTo | docTagger/Interval.java:40-52 | answers only -1, 0 or 1; 0 iff both fields are equal; negative iff lexicographically smaller on (start, end) |
| Intervals.UncheckedConstruction | docTagger/IndexInterval.java:5-18 | the accessors return the constructor's arguments, and a reversed pair is accepted with a negative length |
| Intervals.OverlapsIffSharedPoint | docTagger/Interval.java:36-38 | two well-formed intervals overlap exactly when some integer lies in both |
| Intervals.TouchingEndpointsOverlap | docTagger/Interval.java:36-38 | [0,4] and [4,6] overlap; [0,4] and [5,6] do not |
| Intervals.OverlapsSymmetric | docTagger/Interval.java:36-38 | overlap is symmetric |
| Intervals.OverlapsReflexive | docTagger/Interval.java:36-38 | a well-formed interval overlaps itself |
| Intervals.AdjacentSymmetric | docTagger/Interval.java:32-34 | adjacency is symmetric |
| Intervals.AdjacentNeverOverlap | docTagger/Interval.java:32-38 | adjacent well-formed intervals never overlap |
| Intervals.CompareAntisymmetric | docTagger/Interval.java:40-52 | swapping the operands of compareTo flips its sign |
| Intervals.CompareTransitive | docTagger/Interval.java:40-52 | compareTo is transitive, strictly when one step is strict, so it is a total order |
| IntervalTrees.MaxEndIsMax | docTagger/IntervalTreeTester.java:39-41 | the largest end of a set of intervals bounds every end and is attained (or is the floor) |
| IntervalTrees.NextFreeSpec | docTagger/docTagger.java:328-340 | nextAvailable(q) equals q.start iff nothing overlaps q; otherwise it is one past the end of an overlapping interval, and past the end of every one |
| IntervalTrees.IntervalTree.constructor | docTagger/docTagger.java:298 | a fresh tree holds no interval |
| IntervalTrees.IntervalTree.Insert | docTagger/docTagger.java:311 | adds one interval, which the caller guarantees overlaps nothing stored, keeping the stored set disjoint |
| IntervalTrees.IntervalTree.Contains | docTagger/IntervalTreeTester.java:36-37 | exact membership, by compareTo equal to 0 |
| IntervalTrees.IntervalTree.Overlaps | docTagger/Interval.java:36-38 | true iff some stored interval starts no later than the query ends and ends no earlier than it starts, for any query; for a well-formed query, iff some stored interval shares a point with it |
| IntervalTrees.IntervalTree.NextAvailable | docTagger/IntervalTreeTester.java:39-41 | a scan of the stored intervals that returns exactly NextFree of the stored set |
| IntervalTreeTester.SetUp | docTagger/IntervalTreeTester.java:22-29 | five inserts build a valid tree holding exactly the fixture intervals |
| IntervalTreeTester.TestQuery | docTagger/IntervalTreeTester.java:35-42 | contains([10,12]) holds, contains([0,12]) does not; nextAvailable answers 8, 13 and 8 for [5,6], [8,12] and [4,6] |
| IntervalTreeTester.FixtureAnswers | docTagger/IntervalTreeTester.java:39-41 | the three nextAvailable answers follow from the overlaps: [5,6] and [4,6] skip past [5,7], and [8,12] skips past [10,12] |
| IntervalTreeTester.NextAvailableNeedNotBeFree | docTagger/IntervalTreeTester.java:40 | the answer 13 for [8,12] starts a window [13,17] that still overlaps the stored [15,17] |
| Dictionaries.Put | docTagger/docTagger.java:100 | a put adds the gloss to the term's set, leaves every other term alone, and makes the term a key |
| Dictionaries.RowEntry | docTagger/docTagger.java:95-100 | a row succeeds iff it has a term column; the term is column 2; the gloss is RowGloss of the row with each space turned into `-` and every other character kept, so it holds no space; without a `~` template or spaces the gloss is column 0 |
| Dictionaries.RowGloss | docTagger/docTagger.java:96-97 | without a `~` in column 1 the gloss is column 0 |
| Dictionaries.RowGlossTemplate | docTagger/docTagger.java:96-97 | a template `a~b` in column 1 gives the gloss a, then column 0, then b |
| Dictionaries.LoadKeepsGlossesUnspaced | docTagger/docTagger.java:98-100 | after loading, no stored gloss contains a space |
| Dictionaries.LoadHoldsEveryRow | docTagger/docTagger.java:95-100 | a load of well-formed rows succeeds, stores the pair of every row, and stores nothing else |
| Dictionaries.LoadOnlyGrows | docTagger/docTagger.java:95-100 | loading never removes a gloss already stored |
| DocTaggers.DocTagger.constructor | docTagger/docTagger.java:73-80 | the tagger keeps the dictionary it is given |
| DocTaggers.DocTagger.LoadDict | docTagger/docTagger.java:87-108 | the new dictionary and the success flag are those of putting the transformed rows in order, stopping at a short row |
| DocTaggers.DocTagger.ClaimWindows | docTagger/docTagger.java:297-341 | a fresh valid tree holding exactly the Stage A claims of the sentence |
| DocTaggers.DocTagger.FirstRound | docTagger/docTagger.java:303-317 | the tree holds exactly the claims of the first pass of the widest width |
| DocTaggers.DocTagger.LaterRound | docTagger/docTagger.java:320-341 | the tree holds exactly the claims of one later pass, started at nextAvailable([0, w-1]) |
| DocTaggers.DocTagger.LaterStep | docTagger/docTagger.java:324-339 | one step of a later pass moves strictly forward and leaves the rest of the pass claiming the same intervals as before the step |
| DocTaggers.DocTagger.EmitSentence | docTagger/docTagger.java:347-382 | the text written for one sentence is the rendering of Stage B over the tree's claims, or the exception Stage B throws |
| DocTaggers.DocTagger.WriteSpan | docTagger/docTagger.java:362-380 | writing a claimed span throws exactly when the span has no glosses, and otherwise gives Stage B's segment for the span and a resume position past the span (one further on when the citation rule fires) that stays inside the sentence |
| DocTaggers.DocTagger.Annotate | docTagger/docTagger.java:291-385 | the output is that of splitting after each terminator and tagging every sentence in order |
| DocTaggers.DocTagger.Process | docTagger/docTagger.java:136-231 | the output is that of splitting on the terminator and tagging every sentence with widest window n, with the terminator between sentences |
| ClaimProperties.SkipBlocked | docTagger/docTagger.java:328-340 | every window skipped by jumping to nextAvailable overlaps a claim at least as wide |
| ClaimProperties.DisjointAdd | docTagger/docTagger.java:329-333 | inserting a window that overlaps nothing keeps the claims pairwise disjoint |
| ClaimProperties.FirstPassProps | docTagger/docTagger.java:303-317 | the first pass claims only in-range key windows of its width, disjointly, and leaves no key window of that width unblocked |
| ClaimProperties.PassProps | docTagger/docTagger.java:320-341 | a later pass extends the claims with in-range, disjoint key windows and leaves no key window of its width unblocked |
| ClaimProperties.PassClaim | docTagger/docTagger.java:329-334 | claiming a free key window and resuming after it preserves what a pass guarantees |
| ClaimProperties.ShorterPassesProps | docTagger/docTagger.java:320-341 | the passes down to width 2 keep the claims in range, disjoint, keys, and longest first for every width tried |
| ClaimProperties.ClaimsProps | docTagger/docTagger.java:297-341 | Stage A claims are well formed, pairwise disjoint, inside the sentence, 2 to INIT_WL wide, dictionary keys, and every unclaimed key window overlaps a claim at least as wide |
| ClaimProperties.NoClaimsWithoutLongTerms | docTagger/docTagger.java:297-341 | a dictionary without terms of two or more characters yields no claims |
| EmitProperties.SpanEndInside | docTagger/docTagger.java:366-372 | a span extended by the citation rule stays inside the sentence |
| EmitProperties.EmitTexts | docTagger/docTagger.java:347-382 | when Stage B succeeds, the texts of its segments spell the sentence, each character once and in order |
| EmitProperties.EmitOk | docTagger/docTagger.java:347-382 | Stage B succeeds on disjoint in-sentence key claims when no claim is followed by a citation marker |
| EmitProperties.EmitSpanOk | docTagger/docTagger.java:361-381 | the claimed-span step of Stage B looks up a key, so it succeeds and lands on a boundary |
| EmitProperties.EmitJustified | docTagger/docTagger.java:347-382 | every tag carries a gloss of its own text, or a `-law`-suffixed gloss of the text without the extra character |
| EmitProperties.EmitUnclaimed | docTagger/docTagger.java:348-360 | with nothing claimed, Stage B writes each character on its own |
| EmitProperties.RenderUnglossed | docTagger/docTagger.java:352-353 | characters with no gloss are written unchanged |
| EmitProperties.EmitNoIgnoredTags | docTagger/docTagger.java:376-379 | when Stage B succeeds, no tag of two or more characters carries a gloss containing the `IGNORE` sentinel |
| EmitProperties.EmitClaimedSpan | docTagger/docTagger.java:362-380 | at a claim x, Stage B writes s[x.start..x.end+2] with gloss suffixed `-law` iff a citation marker follows, else s[x.start..x.end+1] with the plain gloss; the span is tagged iff that gloss lacks `IGNORE`, and Stage B resumes right after it |
| EmitProperties.ClaimStartSkips | docTagger/docTagger.java:362 | at the start of a claim of disjoint claims, the next free position is one past the claim's end |
| EmitProperties.TagSentenceOk | docTagger/docTagger.java:297-382 | Stage A then Stage B succeeds and spells the sentence when no claimed term is followed by a citation marker |
| DocumentProperties.SplitAfterConcat | docTagger/docTagger.java:292 | the lookbehind split loses nothing: its sentences concatenate to the content |
| DocumentProperties.SplitAfterSentences | docTagger/docTagger.java:292 | there is at least one sentence, and every sentence but the last ends with its only terminator |
| DocumentProperties.JoinPieces | docTagger/docTagger.java:136 | the pieces between terminators hold no terminator and, joined by it, give back the content |
| DocumentProperties.DropTrailingEmptyJoin | docTagger/docTagger.java:136 | dropping trailing empty pieces keeps a prefix and loses only trailing terminators |
| DocumentProperties.SplitOnSentences | docTagger/docTagger.java:136 | split pieces hold no terminator, and joining them gives the content less its whole run of trailing terminators: the joined text does not end with one |
| DocumentProperties.SplitOnLast | docTagger/docTagger.java:136 | when the split pieces hold no terminator, their join does not end with one |
| DocumentProperties.ProcessSegmentsStep | docTagger/docTagger.java:143-230 | an error tagging the first sentence is the error of the whole; otherwise its segments and a terminator separator (none after the last sentence) come first |
| DocumentProperties.RenderSeparator | docTagger/docTagger.java:230 | the separator between sentences is written as the terminator itself |
| DocumentProperties.ProcessRendered | docTagger/docTagger.java:143-230 | the text process writes, or the error it throws, is the rendering of its segments |
| DocumentProperties.ProcessSegmentTexts | docTagger/docTagger.java:143-230 | when process succeeds, the texts of its segments spell the sentences joined by the terminator |
| DocumentProperties.ProcessKeepsText | docTagger/docTagger.java:136-231 | when process succeeds, its output with tags stripped is the content less its trailing terminators |
| DocumentProperties.AnnotateTexts | docTagger/docTagger.java:297-383 | when annotation succeeds, its segments spell the concatenated sentences |
| DocumentProperties.AnnotateKeepsText | docTagger/docTagger.java:291-385 | when annotate succeeds, its segments with tags stripped spell the content exactly |
| DocumentProperties.TagSentenceNoTerms | docTagger/docTagger.java:297-382 | with an empty dictionary a sentence is written unchanged |
| DocumentProperties.AnnotateNoTermsSegments | docTagger/docTagger.java:297-383 | with an empty dictionary annotation succeeds and renders the concatenated sentences |
| DocumentProperties.AnnotateNoTerms | docTagger/docTagger.java:291-385 | with an empty dictionary annotate returns its content unchanged |
| DocumentProperties.ProcessNoTermsSentences | docTagger/docTagger.java:143-231 | with an empty dictionary process writes the sentences joined by the terminator |
| DocumentProperties.ProcessNoTerms | docTagger/docTagger.java:136-231 | with an empty dictionary process reproduces the document except for its trailing terminators |
| DocumentProperties.ExampleTagSentence | docTagger/docTagger.java:347-382 | the sentence 法人。 with glosses for 法 and 人 is tagged character by character, with the terminator raw |
| DocumentProperties.ExampleAnnotate | docTagger/docTagger.java:291-385 | annotate of 法人。 gives `<law>法</law><person>人</person>。` |
| DocumentProperties.ExampleProcess | docTagger/docTagger.java:136-231 | process of 法人。 with window n = 2 gives the same tags without the final terminator |
| Multimaps.Append | Multimap.java:38-41 | a put appends the word to the end of the term's list, creating `[word]` for a fresh term, and leaves every other term's list alone |
| Multimaps.PutAllWords | Multimap.java:35-42 | after a sequence of puts, each term lists its earlier words followed by its new words in put order |
| Multimaps.PutAllKeys | Multimap.java:38-40 | after a sequence of puts, a term has a list iff it had one or was put |
| Multimaps.WordsForCounts | Multimap.java:41 | duplicates are kept: a word is listed as many times as its pair was put |
| Multimaps.PutAllNoEmptyList | Multimap.java:38-41 | no term ever holds an empty list |
| Multimaps.Multimap.constructor | Multimap.java:18-20 | the default constructor starts with an empty table |
| Multimaps.Multimap.WithCapacity | Multimap.java:26-28 | the capacity constructor starts with an empty table whatever the capacity |
| Multimaps.Multimap.Put | Multimap.java:35-42 | a null term or word throws a null-pointer error and changes nothing; otherwise the table is Append of the old table |
| Multimaps.Multimap.Get | Multimap.java:49-51 | a null term throws; a term never put gives null; otherwise its non-empty list |
| HashJoins.GlossMatchesCount | hashJoin.java:50-56 | option 0 writes one line per gloss of the term, each once |
| HashJoins.RunTables | hashJoin.java:48-64 | after any arrivals, a term is in the document table iff it arrived as a token, and a gloss is in the dictionary iff its row arrived |
| HashJoins.SymmetricJoinFinds | hashJoin.java:48-64 | a (gloss, term) match is written iff both its token and its row arrived, in either order |
| HashJoins.SymmetricJoinOnce | hashJoin.java:48-64 | a token and a row arriving once each are matched exactly once, whichever comes first |
| HashJoins.LoadThenProbe | hashJoin.java:136-147 | rows loaded first and then probed by tokens give each match once per matching token |
| HashJoins.LoadsWriteNothing | hashJoin.java:136-138 | loading rows writes no line |
| HashJoins.SlashInNominal | hashJoin.java:94-95 | a token holding `/n` holds a `/` |
| HashJoins.TokenKey | hashJoin.java:94-95 | a token is probed iff it holds `/n`, by its prefix before the first `/`: the key holds no `/` and the token has a `/` right after it |
| HashJoins.ApplyRuns | hashJoin.java:82-113 | processing reads succeeds iff no row is short, and then it equals running the join on the arrivals they make |
| HashJoins.ScheduleShape | hashJoin.java:73-113 | the reads alternate row, token from the start while both last, then the remaining rows, then the remaining tokens |
| HashJoins.TokenArrivals | hashJoin.java:106-113 | with a non-empty file name every noun token arrives, once per occurrence, and only tokens arrive |
| HashJoins.InterleaveArrivals | hashJoin.java:82-101 | in the alternating phase a row arrives with its template gloss and a noun token arrives by its key |
| HashJoins.DrainArrivals | hashJoin.java:102-104 | a drained row arrives with gloss column 0 |
| HashJoins.PlainArrivals | hashJoin.java:136-138 | the simple join loads every row with gloss column 0 |
| HashJoins.DoubleJoinFinds | hashJoin.java:72-119 | the double-pipelined join succeeds on well-formed rows and writes a match iff the term is a noun token and some row gives that gloss: the template gloss in the alternating phase, column 0 in the drain |
| HashJoins.PipelinedEntrySplit | hashJoin.java:86-104 | a row gives a gloss in the alternating phase or in the drain, split at the shorter input's length |
| HashJoins.SimpleJoinCounts | hashJoin.java:127-153 | the simple join writes each match once per noun token of the term when some row gives the gloss, else never |
| HashJoins.NounCountPositive | hashJoin.java:140-146 | a term is counted among the noun tokens iff it is one of them |
| HashJoins.JoinsAgree | hashJoin.java:72-153 | with no templates, the two joins write the same set of matches |
| HashJoins.LoadCountedOk | hashJoin.java:161-164 | the load succeeds iff every row has a term column and every term is shorter than FREQ_CAP |
| HashJoins.FreqCounts | hashJoin.java:159-164 | histogram cell n counts the rows whose term has length n |
| HashJoins.FreqTotal | hashJoin.java:159-164 | the histogram counts every row exactly once |
| HashJoins.HashJoin.constructor | hashJoin.java:35-39 | both tables start empty and nothing is written |
| HashJoins.HashJoin.ProbeAndInsert | hashJoin.java:48-64 | option 0 writes a line per gloss of the term and records the token; option 1 writes a line iff the term was seen, then adds the row; output is only appended |
| HashJoins.HashJoin.GlossLines | hashJoin.java:50-56 | the lines option 0 writes are exactly one per gloss of the term, in whatever order the set lists them |
| HashJoins.HashJoin.ReadOne | hashJoin.java:84-99 | succeeds iff the read is not a short row, and updates the state as the read's arrival does |
| HashJoins.HashJoin.ReadRow | hashJoin.java:86-90 | a dictionary row succeeds iff it has a term column; it then puts or probes with the entry its arrival carries: the template gloss while alternating, column 0 when draining or loading |
| HashJoins.HashJoin.ReadToken | hashJoin.java:93-98 | a document token changes the state only when it is a noun and the file name is not empty, and then exactly as the arrival of its key does |
| HashJoins.HashJoin.DoublePipelinedHashJoin | hashJoin.java:72-119 | the final tables, output and success are those of applying the alternate-then-drain schedule of reads |
| HashJoins.HashJoin.DrainAndProbe | hashJoin.java:102-113 | the state after draining the rows, then the tokens |
| HashJoins.HashJoin.ProbeTokens | hashJoin.java:106-113 | token reads never fail, and the state is that of applying them |
| HashJoins.HashJoin.SimpleHashJoin | hashJoin.java:127-153 | the final state and success are those of loading every row, then probing every token |
| HashJoins.HashJoin.LoadDict | hashJoin.java:155-170 | the dictionary is that of the counted load; a short row or a term of length >= FREQ_CAP throws out of bounds; otherwise it returns the histogram Freq of the rows |
| Strings.IndexOf | hashJoin.java:95 | `indexOf(c)` is the first position holding c |
| Strings.HasSubstringIffOccurs | hashJoin.java:94 | `contains(t)` holds iff t occurs at some position |
| Strings.Replace | docTagger/docTagger.java:96-99 | replacing every occurrence of a character: none are left when the replacement lacks it, nothing changes when it is absent, and a one-character replacement swaps exactly the occurrences, position by position |
| Strings.ReplacePieces | docTagger/docTagger.java:96-99 | the result is each character's replacement (itself, or the replacement string for an occurrence) concatenated in order |
| Strings.ReplaceAround | docTagger/docTagger.java:96-97 | replacing the only occurrence in a + c + b gives a, the replacement, then b |
| Strings.TagInjective | docTagger/docTagger.java:45 | a tag `<g>t</g>` written for the same text determines its gloss |

## Left out

- `docTagger.run` (the JSON-path extraction, the blocking queue with its `END` sentinel, file writing), `StreamManager`, `Simulator`, `DoublePipelinedBuffer` and `HashTest`: concurrency, foreign libraries and drivers. Their tagging is the modelled `annotate`.
- File and console I/O. Files are read into sequences: the document is a string, the CSV file is a sequence of rows, and the `Scanner` tokens are a sequence of strings. Output is a string (tagger) or a multiset of matches (join). `IOException` handling, `nanoTime` timing and `main` are not modelled.
- HashJoins.HashJoin.LoadDict: returns the histogram instead of printing it (`printHistogram` writes cells 1 to 34 to the console).
- Output written before an exception: the Java writers are left unclosed, and what reaches the file is not modelled. A failing tagger call returns only the error.
- The `IntervalTree` source, its balancing and its `maxEnd` augmentation: the tree is a set, and `NextAvailable` scans it. IntervalTree.java is not part of this model.
- The top-level `IntervalTreeTester.java` tests a different tree. Its expectation that `nextAvailable([12,12])` is 12 with [10,12] stored contradicts closed-endpoint overlap, so it is not encoded.
- Hash iteration order. `toArray()[0]` is a `Chooser` parameter. The join's option 0 writes glosses in an order the model leaves open, so its output is specified as a multiset of matches.
- `Multimaps.Multimap.Get`: the Java method returns the table's own `LinkedList`, so a caller could change the table through it. The model returns a value.
- `Multimaps.Multimap.WithCapacity`: requires a non-negative capacity; a negative one makes `Hashtable` throw `IllegalArgumentException`, which is not modelled.
- `DocTaggers.DocTagger.Process`: requires `n >= 1`. With `n = 0` the first pass loops forever if the empty string is a key. Otherwise it claims nothing, no later pass runs, and Stage B tags single characters without the citation or `IGNORE` rule; that run is not modelled. With a negative `n`, `substring` throws, but only on a non-empty sentence.
- `EmitProperties.TagSentenceOk`: proved only when no claimed term is followed by a citation marker. The extra character the citation rule takes may start another claim; the next step then looks up a non-key and throws. The model returns that error, but no lemma characterises it.
- 32-bit `int` overflow of indices and counters, UTF-16 surrogate pairs (a `char` is one code point here), and the text encoding of the literals.
- The `writer` field of `hashJoin` is null until a join opens it; `probeAndInsert` is only modelled as called from the joins.
